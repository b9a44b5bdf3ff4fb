/** `middleware/authMiddleware.js`: the bearer-token guard and the two role guards. */
module AuthGuards {
  import opened Wrappers
  import opened Values
  import opened Tokens
  import Text
  import Roles
  import TokenMiddleware

  /** What a guard does: call `next()` with `req.user` set, or answer and stop. */
  datatype Gate = Pass(user: Claims) | Refuse(response: Response)

  /** What a role guard does: call `next()`, or answer and stop. */
  datatype Decision = Allow | Deny(response: Response)

  const MissingToken := Response(401, "Missing token")
  const InvalidToken := Response(403, "Invalid or expired token")
  const AccessDenied := Response(403, "Access denied")
  const MissingPermission := Response(403, "Missing permission")

  const Scheme := "Bearer "

  /** `req.user?.role`: `undefined` when there is no user or no claim. */
  function RoleOf(user: Option<Claims>): (r: Option<string>)
    ensures r.Some? <==> user.Some? && "role" in user.value
    ensures r.Some? ==> r.value == user.value["role"]
  {
    if user.None? then None else Lookup(user.value, "role")
  }

  /** `verifyToken`: the header must start with `Bearer `; the token is its second
      space-separated piece. */
  function VerifyToken(headers: Headers, verify: Verifier): (g: Gate)
    ensures g == Refuse(MissingToken) <==>
              !Present(Lookup(headers, "authorization")) || !Text.StartsWith(headers["authorization"], Scheme)
    ensures g.Pass? <==>
              && "authorization" in headers && Text.StartsWith(headers["authorization"], Scheme)
              && TokenMiddleware.Token(headers).Some? && verify(TokenMiddleware.Token(headers).value).Some?
    ensures g.Pass? ==> TokenMiddleware.Token(headers).Some? && Some(g.user) == verify(TokenMiddleware.Token(headers).value)
    ensures g.Refuse? ==> g.response in {MissingToken, InvalidToken}
  {
    var authHeader := Lookup(headers, "authorization");
    if !Present(authHeader) || !Text.StartsWith(authHeader.value, Scheme) then Refuse(MissingToken)
    else
      assert ' ' in authHeader.value by {
        assert authHeader.value[6] == Scheme[6];
      }
      var token := SecondPiece(authHeader);
      match verify(token.value)
      case None => Refuse(InvalidToken)
      case Some(decoded) => Pass(decoded)
  }

  /** `Bearer <token>` hands exactly `<token>` to verification. */
  lemma BearerTokenVerified(headers: Headers, verify: Verifier, token: string)
    requires ' ' !in token
    requires Lookup(headers, "authorization") == Some(Scheme + token)
    ensures VerifyToken(headers, verify) == match verify(token)
                                             case None => Refuse(InvalidToken)
                                             case Some(c) => Pass(c)
  {
    SecondPieceOfBearer(token);
    Text.StartsWithAppend(Scheme, token);
  }

  /** `jwt.verify` throws "jwt must be provided" on an empty token, whatever the secret. */
  predicate RefusesEmpty(verify: Verifier) {
    verify("").None?
  }

  /** A header of `Bearer ` and nothing more passes the scheme test, and its empty token is
      refused by verification. */
  lemma EmptyBearerRefused(headers: Headers, verify: Verifier)
    requires RefusesEmpty(verify)
    requires Lookup(headers, "authorization") == Some(Scheme)
    ensures VerifyToken(headers, verify) == Refuse(InvalidToken)
  {
    assert Scheme + "" == Scheme;
    BearerTokenVerified(headers, verify, "");
  }

  /** The field-encryption middlewares take the second piece under any scheme; this guard
      refuses a header under another scheme before looking at the token. */
  lemma OtherSchemeRefused(headers: Headers, verify: Verifier, token: string)
    requires ' ' !in token
    requires Lookup(headers, "authorization") == Some("Basic " + token)
    ensures TokenMiddleware.Token(headers) == Some(token)
    ensures VerifyToken(headers, verify) == Refuse(MissingToken)
  {
    SecondPieceIgnoresScheme("Basic", token);
    assert "Basic" + " " + token == "Basic " + token;
    if |"Basic " + token| >= |Scheme| {
      assert ("Basic " + token)[..|Scheme|][1] != Scheme[1];
    }
  }

  /** `permit(...allowedRoles)`: the role claim must be present, non-empty and listed. */
  function Permit(allowed: seq<string>, user: Option<Claims>): (d: Decision)
    ensures d.Allow? <==> exists i | 0 <= i < |allowed| :: allowed[i] != "" && RoleOf(user) == Some(allowed[i])
    ensures d.Deny? ==> d.response == AccessDenied
  {
    var role := RoleOf(user);
    if !Present(role) || role.value !in allowed then Deny(AccessDenied) else Allow
  }

  /** `permit()` with no roles lets nobody through. */
  lemma EmptyPermitDeniesAll(user: Option<Claims>)
    ensures Permit([], user) == Deny(AccessDenied)
  {
  }

  /** Without `verifyToken` in front of it there is no `req.user`, and `permit` refuses. */
  lemma PermitWithoutUserDenies(allowed: seq<string>)
    ensures Permit(allowed, None) == Deny(AccessDenied)
  {
  }

  /** `verifyToken` then `permit(...allowed)`, as a route chains them. */
  function Guarded(allowed: seq<string>, headers: Headers, verify: Verifier): (g: Gate)
    ensures g.Pass? ==> VerifyToken(headers, verify) == g && Permit(allowed, Some(g.user)) == Allow
    ensures VerifyToken(headers, verify).Refuse? ==> g == VerifyToken(headers, verify)
    ensures VerifyToken(headers, verify).Pass? && Permit(allowed, Some(VerifyToken(headers, verify).user)).Deny? ==>
              g == Refuse(AccessDenied)
  {
    match VerifyToken(headers, verify)
    case Refuse(r) => Refuse(r)
    case Pass(user) =>
      match Permit(allowed, Some(user))
      case Deny(r) => Refuse(r)
      case Allow => Pass(user)
  }

  /** A token minted for a user reaches the handler exactly when the user's role is listed. */
  lemma MintedTokenGuarded(allowed: seq<string>, headers: Headers, verify: Verifier, token: string, id: string, r: Roles.Role, email: string)
    requires ' ' !in token
    requires Lookup(headers, "authorization") == Some(Scheme + token)
    requires verify(token).Some? && MintedBy(verify(token).value, id, Roles.Name(r), email)
    ensures Guarded(allowed, headers, verify).Pass? <==> Roles.Name(r) in allowed
  {
    BearerTokenVerified(headers, verify, token);
    assert RoleOf(verify(token)) == Some(Roles.Name(r));
    if Roles.Name(r) in allowed {
      var i :| 0 <= i < |allowed| && allowed[i] == Roles.Name(r);
    }
  }

  /** `checkPermission(permission)`: the role must have an entry in the capability table whose
      `can` list holds the permission. */
  function CheckPermission(permission: string, user: Option<Claims>): (d: Decision)
    ensures d.Allow? <==> exists r: Roles.Role :: RoleOf(user) == Some(Roles.Name(r)) && permission in Roles.Can(r)
    ensures d.Deny? ==> d.response == MissingPermission
  {
    var role := RoleOf(user);
    if role.Some? && role.value in Roles.Table && permission in Roles.Table[role.value] then
      Roles.TableCoversRoles(role.value);
      assert Roles.Name(Roles.ParseRole(role.value).value) == role.value;
      Allow
    else
      assert forall r: Roles.Role :: !(RoleOf(user) == Some(Roles.Name(r)) && permission in Roles.Can(r)) by {
        forall r: Roles.Role ensures !(RoleOf(user) == Some(Roles.Name(r)) && permission in Roles.Can(r)) {
          Roles.TableCoversRoles(Roles.Name(r));
        }
      }
      Deny(MissingPermission)
  }

  /** Capabilities are not inherited: the administrator is refused `manage_employees`. */
  lemma AdminCannotManageEmployees(user: Claims)
    requires Lookup(user, "role") == Some("Admin")
    ensures CheckPermission("manage_employees", Some(user)) == Deny(MissingPermission)
  {
    Roles.ManageEmployeesOnlyManager(Roles.Admin);
  }

  /** A role the table does not know, or no role at all, holds no permission. */
  lemma UnknownRoleHasNoPermission(permission: string, user: Option<Claims>)
    requires RoleOf(user).None? || Roles.ParseRole(RoleOf(user).value).None?
    ensures CheckPermission(permission, user) == Deny(MissingPermission)
  {
  }
}
