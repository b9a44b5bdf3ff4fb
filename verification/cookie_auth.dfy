/** `middlewares/authMiddleware.js`: the cookie-based guard and its role guard. */
module CookieAuth {
  import opened Wrappers
  import opened Values
  import opened Tokens
  import opened AuthGuards
  import Roles

  /** Cookies by name, as the cookie parser leaves them in `req.cookies`. */
  type Cookies = map<string, string>

  const TokenMissing := Response(401, "Token is missing")
  const AuthFailed := Response(403, "Failed to authenticate token")

  /** `authMiddleware`: the token is the `token` cookie and nothing else. */
  function AuthMiddleware(cookies: Cookies, verify: Verifier): (g: Gate)
    ensures g == Refuse(TokenMissing) <==> !Present(Lookup(cookies, "token"))
    ensures g.Pass? <==> Present(Lookup(cookies, "token")) && verify(cookies["token"]).Some?
    ensures g.Pass? ==> verify(cookies["token"]) == Some(g.user)
    ensures g.Refuse? ==> g.response in {TokenMissing, AuthFailed}
  {
    var token := Lookup(cookies, "token");
    if !Present(token) then Refuse(TokenMissing)
    else
      match verify(token.value)
      case None => Refuse(AuthFailed)
      case Some(decoded) => Pass(decoded)
  }

  /** Headers play no part: a bearer header does not stand in for the cookie. */
  lemma HeadersIgnored(cookies: Cookies, verify: Verifier)
    requires "token" !in cookies
    ensures AuthMiddleware(cookies, verify) == Refuse(TokenMissing)
  {
  }

  /** `requiredRole(...roles)`: `roles.includes(req.user?.role)`. */
  function RequiredRole(roles: seq<string>, user: Option<Claims>): (d: Decision)
    ensures d.Allow? <==> exists i | 0 <= i < |roles| :: RoleOf(user) == Some(roles[i])
    ensures d.Deny? ==> d.response == AccessDenied
  {
    var role := RoleOf(user);
    if role.Some? && role.value in roles then Allow else Deny(AccessDenied)
  }

  /** `requiredRole` and `permit` agree except on an empty role claim, which `permit` refuses
      as falsy and `requiredRole` lets through when `""` is listed. */
  lemma RequiredRoleAgainstPermit(roles: seq<string>, user: Option<Claims>)
    ensures RequiredRole(roles, user).Allow? <==> Permit(roles, user).Allow? || (RoleOf(user) == Some("") && "" in roles)
  {
    if RequiredRole(roles, user).Allow? && RoleOf(user) != Some("") {
      var i :| 0 <= i < |roles| && RoleOf(user) == Some(roles[i]);
      assert roles[i] != "";
    }
    if RoleOf(user) == Some("") && "" in roles {
      var i :| 0 <= i < |roles| && roles[i] == "";
      assert RoleOf(user) == Some(roles[i]);
    }
  }

  /** Role names are capitalised, so a guard for `'admin'` (as `routes/adminRoutes.js` asks
      for) refuses every user, the administrator included. */
  lemma LowerCaseRoleRefusesAll(user: Claims, r: Roles.Role)
    requires Lookup(user, "role") == Some(Roles.Name(r))
    ensures RequiredRole(["admin"], Some(user)) == Deny(AccessDenied)
  {
  }

  /** What the module exports. */
  const Exports: set<string> := {"authMiddleware", "requiredRole"}

  /** `require(...).name`: the export, or `undefined`. */
  function Export(name: string): (r: Option<string>)
    ensures r.Some? <==> name in Exports
  {
    if name in Exports then Some(name) else None
  }

  /** `routes/patientRecordRoutes.js` imports `verifyToken` and `permit` from here, and
      `routes/adminRoutes.js` imports `requireRole`: none of them exists. */
  lemma ImportedNamesUndefined()
    ensures Export("verifyToken").None? && Export("permit").None? && Export("requireRole").None?
    ensures Export("authMiddleware").Some? && Export("requiredRole").Some?
  {
  }
}
