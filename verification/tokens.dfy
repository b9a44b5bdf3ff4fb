/** Request headers, JWT claims and the token extraction the middlewares share. JWT signing and
    verification stay opaque: verification is a parameter. */
module Tokens {
  import opened Wrappers
  import opened Values
  import Text

  /** Request headers by lower-case name. */
  type Headers = map<string, string>

  /** A decoded JWT payload. The claims the code reads (`id`, `role`, `email`, `aesKey`, `_id`)
      are strings; the numeric `iat` and `exp` that `jwt.sign` adds are never read, so they are
      carried here by their text. */
  type Claims = map<string, string>

  /** `jwt.verify(token, secret)`: the decoded payload, or `None` where it throws (bad
      signature, expired, malformed). */
  type Verifier = string -> Option<Claims>

  function Lookup(m: map<string, string>, name: string): (r: Option<string>)
    ensures r.Some? <==> name in m
    ensures r.Some? ==> r.value == m[name]
  {
    if name in m then Some(m[name]) else None
  }

  /** `header?.split(' ')[1]`: the second space-separated piece, `undefined` when the header is
      absent or has no space. */
  function SecondPiece(header: Option<string>): (r: Option<string>)
    ensures r.Some? <==> header.Some? && ' ' in header.value
    ensures r.Some? ==> ' ' !in r.value
  {
    if header.None? then None
    else
      var parts := Text.Split(header.value, ' ');
      Text.SplitJoin(header.value, ' ');
      Text.CountPositive(header.value, ' ');
      if |parts| >= 2 then Some(parts[1]) else None
  }

  /** For a well-formed `Bearer <token>` header, the piece is the token. */
  lemma SecondPieceOfBearer(token: string)
    requires ' ' !in token
    ensures SecondPiece(Some("Bearer " + token)) == Some(token)
  {
    assert "Bearer " + token == "Bearer" + [' '] + token;
    Text.SplitAtFirst("Bearer", ' ', token);
    Text.SplitNoSeparator(token, ' ');
  }

  /** Whatever precedes the first space is ignored: there is no check of the scheme name. */
  lemma SecondPieceIgnoresScheme(scheme: string, token: string)
    requires ' ' !in scheme && ' ' !in token
    ensures SecondPiece(Some(scheme + " " + token)) == Some(token)
  {
    assert scheme + " " + token == scheme + [' '] + token;
    Text.SplitAtFirst(scheme, ' ', token);
    Text.SplitNoSeparator(token, ' ');
  }

  /** The payload literal `generateJWT` and `generateToken` hand to `jwt.sign`: the user's id,
      role and email. */
  function MintedClaims(id: string, role: string, email: string): (c: Claims)
    ensures c.Keys == {"id", "role", "email"}
    ensures "aesKey" !in c && "_id" !in c
  {
    map["id" := id, "role" := role, "email" := email]
  }

  /** `jwt.sign(payload, secret, { expiresIn })`, as `jwt.verify` later decodes it: the payload
      plus the issue time `iat` and, because both minters set `expiresIn`, the expiry `exp`. */
  function Sign(payload: Claims, iat: string, exp: string): (c: Claims)
    ensures c.Keys == payload.Keys + {"iat", "exp"}
    ensures forall k | k in payload && k != "iat" && k != "exp" :: c[k] == payload[k]
  {
    payload["iat" := iat]["exp" := exp]
  }

  /** The claim names of a decoded minted token. */
  const DecodedNames: set<string> := {"id", "role", "email", "iat", "exp"}

  /** `c` is what `jwt.verify` returns for a token minted for the user `id`, `role`, `email`. */
  predicate MintedBy(c: Claims, id: string, role: string, email: string) {
    && c.Keys == DecodedNames
    && Lookup(c, "id") == Some(id)
    && Lookup(c, "role") == Some(role)
    && Lookup(c, "email") == Some(email)
  }

  /** Every token the two minters sign decodes to claims `MintedBy` describes; none carries an
      `aesKey` or an `_id`. */
  lemma SignedIsMintedBy(id: string, role: string, email: string, iat: string, exp: string)
    ensures MintedBy(Sign(MintedClaims(id, role, email), iat, exp), id, role, email)
    ensures "aesKey" !in Sign(MintedClaims(id, role, email), iat, exp)
    ensures "_id" !in Sign(MintedClaims(id, role, email), iat, exp)
  {
    var c := Sign(MintedClaims(id, role, email), iat, exp);
    assert c.Keys == DecodedNames;
  }

  /** Decoded minted claims carry neither an `aesKey` nor an `_id`. */
  lemma MintedByLacksKeyAndUnderscoreId(c: Claims, id: string, role: string, email: string)
    requires MintedBy(c, id, role, email)
    ensures "aesKey" !in c && "_id" !in c
  {
  }
}
