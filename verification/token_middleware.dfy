/** `middleware/encryptAES.js` and `middleware/decryptAES.js`: field encryption with the AES key
    taken from the caller's JWT (and, on the encrypting side only, from a header). */
module TokenMiddleware {
  import opened Wrappers
  import opened Values
  import opened Tokens
  import opened AesUtils
  import opened FieldCrypto

  const TokenMissing := Response(401, "Token is missing")
  const KeyMissing := Response(403, "AES key is missing in token")
  const EncryptFailed := Response(400, "Failed to encrypt")
  const DecryptFailed := Response(400, "Failed to decrypt")

  /** The token: the second space-separated piece of `Authorization`. */
  function Token(headers: Headers): (t: Option<string>)
    ensures t.Some? <==> "authorization" in headers && ' ' in headers["authorization"]
    ensures t.Some? ==> ' ' !in t.value
    ensures forall tok | ' ' !in tok :: Lookup(headers, "authorization") == Some("Bearer " + tok) ==> t == Some(tok)
  {
    assert forall tok | ' ' !in tok :: Lookup(headers, "authorization") == Some("Bearer " + tok) ==> SecondPiece(Lookup(headers, "authorization")) == Some(tok) by {
      forall tok | ' ' !in tok && Lookup(headers, "authorization") == Some("Bearer " + tok)
        ensures SecondPiece(Lookup(headers, "authorization")) == Some(tok)
      {
        SecondPieceOfBearer(tok);
      }
    }
    SecondPiece(Lookup(headers, "authorization"))
  }

  /** `decoded.aesKey || req.headers['x-plaintext-key']`. */
  function EncryptionKey(claims: Claims, headers: Headers): (k: Option<string>)
    ensures Present(Lookup(claims, "aesKey")) ==> k == Some(claims["aesKey"])
    ensures !Present(Lookup(claims, "aesKey")) ==> k == Lookup(headers, "x-plaintext-key")
  {
    OrElse(Lookup(claims, "aesKey"), Lookup(headers, "x-plaintext-key"))
  }

  /** The middleware `middleware/encryptAES.js` builds for `fields`. A token that fails
      verification lands in the catch block with the encryption errors, hence 400, not 401. */
  function EncryptAESMiddleware(aes: Aes, fields: seq<string>, headers: Headers, verify: Verifier, body: Body, ivs: IvStream): (s: Step)
    ensures s == Halt(TokenMissing) <==> !Present(Token(headers))
    ensures Present(Token(headers)) && verify(Token(headers).value).None? ==> s == Halt(EncryptFailed)
    ensures s == Halt(KeyMissing) <==>
              Present(Token(headers)) && verify(Token(headers).value).Some?
              && !Present(EncryptionKey(verify(Token(headers).value).value, headers))
    ensures s.Halt? ==> s.response in {TokenMissing, KeyMissing, EncryptFailed}
    ensures s.Next? <==>
              && Present(Token(headers)) && verify(Token(headers).value).Some?
              && Present(EncryptionKey(verify(Token(headers).value).value, headers))
              && forall i | 0 <= i < |fields| && fields[i] in body ::
                   KeyOk(EncryptionKey(verify(Token(headers).value).value, headers).value)
                   && Encryptable(body[fields[i]])
    ensures s.Next? ==> s.body.Keys == body.Keys
    ensures s.Next? ==> forall k | k in body && k !in fields :: s.body[k] == body[k]
    ensures s.Next? ==> forall k | k in body && k in fields :: s.body[k].Str? && IsEnvelope(s.body[k].s)
  {
    var token := Token(headers);
    if !Present(token) then Halt(TokenMissing)
    else
      match verify(token.value)
      case None => Halt(EncryptFailed)
      case Some(claims) =>
        var key := EncryptionKey(claims, headers);
        if !Present(key) then Halt(KeyMissing)
        else
          match EncryptFields(aes, body, fields, key.value, ivs, 0)
          case Failure(_) => Halt(EncryptFailed)
          case Success(b) => Next(b)
  }

  /** The middleware `middleware/decryptAES.js` builds for `fields`: the key comes from the
      token alone, and only truthy listed fields are decrypted. */
  function DecryptAESMiddleware(aes: Aes, fields: seq<string>, headers: Headers, verify: Verifier, body: Body): (s: Step)
    ensures s == Halt(TokenMissing) <==> !Present(Token(headers))
    ensures Present(Token(headers)) && verify(Token(headers).value).None? ==> s == Halt(DecryptFailed)
    ensures s == Halt(KeyMissing) <==>
              Present(Token(headers)) && verify(Token(headers).value).Some?
              && !Present(Lookup(verify(Token(headers).value).value, "aesKey"))
    ensures s.Next? ==> s.body.Keys == body.Keys
    ensures s.Next? ==> forall k | k in body && k !in fields :: s.body[k] == body[k]
    ensures s.Next? ==> forall k | k in body && !Truthy(body[k]) :: s.body[k] == body[k]
    ensures s.Halt? ==> s.response in {TokenMissing, KeyMissing, DecryptFailed}
    ensures NoDuplicates(fields) ==>
              (s.Next? <==>
                 && Present(Token(headers)) && verify(Token(headers).value).Some?
                 && Present(Lookup(verify(Token(headers).value).value, "aesKey"))
                 && AllDecrypt(aes, body, fields, Lookup(verify(Token(headers).value).value, "aesKey").value, TruthyOnly))
    ensures NoDuplicates(fields) && s.Next? && Present(Token(headers)) && verify(Token(headers).value).Some?
              && Present(Lookup(verify(Token(headers).value).value, "aesKey")) ==>
              DecryptsTo(aes, body, fields, Lookup(verify(Token(headers).value).value, "aesKey").value, TruthyOnly, s.body)
  {
    var token := Token(headers);
    if !Present(token) then Halt(TokenMissing)
    else
      match verify(token.value)
      case None => Halt(DecryptFailed)
      case Some(claims) =>
        var key := Lookup(claims, "aesKey");
        if !Present(key) then Halt(KeyMissing)
        else
          DecryptFieldsValuesWhenDistinct(aes, body, fields, key.value, TruthyOnly);
          match DecryptFields(aes, body, fields, key.value, TruthyOnly)
          case Failure(_) => Halt(DecryptFailed)
          case Success(b) => Next(b)
  }

  /** Without an `aesKey` claim, the encrypting side uses the `x-plaintext-key` header. */
  lemma HeaderKeyFallback(aes: Aes, fields: seq<string>, headers: Headers, verify: Verifier, body: Body, ivs: IvStream, key: string)
    requires Present(Token(headers)) && verify(Token(headers).value).Some?
    requires !Present(Lookup(verify(Token(headers).value).value, "aesKey"))
    requires Lookup(headers, "x-plaintext-key") == Some(key) && key != ""
    ensures EncryptAESMiddleware(aes, fields, headers, verify, body, ivs)
            == match EncryptFields(aes, body, fields, key, ivs, 0)
               case Failure(_) => Halt(EncryptFailed)
               case Success(b) => Next(b)
  {
  }

  /** The decrypting side never reads the header: the same request with any header key gives
      the same outcome. */
  lemma NoHeaderFallback(aes: Aes, fields: seq<string>, headers: Headers, verify: Verifier, body: Body, key: string)
    requires "authorization" in headers
    ensures DecryptAESMiddleware(aes, fields, headers["x-plaintext-key" := key], verify, body)
            == DecryptAESMiddleware(aes, fields, headers, verify, body)
  {
    assert Lookup(headers["x-plaintext-key" := key], "authorization") == Lookup(headers, "authorization");
  }

  /** Tokens as `generateJWT` mints them carry no `aesKey`, so decryption always stops at 403. */
  lemma MintedTokenHasNoKey(aes: Aes, fields: seq<string>, headers: Headers, verify: Verifier, body: Body, id: string, role: string, email: string)
    requires Present(Token(headers)) && verify(Token(headers).value).Some?
    requires MintedBy(verify(Token(headers).value).value, id, role, email)
    ensures DecryptAESMiddleware(aes, fields, headers, verify, body) == Halt(KeyMissing)
  {
    MintedByLacksKeyAndUnderscoreId(verify(Token(headers).value).value, id, role, email);
  }

  /** An empty string is falsy, so the decrypting side leaves it alone rather than failing. */
  lemma EmptyFieldSkipped(aes: Aes, fields: seq<string>, headers: Headers, verify: Verifier, body: Body, f: string)
    requires f in body && body[f] == Str("")
    requires DecryptAESMiddleware(aes, fields, headers, verify, body).Next?
    ensures DecryptAESMiddleware(aes, fields, headers, verify, body).body[f] == Str("")
  {
  }

  /** Encrypting and then decrypting with a token that carries the key, over distinct fields:
      strings come back, arrays come back as their JSON text and are never parsed. */
  lemma DecryptAfterEncrypt(aes: Aes, fields: seq<string>, headers: Headers, verify: Verifier, body: Body, ivs: IvStream, key: string)
    requires Sound(aes) && KeyOk(key) && NoDuplicates(fields)
    requires forall i | 0 <= i < |fields| && fields[i] in body :: Encryptable(body[fields[i]])
    requires Present(Token(headers)) && verify(Token(headers).value).Some?
    requires Lookup(verify(Token(headers).value).value, "aesKey") == Some(key)
    ensures EncryptAESMiddleware(aes, fields, headers, verify, body, ivs).Next?
    ensures DecryptAESMiddleware(aes, fields, headers, verify, EncryptAESMiddleware(aes, fields, headers, verify, body, ivs).body)
            == Next(Flatten(body, fields))
  {
    assert key != "" by {
      assert |Hex.Decode(key)| == KeyBytes;
    }
    DecryptEncryptFields(aes, body, fields, key, ivs, 0, TruthyOnly);
  }
}
