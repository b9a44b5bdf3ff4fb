/** `middlewares/encryptFieldsAESMiddleware.js` and `middlewares/decryptFieldsAESMiddleware.js`:
    field encryption with the key an earlier middleware left in `req.aesKey`. */
module FieldsMiddleware {
  import opened Wrappers
  import opened Values
  import opened AesUtils
  import opened FieldCrypto

  const MissingKey := Response(400, "Missing AES key in request context")
  const EncryptFailed := Response(500, "Failed to encrypt fields")
  const DecryptFailed := Response(500, "Failed to decrypt fields")

  /** The middleware built by `encryptFieldsAESMiddleware(fields)`, applied to a request whose
      `req.aesKey` is `aesKey`. */
  function EncryptFieldsAESMiddleware(aes: Aes, fields: seq<string>, aesKey: Option<string>, body: Body, ivs: IvStream): (s: Step)
    ensures !Present(aesKey) <==> s == Halt(MissingKey)
    ensures s.Next? <==> Present(aesKey) && forall i | 0 <= i < |fields| && fields[i] in body :: KeyOk(aesKey.value) && Encryptable(body[fields[i]])
    ensures s.Halt? && Present(aesKey) ==> s.response == EncryptFailed
    ensures s.Next? ==> s.body.Keys == body.Keys
    ensures s.Next? ==> forall k | k in body && k !in fields :: s.body[k] == body[k]
    ensures s.Next? ==> forall k | k in body && k in fields :: s.body[k].Str? && IsEnvelope(s.body[k].s)
  {
    if !Present(aesKey) then Halt(MissingKey)
    else
      match EncryptFields(aes, body, fields, aesKey.value, ivs, 0)
      case Failure(_) => Halt(EncryptFailed)
      case Success(b) => Next(b)
  }

  /** The middleware built by `decryptFieldsAESMiddleware(fields)`. Every listed field that is
      not `undefined` is decrypted, so an empty string or a non-string fails the request. */
  function DecryptFieldsAESMiddleware(aes: Aes, fields: seq<string>, aesKey: Option<string>, body: Body): (s: Step)
    ensures !Present(aesKey) <==> s == Halt(MissingKey)
    ensures s.Halt? && Present(aesKey) ==> s.response == DecryptFailed
    ensures s.Next? ==> s.body.Keys == body.Keys
    ensures s.Next? ==> forall k | k in body && k !in fields :: s.body[k] == body[k]
    ensures s.Next? ==> forall k | k in body && k in fields :: body[k].Str? && s.body[k].Str?
    ensures NoDuplicates(fields) ==>
              (s.Next? <==> Present(aesKey) && AllDecrypt(aes, body, fields, aesKey.value, Defined))
    ensures NoDuplicates(fields) && Present(aesKey) && s.Next? ==>
              DecryptsTo(aes, body, fields, aesKey.value, Defined, s.body)
  {
    if !Present(aesKey) then Halt(MissingKey)
    else
      DecryptFieldsValuesWhenDistinct(aes, body, fields, aesKey.value, Defined);
      match DecryptFields(aes, body, fields, aesKey.value, Defined)
      case Failure(_) => Halt(DecryptFailed)
      case Success(b) =>
        assert forall k | k in body && k in fields :: body[k].Str? by {
          forall k | k in body && k in fields ensures body[k].Str? {
            var i :| 0 <= i < |fields| && fields[i] == k;
          }
        }
        DecryptedAreStrings(aes, body, fields, aesKey.value, b);
        Next(b)
  }

  /** Every value a successful `Defined` loop left in a listed field is a string. */
  lemma {:induction false} DecryptedAreStrings(aes: Aes, body: Body, fields: seq<string>, key: string, b: Body)
    requires DecryptFields(aes, body, fields, key, Defined) == Success(b)
    requires forall k | k in body && k in fields :: body[k].Str?
    ensures forall k | k in body && k in fields :: b[k].Str?
    decreases |fields|
  {
    if fields != [] {
      var next := DecryptField(aes, body, fields[0], key, Defined).value;
      assert forall k | k in next && k in fields[1..] :: next[k].Str? by {
        forall k | k in next && k in fields[1..] ensures next[k].Str? {
          assert k in fields;
        }
      }
      DecryptedAreStrings(aes, next, fields[1..], key, b);
      forall k | k in body && k in fields ensures b[k].Str? {
        if k !in fields[1..] {
          assert k == fields[0];
        }
      }
    }
  }

  /** The pair in sequence, with the same key and list of distinct fields: strings come back,
      arrays come back as their JSON text. */
  lemma DecryptAfterEncrypt(aes: Aes, fields: seq<string>, aesKey: string, body: Body, ivs: IvStream)
    requires Sound(aes) && KeyOk(aesKey) && aesKey != "" && NoDuplicates(fields)
    requires forall i | 0 <= i < |fields| && fields[i] in body :: Encryptable(body[fields[i]])
    ensures EncryptFieldsAESMiddleware(aes, fields, Some(aesKey), body, ivs).Next?
    ensures DecryptFieldsAESMiddleware(aes, fields, Some(aesKey), EncryptFieldsAESMiddleware(aes, fields, Some(aesKey), body, ivs).body)
            == Next(Flatten(body, fields))
  {
    DecryptEncryptFields(aes, body, fields, aesKey, ivs, 0, Defined);
  }
}
