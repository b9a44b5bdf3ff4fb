/** `test/testScripts/recordRetrieval/recordCreationScript.js`: the client that creates a record
    through the API, sending the wrapped AES key, its own public key and a bearer token. */
module ClientRetrieval {
  import opened Wrappers
  import opened Values
  import opened Tokens
  import Hex
  import Utf8
  import Base64
  import AesUtils
  import RsaUtils
  import CryptoHelper
  import FieldCrypto
  import ClientPayload
  import TokenMiddleware

  /** The record the script sends. */
  const Record := ClientPayload.Draft(
    "6863d3923b3b66d0520f2fbd",
    "Asthma - mild intermittent",
    "Monitor symptoms weekly and adjust medication if needed.",
    ["Albuterol inhaler"])

  /** This script's `encryptWithAES`: the same envelope as the backend's, with no check of its
      arguments. */
  function EncryptWithAES(aes: AesUtils.Aes, plainText: string, aesKey: string, iv: AesUtils.Iv): (r: Result<string, AesUtils.CryptoError>)
    ensures r.Success? <==> |Hex.Decode(aesKey)| == AesUtils.KeyBytes
    ensures r.Success? ==> AesUtils.IsEnvelope(r.value) && Hex.Decode(r.value[..2 * AesUtils.IvBytes]) == iv
  {
    AesUtils.EncryptAES(aes, plainText, aesKey, iv)
  }

  /** On non-empty arguments the two scripts' `encryptWithAES` agree. */
  lemma AgreesWithValidated(aes: AesUtils.Aes, plainText: string, aesKey: string, iv: AesUtils.Iv)
    requires plainText != "" && aesKey != ""
    ensures ClientPayload.EncryptWithAES(aes, Some(plainText), Some(aesKey), iv).Success? == EncryptWithAES(aes, plainText, aesKey, iv).Success?
    ensures EncryptWithAES(aes, plainText, aesKey, iv).Success? ==>
              ClientPayload.EncryptWithAES(aes, Some(plainText), Some(aesKey), iv).value == EncryptWithAES(aes, plainText, aesKey, iv).value
  {
  }

  /** Without the check, an empty text is encrypted where the other script refuses it. */
  lemma EncryptsEmptyText(aes: AesUtils.Aes, aesKey: string, iv: AesUtils.Iv)
    requires FieldCrypto.KeyOk(aesKey)
    ensures EncryptWithAES(aes, "", aesKey, iv).Success?
    ensures ClientPayload.EncryptWithAES(aes, Some(""), Some(aesKey), iv) == Failure(ClientPayload.MissingInput)
  {
  }

  /** The headers of the POST, by the lower-case names the backend reads them under. */
  function RequestHeaders(wrappedKey: string, frontendPublicKey: string, token: string): (h: Headers)
    ensures h.Keys == {"x-encrypted-aes-key", "x-client-public-key", "authorization"}
    ensures h["x-encrypted-aes-key"] == wrappedKey
    ensures Utf8.Decode(Base64.Decode(h["x-client-public-key"])) == frontendPublicKey
    ensures ' ' !in token ==> TokenMiddleware.Token(h) == Some(token)
  {
    var h := map[
      "x-encrypted-aes-key" := wrappedKey,
      "x-client-public-key" := Base64.Encode(Utf8.Encode(frontendPublicKey)),
      "authorization" := "Bearer " + token];
    Base64.DecodeEncode(Utf8.Encode(frontendPublicKey));
    Utf8.DecodeEncode(frontendPublicKey);
    assert ' ' !in token ==> TokenMiddleware.Token(h) == Some(token) by {
      if ' ' !in token {
        SecondPieceOfBearer(token);
      }
    }
    h
  }

  /** The request `main()` sends. */
  datatype Request = Request(aesKey: string, payload: Body, headers: Headers)

  /** `main()` once the backend public key and the login token are in hand; `frontend` is the key
      pair the script generated and saved, `random` is `randomBytes(32)`. */
  function Run(aes: AesUtils.Aes, rsa: RsaUtils.Rsa, backendPublicKey: string, frontend: RsaUtils.KeyPair, random: Hex.Bytes,
               ivs: FieldCrypto.IvStream, nowIso: string, token: string): (r: Result<Request, string>)
    requires |random| == 32
    ensures r.Success? <==> rsa.publicEncrypt(backendPublicKey, RsaUtils.OaepSha256, random).Success?
    ensures r.Success? ==> |r.value.aesKey| == 64 && Hex.IsLowerHex(r.value.aesKey) && Hex.Decode(r.value.aesKey) == random
    ensures r.Success? ==> FieldCrypto.EncryptFields(aes, ClientPayload.PlainRecord(Record, nowIso), ClientPayload.EncryptedFields,
                                                     r.value.aesKey, ivs, 0) == Success(r.value.payload)
    ensures r.Success? ==> r.value.headers.Keys == {"x-encrypted-aes-key", "x-client-public-key", "authorization"}
    ensures r.Success? ==> Base64.Decode(r.value.headers["x-encrypted-aes-key"])
                           == rsa.publicEncrypt(backendPublicKey, RsaUtils.OaepSha256, random).value
    ensures r.Success? ==> Utf8.Decode(Base64.Decode(r.value.headers["x-client-public-key"])) == frontend.publicKey
    ensures r.Success? && ' ' !in token ==> TokenMiddleware.Token(r.value.headers) == Some(token)
  {
    var aesKey := CryptoHelper.GenerateAESKey(random);
    ClientPayload.PayloadIsEncryptFields(aes, aesKey, ivs, Record, nowIso);
    var payload := ClientPayload.Payload(aes, aesKey, ivs, Record, nowIso).value;
    var wrapped :- ClientPayload.WrapKey(rsa, aesKey, backendPublicKey);
    Success(Request(aesKey, payload, RequestHeaders(wrapped, frontend.publicKey, token)))
  }
}
