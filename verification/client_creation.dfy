/** `test/testScripts/recordCreation/recordCreationScript.js`: a client that generates an AES
    key, encrypts a fixed record under it and wraps the key for the backend. */
module ClientCreation {
  import opened Wrappers
  import opened Values
  import Hex
  import Base64
  import AesUtils
  import RsaUtils
  import CryptoHelper
  import FieldCrypto
  import ClientPayload

  /** The record the script sends. */
  const Record := ClientPayload.Draft(
    "6863d3923b3b66d0520f2fbd",
    "Diabetes Type II",
    "Patient shows signs of improvement.",
    ["Metformin", "Insulin"])

  /** What `main()` prints: the key, the encrypted body and the wrapped key. */
  datatype Output = Output(aesKey: string, payload: Body, encryptedAESKey: string)

  /** `main()` once the backend public key has been fetched; `random` is `randomBytes(32)`,
      `ivs` the IVs `encryptWithAES` draws and `nowIso` the current time. */
  function Run(aes: AesUtils.Aes, rsa: RsaUtils.Rsa, backendPublicKey: string, random: Hex.Bytes,
               ivs: FieldCrypto.IvStream, nowIso: string): (r: Result<Output, string>)
    requires |random| == 32
    ensures r.Success? <==> rsa.publicEncrypt(backendPublicKey, RsaUtils.OaepSha256, random).Success?
    ensures r.Success? ==> |r.value.aesKey| == 64 && Hex.Decode(r.value.aesKey) == random
    ensures r.Success? ==> FieldCrypto.EncryptFields(aes, ClientPayload.PlainRecord(Record, nowIso), ClientPayload.EncryptedFields,
                                                     r.value.aesKey, ivs, 0) == Success(r.value.payload)
    ensures r.Success? ==> Base64.Decode(r.value.encryptedAESKey)
                           == rsa.publicEncrypt(backendPublicKey, RsaUtils.OaepSha256, random).value
  {
    var aesKey := CryptoHelper.GenerateAESKey(random);
    ClientPayload.PayloadIsEncryptFields(aes, aesKey, ivs, Record, nowIso);
    var payload := ClientPayload.Payload(aes, aesKey, ivs, Record, nowIso).value;
    var wrapped :- ClientPayload.WrapKey(rsa, aesKey, backendPublicKey);
    Success(Output(aesKey, payload, wrapped))
  }

  /** The backend unwraps with `decryptWithPrivateKey`, whose default padding is OAEP/SHA-1:
      the key this script wraps with OAEP/SHA-256 never unwraps there, whatever the key pair. */
  lemma BackendCannotUnwrap(aes: AesUtils.Aes, rsa: RsaUtils.Rsa, seed: nat, seed2: nat, random: Hex.Bytes,
                            ivs: FieldCrypto.IvStream, nowIso: string)
    requires RsaUtils.Sound(rsa) && |random| == 32
    requires Run(aes, rsa, RsaUtils.GenerateRSAKeyPair(rsa, seed).publicKey, random, ivs, nowIso).Success?
    ensures RsaUtils.DecryptWithPrivateKey(
              rsa,
              Run(aes, rsa, RsaUtils.GenerateRSAKeyPair(rsa, seed).publicKey, random, ivs, nowIso).value.encryptedAESKey,
              RsaUtils.GenerateRSAKeyPair(rsa, seed2).privateKey).Failure?
  {
    var pub := RsaUtils.GenerateRSAKeyPair(rsa, seed).publicKey;
    var c := rsa.publicEncrypt(pub, RsaUtils.OaepSha256, random).value;
    var out := Run(aes, rsa, pub, random, ivs, nowIso).value;
    Base64.DecodeEncode(c);
    assert out.encryptedAESKey == Base64.Encode(c);
    RsaUtils.PaddingMismatchFails(rsa, RsaUtils.BackendKeyOptions, seed, RsaUtils.BackendKeyOptions, seed2, random, c);
  }
}
