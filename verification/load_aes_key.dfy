/** `middlewares/loadAESKey.js`: unwrapping the AES key a client sent, with its error wrapping. */
module LoadAesKey {
  import opened Wrappers
  import opened Values
  import Text
  import Utf8
  import RsaUtils

  const MissingKeyMessage := "Encrypted AES key is missing"
  const Prefix := "Failed to load AES key: "
  const NoKeyMessage := "Decryption returned no key"

  /** What the binding `decryptWithBackendPrvKey` holds at run time: the function, or
      `undefined` when the module does not export that name. */
  type Unwrapper = string -> Result<string, string>

  /** The name the module imports. */
  const ImportedName := "decryptWithBackendPrvKey"

  /** Calling `undefined` throws this `TypeError`. */
  const NotAFunction := ImportedName + " is not a function"

  /** `loadAESKey(encryptedAesKey)` with the imported binding made explicit. An absent or empty
      argument fails before the `try` and keeps its bare message; every failure inside the `try`
      is re-thrown with the prefix. */
  function LoadAESKey(binding: Option<Unwrapper>, encryptedAesKey: Option<string>): (r: Result<string, string>)
    ensures !Present(encryptedAesKey) <==> r == Failure(MissingKeyMessage)
    ensures r.Failure? && Present(encryptedAesKey) ==> Text.StartsWith(r.error, Prefix)
    ensures Present(encryptedAesKey) && binding.None? ==> r == Failure(Prefix + NotAFunction)
    ensures Present(encryptedAesKey) && binding.Some? && binding.value(encryptedAesKey.value).Failure? ==>
              r == Failure(Prefix + binding.value(encryptedAesKey.value).error)
    ensures Present(encryptedAesKey) && binding.Some? && binding.value(encryptedAesKey.value) == Success("") ==>
              r == Failure(Prefix + NoKeyMessage)
    ensures r.Success? ==> binding.Some? && binding.value(encryptedAesKey.value) == Success(r.value) && r.value != ""
    ensures (&& Present(encryptedAesKey) && binding.Some? && binding.value(encryptedAesKey.value).Success?
             && binding.value(encryptedAesKey.value).value != "") ==> r.Success?
  {
    if !Present(encryptedAesKey) then Failure(MissingKeyMessage)
    else
      var inner: Result<string, string> :=
        match binding
        case None => Failure(NotAFunction)
        case Some(unwrap) =>
          match unwrap(encryptedAesKey.value)
          case Failure(m) => Failure(m)
          case Success(k) => if k == "" then Failure(NoKeyMessage) else Success(k);
      match inner
      case Success(k) => Success(k)
      case Failure(m) =>
        Text.StartsWithAppend(Prefix, m);
        assert Prefix + m != MissingKeyMessage by {
          assert (Prefix + m)[0] != MissingKeyMessage[0];
        }
        Failure(Prefix + m)
  }

  /** `const { name } = require(module)`: the export if it exists, `undefined` otherwise. */
  function Import(exports: set<string>, name: string, impl: Unwrapper): (b: Option<Unwrapper>)
    ensures b.Some? <==> name in exports
  {
    if name in exports then Some(impl) else None
  }

  /** The unwrapping the name evidently stands for: `decryptWithPrivateKey` with the backend's
      private key. */
  function BackendUnwrap(rsa: RsaUtils.Rsa, backendPrivateKey: string): Unwrapper {
    (e: string) => RsaUtils.DecryptWithPrivateKey(rsa, e, backendPrivateKey)
  }

  /** `loadAESKey` as written: the binding comes from `utils/rsaUtils.js`, which does not export
      the name. */
  function LoadAESKeyAsWritten(rsa: RsaUtils.Rsa, backendPrivateKey: string, encryptedAesKey: Option<string>): (r: Result<string, string>)
    ensures !Present(encryptedAesKey) <==> r == Failure(MissingKeyMessage)
    ensures Present(encryptedAesKey) ==> r == Failure(Prefix + NotAFunction)
  {
    assert ImportedName !in RsaUtils.Exports;
    LoadAESKey(Import(RsaUtils.Exports, ImportedName, BackendUnwrap(rsa, backendPrivateKey)), encryptedAesKey)
  }

  /** As written, no call succeeds: an empty argument gets the bare message, any other the
      prefixed `TypeError`. */
  lemma AsWrittenAlwaysFails(rsa: RsaUtils.Rsa, backendPrivateKey: string, encryptedAesKey: Option<string>)
    ensures Present(encryptedAesKey) ==>
              LoadAESKeyAsWritten(rsa, backendPrivateKey, encryptedAesKey) == Failure(Prefix + NotAFunction)
    ensures LoadAESKeyAsWritten(rsa, backendPrivateKey, encryptedAesKey).Failure?
  {
    assert ImportedName !in RsaUtils.Exports;
  }

  /** The corrected loader: it calls `decryptWithPrivateKey`, which the module does export. */
  function LoadAESKeyFixed(rsa: RsaUtils.Rsa, backendPrivateKey: string, encryptedAesKey: Option<string>): (r: Result<string, string>)
    ensures !Present(encryptedAesKey) <==> r == Failure(MissingKeyMessage)
    ensures r.Failure? && Present(encryptedAesKey) ==> Text.StartsWith(r.error, Prefix)
    ensures Present(encryptedAesKey) && RsaUtils.DecryptWithPrivateKey(rsa, encryptedAesKey.value, backendPrivateKey).Failure? ==>
              r == Failure(Prefix + RsaUtils.DecryptWithPrivateKey(rsa, encryptedAesKey.value, backendPrivateKey).error)
    ensures Present(encryptedAesKey) && RsaUtils.DecryptWithPrivateKey(rsa, encryptedAesKey.value, backendPrivateKey) == Success("") ==>
              r == Failure(Prefix + NoKeyMessage)
    ensures r.Success? <==>
              && Present(encryptedAesKey)
              && RsaUtils.DecryptWithPrivateKey(rsa, encryptedAesKey.value, backendPrivateKey).Success?
              && RsaUtils.DecryptWithPrivateKey(rsa, encryptedAesKey.value, backendPrivateKey).value != ""
    ensures r.Success? ==> RsaUtils.DecryptWithPrivateKey(rsa, encryptedAesKey.value, backendPrivateKey) == Success(r.value)
  {
    assert "decryptWithPrivateKey" in RsaUtils.Exports;
    assert encryptedAesKey.Some? ==>
             BackendUnwrap(rsa, backendPrivateKey)(encryptedAesKey.value)
             == RsaUtils.DecryptWithPrivateKey(rsa, encryptedAesKey.value, backendPrivateKey);
    LoadAESKey(Import(RsaUtils.Exports, "decryptWithPrivateKey", BackendUnwrap(rsa, backendPrivateKey)), encryptedAesKey)
  }

  lemma FixedLoadsBlob(rsa: RsaUtils.Rsa, backendPrivateKey: string, blob: string, aesKey: string)
    requires blob != "" && aesKey != ""
    requires RsaUtils.DecryptWithPrivateKey(rsa, blob, backendPrivateKey) == Success(aesKey)
    ensures LoadAESKeyFixed(rsa, backendPrivateKey, Some(blob)) == Success(aesKey)
  {
    assert BackendUnwrap(rsa, backendPrivateKey)(blob) == Success(aesKey);
  }

  /** With the correction, a non-empty key wrapped for the backend's public key loads back
      unchanged. */
  lemma FixedLoadsWrappedKey(rsa: RsaUtils.Rsa, o: RsaUtils.KeyGenOptions, seed: nat, aesKey: string)
    requires RsaUtils.Sound(rsa)
    requires aesKey != ""
    requires |Utf8.Encode(aesKey)| <= RsaUtils.MaxMessage(o.modulusBits, RsaUtils.OaepSha1)
    ensures RsaUtils.EncryptWithPublicKey(rsa, aesKey, rsa.generate(o, seed).publicKey).Success?
    ensures LoadAESKeyFixed(rsa, rsa.generate(o, seed).privateKey,
                            Some(RsaUtils.EncryptWithPublicKey(rsa, aesKey, rsa.generate(o, seed).publicKey).value))
            == Success(aesKey)
  {
    var kp := rsa.generate(o, seed);
    RsaUtils.DecryptEncrypt(rsa, o, seed, aesKey);
    var m := Utf8.Encode(aesKey);
    var c := rsa.publicEncrypt(kp.publicKey, RsaUtils.OaepSha1, m).value;
    assert |c| > 0;
    var blob := RsaUtils.EncryptWithPublicKey(rsa, aesKey, kp.publicKey).value;
    FixedLoadsBlob(rsa, kp.privateKey, blob, aesKey);
  }
}
