/** `scripts/rotateKeys.js`: replace the backend key pair by generating a new one and writing
    the private and then the public PEM into the key directory. */
module RotateKeys {
  import opened Wrappers
  import Utf8
  import RsaUtils
  import KeyExchange
  import Values

  /** `generateKeyPairSync` with 2048-bit keys and a PKCS#1 private key. */
  const RotationOptions := RsaUtils.KeyGenOptions(2048, RsaUtils.Pkcs1)

  /** Where the run throws, if anywhere. A fault at a step the run does not reach has no effect
      (creating the directory is skipped when it exists). `PrivateWriteFails` and
      `PublicWriteFails` throw before the file is opened (permissions, say). `writeFileSync` opens
      with flag `'w'`, which empties the file, so a write that throws after the open
      (`PrivateWriteCut`, `PublicWriteCut`: a full disk, an I/O error) leaves only the first
      `written` characters of the new text. */
  datatype Fault =
    | NoFault
    | GenerationFails
    | MkdirFails
    | PrivateWriteFails
    | PrivateWriteCut(written: nat)
    | PublicWriteFails
    | PublicWriteCut(written: nat)

  /** The directory afterwards and the process exit status (`process.exit(1)` in the catch). */
  datatype Run = Run(dir: KeyExchange.KeyDir, exitCode: int)

  /** The steps of `rotateKeys()` up to the first fault; `seed` is the randomness of key
      generation. */
  function RotateKeys(rsa: RsaUtils.Rsa, dir: KeyExchange.KeyDir, seed: nat, fault: Fault): (r: Run)
    ensures r.exitCode == 0 <==> fault == NoFault || (fault == MkdirFails && dir.present)
    ensures r.exitCode != 0 ==> r.exitCode == 1
    ensures r.exitCode == 0 ==>
              r.dir == KeyExchange.KeyDir(true, Some(rsa.generate(RotationOptions, seed).privateKey),
                                          Some(rsa.generate(RotationOptions, seed).publicKey), dir.frontendPublic)
    ensures r.dir.frontendPublic == dir.frontendPublic
    ensures r.exitCode == 1 && !fault.PublicWriteCut? ==> r.dir.backendPublic == dir.backendPublic
    ensures fault == PublicWriteFails ==>
              r.dir.backendPrivate == Some(rsa.generate(RotationOptions, seed).privateKey) && r.dir.backendPublic == dir.backendPublic
    ensures fault.PublicWriteCut? ==>
              && r.dir.backendPrivate == Some(rsa.generate(RotationOptions, seed).privateKey)
              && r.dir.backendPublic == Some(KeyExchange.Cut(rsa.generate(RotationOptions, seed).publicKey, fault.written))
    ensures fault.PrivateWriteCut? ==>
              && r.dir.backendPrivate == Some(KeyExchange.Cut(rsa.generate(RotationOptions, seed).privateKey, fault.written))
              && r.dir.backendPublic == dir.backendPublic
    ensures fault in {GenerationFails, PrivateWriteFails} || (fault == MkdirFails && !dir.present) ==>
              r.dir.backendPrivate == dir.backendPrivate && r.dir.backendPublic == dir.backendPublic
    ensures KeyExchange.Valid(dir) ==> KeyExchange.Valid(r.dir)
  {
    if fault == GenerationFails then Run(dir, 1)
    else
      var kp := rsa.generate(RotationOptions, seed);
      if !dir.present && fault == MkdirFails then Run(dir, 1)
      else
        var made := dir.(present := true);
        if fault == PrivateWriteFails then Run(made, 1)
        else if fault.PrivateWriteCut? then Run(made.(backendPrivate := Some(KeyExchange.Cut(kp.privateKey, fault.written))), 1)
        else
          var half := made.(backendPrivate := Some(kp.privateKey));
          if fault == PublicWriteFails then Run(half, 1)
          else if fault.PublicWriteCut? then Run(half.(backendPublic := Some(KeyExchange.Cut(kp.publicKey, fault.written))), 1)
          else
            assert fault.NoFault? || fault.MkdirFails?;
            Run(half.(backendPublic := Some(kp.publicKey)), 0)
  }

  /** The stored files are a pair from one generation. */
  ghost predicate Matched(rsa: RsaUtils.Rsa, dir: KeyExchange.KeyDir, o: RsaUtils.KeyGenOptions, seed: nat) {
    && dir.backendPrivate == Some(rsa.generate(o, seed).privateKey)
    && dir.backendPublic == Some(rsa.generate(o, seed).publicKey)
  }

  /** After a rotation that runs through, an AES key wrapped for the stored public key unwraps
      with the stored private key. */
  lemma RotatedPairMatches(rsa: RsaUtils.Rsa, dir: KeyExchange.KeyDir, seed: nat, aesKey: string)
    requires RsaUtils.Sound(rsa)
    requires |Utf8.Encode(aesKey)| <= RsaUtils.MaxMessage(2048, RsaUtils.OaepSha1)
    ensures Matched(rsa, RotateKeys(rsa, dir, seed, NoFault).dir, RotationOptions, seed)
    ensures RsaUtils.EncryptWithPublicKey(rsa, aesKey, RotateKeys(rsa, dir, seed, NoFault).dir.backendPublic.value).Success?
    ensures RsaUtils.DecryptWithPrivateKey(
              rsa,
              RsaUtils.EncryptWithPublicKey(rsa, aesKey, RotateKeys(rsa, dir, seed, NoFault).dir.backendPublic.value).value,
              RotateKeys(rsa, dir, seed, NoFault).dir.backendPrivate.value) == Success(aesKey)
  {
    RsaUtils.DecryptEncrypt(rsa, RotationOptions, seed, aesKey);
  }

  /** A key wrapped for the public key before the rotation does not unwrap with the private
      key after it. */
  lemma OldWrapFailsAfterRotation(rsa: RsaUtils.Rsa, dir: KeyExchange.KeyDir, o: RsaUtils.KeyGenOptions, oldSeed: nat,
                                  seed: nat, aesKey: string)
    requires RsaUtils.Sound(rsa) && oldSeed != seed
    requires Matched(rsa, dir, o, oldSeed)
    requires RsaUtils.EncryptWithPublicKey(rsa, aesKey, dir.backendPublic.value).Success?
    ensures RsaUtils.DecryptWithPrivateKey(
              rsa,
              RsaUtils.EncryptWithPublicKey(rsa, aesKey, dir.backendPublic.value).value,
              RotateKeys(rsa, dir, seed, NoFault).dir.backendPrivate.value).Failure?
  {
    RsaUtils.OtherKeyPairFails(rsa, o, oldSeed, RotationOptions, seed, aesKey);
  }

  /** As written, a failure between the two writes leaves the new private key beside the old
      public key: whatever is wrapped for the stored public key no longer unwraps. */
  lemma TornRotation(rsa: RsaUtils.Rsa, dir: KeyExchange.KeyDir, o: RsaUtils.KeyGenOptions, oldSeed: nat,
                     seed: nat, aesKey: string)
    requires RsaUtils.Sound(rsa) && oldSeed != seed
    requires Matched(rsa, dir, o, oldSeed)
    requires RsaUtils.EncryptWithPublicKey(rsa, aesKey, dir.backendPublic.value).Success?
    ensures RotateKeys(rsa, dir, seed, PublicWriteFails).exitCode == 1
    ensures RotateKeys(rsa, dir, seed, PublicWriteFails).dir.backendPublic == dir.backendPublic
    ensures RsaUtils.DecryptWithPrivateKey(
              rsa,
              RsaUtils.EncryptWithPublicKey(rsa, aesKey, RotateKeys(rsa, dir, seed, PublicWriteFails).dir.backendPublic.value).value,
              RotateKeys(rsa, dir, seed, PublicWriteFails).dir.backendPrivate.value).Failure?
  {
    RsaUtils.OtherKeyPairFails(rsa, o, oldSeed, RotationOptions, seed, aesKey);
  }

  /** A private-key write that fails after the open has already emptied the old private key:
      the run fails, and the old key is gone even though the public key was never touched. */
  lemma CutWriteLosesOldPrivateKey(rsa: RsaUtils.Rsa, dir: KeyExchange.KeyDir, seed: nat)
    requires dir.backendPrivate.Some? && dir.backendPrivate.value != ""
    ensures RotateKeys(rsa, dir, seed, PrivateWriteCut(0)).exitCode == 1
    ensures RotateKeys(rsa, dir, seed, PrivateWriteCut(0)).dir.backendPrivate == Some("")
    ensures RotateKeys(rsa, dir, seed, PrivateWriteCut(0)).dir.backendPublic == dir.backendPublic
  {
  }

  /** Rotation that commits both files or neither: on any fault the directory keeps its pair. */
  function RotateKeysAtomic(rsa: RsaUtils.Rsa, dir: KeyExchange.KeyDir, seed: nat, fault: Fault): (r: Run)
    ensures r.exitCode == 0 <==> fault == NoFault || (fault == MkdirFails && dir.present)
    ensures r.exitCode == 0 ==> r == RotateKeys(rsa, dir, seed, fault)
    ensures r.exitCode == 1 ==>
              r.dir.backendPrivate == dir.backendPrivate && r.dir.backendPublic == dir.backendPublic
    ensures r.dir.frontendPublic == dir.frontendPublic
  {
    var r := RotateKeys(rsa, dir, seed, fault);
    if r.exitCode == 0 then r
    else Run(r.dir.(backendPrivate := dir.backendPrivate, backendPublic := dir.backendPublic), 1)
  }

  /** With the atomic rotation, the stored pair stays usable whatever the fault: a key wrapped
      for the stored public key unwraps with the stored private key. */
  lemma AtomicKeepsPairUsable(rsa: RsaUtils.Rsa, dir: KeyExchange.KeyDir, o: RsaUtils.KeyGenOptions, oldSeed: nat,
                              seed: nat, fault: Fault, aesKey: string)
    requires RsaUtils.Sound(rsa)
    requires Matched(rsa, dir, o, oldSeed)
    requires |Utf8.Encode(aesKey)| <= RsaUtils.MaxMessage(o.modulusBits, RsaUtils.OaepSha1)
    requires |Utf8.Encode(aesKey)| <= RsaUtils.MaxMessage(2048, RsaUtils.OaepSha1)
    ensures RotateKeysAtomic(rsa, dir, seed, fault).dir.backendPublic.Some?
    ensures RotateKeysAtomic(rsa, dir, seed, fault).dir.backendPrivate.Some?
    ensures RsaUtils.EncryptWithPublicKey(rsa, aesKey, RotateKeysAtomic(rsa, dir, seed, fault).dir.backendPublic.value).Success?
    ensures RsaUtils.DecryptWithPrivateKey(
              rsa,
              RsaUtils.EncryptWithPublicKey(rsa, aesKey, RotateKeysAtomic(rsa, dir, seed, fault).dir.backendPublic.value).value,
              RotateKeysAtomic(rsa, dir, seed, fault).dir.backendPrivate.value) == Success(aesKey)
  {
    if RotateKeysAtomic(rsa, dir, seed, fault).exitCode == 0 {
      RsaUtils.DecryptEncrypt(rsa, RotationOptions, seed, aesKey);
    } else {
      RsaUtils.DecryptEncrypt(rsa, o, oldSeed, aesKey);
    }
  }

  /** The handed-out backend key after a rotation is the new public key. */
  lemma RotationThenGet(rsa: RsaUtils.Rsa, dir: KeyExchange.KeyDir, seed: nat)
    ensures KeyExchange.GetBackendPublicKey(RotateKeys(rsa, dir, seed, NoFault).dir, false).json
            == map["publicKey" := Values.Str(rsa.generate(RotationOptions, seed).publicKey)]
  {
  }
}
