/** RSA key pairs and key wrapping: the primitive as the model assumes it, and
    `utils/rsaUtils.js` on top of it. */
module RsaUtils {
  import opened Wrappers
  import opened Hex
  import Utf8
  import Base64
  import Text

  /** How `generateKeyPairSync` writes the private key: `type: 'pkcs1'` or `type: 'pkcs8'`
      (the public key is always SPKI PEM). */
  datatype PrivateEncoding = Pkcs1 | Pkcs8

  datatype KeyGenOptions = KeyGenOptions(modulusBits: nat, privateEncoding: PrivateEncoding)

  /** The two PEM texts `generateKeyPairSync` returns. */
  datatype KeyPair = KeyPair(publicKey: string, privateKey: string)

  /** The padding of `publicEncrypt`/`privateDecrypt`. Node's default when no options are given
      is OAEP with SHA-1; the client scripts ask for OAEP with SHA-256. */
  datatype Padding = OaepSha1 | OaepSha256

  /** Length of the OAEP hash, in bytes. */
  function HashBytes(pad: Padding): nat {
    match pad
    case OaepSha1 => 20
    case OaepSha256 => 32
  }

  /** The longest message OAEP can wrap under a key of `bits` bits: k - 2 hLen - 2 bytes
      (section 7.1.1 of RFC 8017). */
  function MaxMessage(bits: nat, pad: Padding): int {
    bits / 8 - 2 * HashBytes(pad) - 2
  }

  /** RSA, left uninterpreted: key generation from a seed (the randomness), and OAEP
      encryption/decryption, each of which may throw with a message. */
  datatype Rsa = Rsa(
    generate: (KeyGenOptions, nat) -> KeyPair,
    publicEncrypt: (string, Padding, Bytes) -> Result<Bytes, string>,
    privateDecrypt: (string, Padding, Bytes) -> Result<Bytes, string>)

  const PublicMarker := "BEGIN PUBLIC KEY"
  const Pkcs8Marker := "BEGIN PRIVATE KEY"
  const Pkcs1Marker := "BEGIN RSA PRIVATE KEY"

  function PrivateMarker(e: PrivateEncoding): string {
    match e
    case Pkcs1 => Pkcs1Marker
    case Pkcs8 => Pkcs8Marker
  }

  /** Generated PEMs carry the armour line of their encoding. */
  ghost predicate PemMarkers(rsa: Rsa) {
    forall o: KeyGenOptions, seed: nat ::
      && Text.Contains(rsa.generate(o, seed).publicKey, PublicMarker)
      && Text.Contains(rsa.generate(o, seed).privateKey, PrivateMarker(o.privateEncoding))
  }

  /** A message no longer than the OAEP bound can be wrapped under a generated public key. */
  ghost predicate WrapsShortMessages(rsa: Rsa) {
    forall o: KeyGenOptions, seed: nat, pad: Padding, m: Bytes | |m| <= MaxMessage(o.modulusBits, pad) ::
      rsa.publicEncrypt(rsa.generate(o, seed).publicKey, pad, m).Success?
  }

  /** The ciphertext is not empty, and the matching private key with the same padding unwraps it. */
  ghost predicate UnwrapsOwn(rsa: Rsa) {
    forall o: KeyGenOptions, seed: nat, pad: Padding, m: Bytes, c: Bytes
      | rsa.publicEncrypt(rsa.generate(o, seed).publicKey, pad, m) == Success(c) ::
      && rsa.privateDecrypt(rsa.generate(o, seed).privateKey, pad, c) == Success(m)
      && |c| > 0
  }

  /** A private key generated from other randomness, or a different padding, fails. */
  ghost predicate RejectsOthers(rsa: Rsa) {
    forall o1: KeyGenOptions, s1: nat, o2: KeyGenOptions, s2: nat, pad1: Padding, pad2: Padding, m: Bytes, c: Bytes
      | rsa.publicEncrypt(rsa.generate(o1, s1).publicKey, pad1, m) == Success(c) && (s1 != s2 || pad1 != pad2) ::
      rsa.privateDecrypt(rsa.generate(o2, s2).privateKey, pad2, c).Failure?
  }

  /** What the model assumes of RSA-OAEP. */
  ghost predicate Sound(rsa: Rsa) {
    PemMarkers(rsa) && WrapsShortMessages(rsa) && UnwrapsOwn(rsa) && RejectsOthers(rsa)
  }

  // A model of the assumption, to show it is consistent: keys carry their seed in unary, and
  // a ciphertext carries the padding and the seed of the key it was made for.

  function Unary(n: nat): (s: string)
    ensures |s| == n && Text.Count(s, '#') == n
  {
    if n == 0 then "" else "#" + Unary(n - 1)
  }

  function Zeros(n: nat): (bs: Bytes)
    ensures |bs| == n && forall i :: 0 <= i < n ==> bs[i] == 0
  {
    if n == 0 then [] else [0] + Zeros(n - 1)
  }

  function PadTag(pad: Padding): byte {
    match pad
    case OaepSha1 => 1
    case OaepSha256 => 2
  }

  lemma {:induction false} CountAppend(a: string, b: string, c: char)
    ensures Text.Count(a + b, c) == Text.Count(a, c) + Text.Count(b, c)
  {
    if a == "" {
      assert a + b == b;
    } else {
      assert (a + b)[1..] == a[1..] + b;
      CountAppend(a[1..], b, c);
    }
  }

  lemma {:induction false} CountAbsent(s: string, c: char)
    requires c !in s
    ensures Text.Count(s, c) == 0
  {
    if s != "" {
      CountAbsent(s[1..], c);
    }
  }

  function ToyGenerate(o: KeyGenOptions, seed: nat): KeyPair {
    KeyPair(PublicMarker + Unary(seed), PrivateMarker(o.privateEncoding) + Unary(seed))
  }

  function ToyHeader(key: string, pad: Padding): Bytes {
    [PadTag(pad)] + Zeros(Text.Count(key, '#')) + [1]
  }

  function ToyEncrypt(key: string, pad: Padding, m: Bytes): Result<Bytes, string> {
    Success(ToyHeader(key, pad) + m)
  }

  function ToyDecrypt(key: string, pad: Padding, c: Bytes): Result<Bytes, string> {
    var h := ToyHeader(key, pad);
    if |h| <= |c| && c[..|h|] == h then Success(c[|h|..]) else Failure("oaep decoding error")
  }

  lemma MarkedSeed(marker: string, seed: nat)
    requires '#' !in marker
    ensures Text.Count(marker + Unary(seed), '#') == seed
  {
    CountAppend(marker, Unary(seed), '#');
    CountAbsent(marker, '#');
  }

  lemma ToySeed(o: KeyGenOptions, seed: nat)
    ensures Text.Count(ToyGenerate(o, seed).publicKey, '#') == seed
    ensures Text.Count(ToyGenerate(o, seed).privateKey, '#') == seed
  {
    MarkedSeed(PublicMarker, seed);
    MarkedSeed(PrivateMarker(o.privateEncoding), seed);
  }

  /** A header for one seed and padding is never a prefix of a ciphertext made for another. */
  lemma ToyHeadersDiffer(s1: nat, s2: nat, pad1: Padding, pad2: Padding, m: Bytes, c: Bytes)
    requires s1 != s2 || pad1 != pad2
    requires c == [PadTag(pad1)] + Zeros(s1) + [1] + m
    requires s2 + 2 <= |c|
    ensures c[..s2 + 2] != [PadTag(pad2)] + Zeros(s2) + [1]
  {
    var h := [PadTag(pad2)] + Zeros(s2) + [1];
    if pad1 != pad2 {
      assert c[..s2 + 2][0] != h[0];
    } else if s2 < s1 {
      assert c[..s2 + 2][s2 + 1] != h[s2 + 1];
    } else {
      assert c[..s2 + 2][s1 + 1] != h[s1 + 1];
    }
  }

  const Toy := Rsa(ToyGenerate, ToyEncrypt, ToyDecrypt)

  lemma ToyPemMarkers()
    ensures PemMarkers(Toy)
  {
    forall o: KeyGenOptions, seed: nat
      ensures Text.Contains(Toy.generate(o, seed).publicKey, PublicMarker)
      ensures Text.Contains(Toy.generate(o, seed).privateKey, PrivateMarker(o.privateEncoding))
    {
      Text.ContainsInMiddle("", PublicMarker, Unary(seed));
      assert "" + PublicMarker + Unary(seed) == PublicMarker + Unary(seed);
      Text.ContainsInMiddle("", PrivateMarker(o.privateEncoding), Unary(seed));
      assert "" + PrivateMarker(o.privateEncoding) + Unary(seed) == PrivateMarker(o.privateEncoding) + Unary(seed);
    }
  }

  /** A toy ciphertext opens with any key carrying the same seed and the same padding. */
  lemma ToyOpens(pub: string, priv: string, pad: Padding, m: Bytes)
    requires Text.Count(pub, '#') == Text.Count(priv, '#')
    ensures ToyDecrypt(priv, pad, ToyHeader(pub, pad) + m) == Success(m)
    ensures |ToyHeader(pub, pad) + m| > 0
  {
    var h := ToyHeader(priv, pad);
    assert h == ToyHeader(pub, pad);
    var c := h + m;
    assert c[..|h|] == h && c[|h|..] == m;
  }

  lemma ToyUnwrapsOwn()
    ensures UnwrapsOwn(Toy)
  {
    forall o: KeyGenOptions, seed: nat, pad: Padding, m: Bytes, c: Bytes
      | Toy.publicEncrypt(Toy.generate(o, seed).publicKey, pad, m) == Success(c)
      ensures Toy.privateDecrypt(Toy.generate(o, seed).privateKey, pad, c) == Success(m)
    {
      ToyUnwrapsOne(o, seed, pad, m, c);
    }
    forall o: KeyGenOptions, seed: nat, pad: Padding, m: Bytes, c: Bytes
      | Toy.publicEncrypt(Toy.generate(o, seed).publicKey, pad, m) == Success(c)
      ensures |c| > 0
    {
      ToyUnwrapsOne(o, seed, pad, m, c);
    }
  }

  lemma ToyUnwrapsOne(o: KeyGenOptions, seed: nat, pad: Padding, m: Bytes, c: Bytes)
    requires Toy.publicEncrypt(Toy.generate(o, seed).publicKey, pad, m) == Success(c)
    ensures Toy.privateDecrypt(Toy.generate(o, seed).privateKey, pad, c) == Success(m)
    ensures |c| > 0
  {
    ToyOwnPair(o, seed, pad, m);
  }

  /** A toy ciphertext opens with the private key generated alongside its public key. */
  lemma ToyOwnPair(o: KeyGenOptions, seed: nat, pad: Padding, m: Bytes)
    ensures ToyDecrypt(ToyGenerate(o, seed).privateKey, pad, ToyHeader(ToyGenerate(o, seed).publicKey, pad) + m) == Success(m)
    ensures |ToyHeader(ToyGenerate(o, seed).publicKey, pad) + m| > 0
  {
    ToySeed(o, seed);
    ToyOpens(ToyGenerate(o, seed).publicKey, ToyGenerate(o, seed).privateKey, pad, m);
  }

  lemma ToyRejectsOthers()
    ensures RejectsOthers(Toy)
  {
    forall o1: KeyGenOptions, s1: nat, o2: KeyGenOptions, s2: nat, pad1: Padding, pad2: Padding, m: Bytes, c: Bytes
      | Toy.publicEncrypt(Toy.generate(o1, s1).publicKey, pad1, m) == Success(c) && (s1 != s2 || pad1 != pad2)
      ensures Toy.privateDecrypt(Toy.generate(o2, s2).privateKey, pad2, c).Failure?
    {
      ToySeed(o1, s1);
      ToySeed(o2, s2);
      assert c == [PadTag(pad1)] + Zeros(s1) + [1] + m;
      if s2 + 2 <= |c| {
        ToyHeadersDiffer(s1, s2, pad1, pad2, m, c);
      }
    }
  }

  /** The assumption is consistent: the toy model above satisfies it. */
  lemma SoundIsSatisfiable()
    ensures Sound(Toy)
  {
    ToyPemMarkers();
    ToyUnwrapsOwn();
    ToyRejectsOthers();
  }

  /** `generateRSAKeyPair()`: 2048-bit modulus, SPKI public key, PKCS#8 private key, both PEM. */
  const BackendKeyOptions := KeyGenOptions(2048, Pkcs8)

  function GenerateRSAKeyPair(rsa: Rsa, seed: nat): (kp: KeyPair)
    ensures Sound(rsa) ==> Text.Contains(kp.publicKey, PublicMarker) && Text.Contains(kp.privateKey, Pkcs8Marker)
    ensures Sound(rsa) ==>
              forall pad: Padding, m: Bytes | |m| <= MaxMessage(2048, pad) :: rsa.publicEncrypt(kp.publicKey, pad, m).Success?
    ensures Sound(rsa) ==>
              forall pad: Padding, m: Bytes, c: Bytes | rsa.publicEncrypt(kp.publicKey, pad, m) == Success(c) ::
                rsa.privateDecrypt(kp.privateKey, pad, c) == Success(m)
  {
    rsa.generate(BackendKeyOptions, seed)
  }

  /** `encryptWithPublicKey(aesKey, publicKey)`: the UTF-8 bytes of the key string, wrapped with
      the default padding, as base64. */
  function EncryptWithPublicKey(rsa: Rsa, aesKey: string, publicKey: string): (r: Result<string, string>)
    ensures r.Success? <==> rsa.publicEncrypt(publicKey, OaepSha1, Utf8.Encode(aesKey)).Success?
    ensures r.Success? ==> |r.value| % 4 == 0
    ensures r.Success? ==> Base64.Decode(r.value) == rsa.publicEncrypt(publicKey, OaepSha1, Utf8.Encode(aesKey)).value
    ensures r.Success? && |rsa.publicEncrypt(publicKey, OaepSha1, Utf8.Encode(aesKey)).value| > 0 ==> r.value != ""
  {
    match rsa.publicEncrypt(publicKey, OaepSha1, Utf8.Encode(aesKey))
    case Failure(e) => Failure(e)
    case Success(c) =>
      Base64.DecodeEncode(c);
      Success(Base64.Encode(c))
  }

  /** `decryptWithPrivateKey(encryptedKey, privateKey)`: base64-decodes, unwraps with the default
      padding and reads the bytes back as UTF-8. */
  function DecryptWithPrivateKey(rsa: Rsa, encryptedKey: string, privateKey: string): (r: Result<string, string>)
    ensures r.Success? <==> rsa.privateDecrypt(privateKey, OaepSha1, Base64.Decode(encryptedKey)).Success?
    ensures r.Success? ==> |r.value| <= |rsa.privateDecrypt(privateKey, OaepSha1, Base64.Decode(encryptedKey)).value|
  {
    match rsa.privateDecrypt(privateKey, OaepSha1, Base64.Decode(encryptedKey))
    case Failure(e) => Failure(e)
    case Success(p) => Success(Utf8.Decode(p))
  }

  /** The names `utils/rsaUtils.js` exports. */
  const Exports: set<string> := {"generateRSAKeyPair", "encryptWithPublicKey", "decryptWithPrivateKey"}

  /** The module exports its three functions and nothing else: in particular no
      `decryptWithBackendPrvKey`. */
  lemma ExportsOnlyDefined()
    ensures |Exports| == 3
    ensures "decryptWithPrivateKey" in Exports && "decryptWithBackendPrvKey" !in Exports
  {
  }

  /** Round trip: a string short enough for OAEP/SHA-1, wrapped for a generated public key,
      unwraps to itself with the matching private key. */
  lemma DecryptEncrypt(rsa: Rsa, o: KeyGenOptions, seed: nat, aesKey: string)
    requires Sound(rsa)
    requires |Utf8.Encode(aesKey)| <= MaxMessage(o.modulusBits, OaepSha1)
    ensures EncryptWithPublicKey(rsa, aesKey, rsa.generate(o, seed).publicKey).Success?
    ensures DecryptWithPrivateKey(rsa, EncryptWithPublicKey(rsa, aesKey, rsa.generate(o, seed).publicKey).value,
                                  rsa.generate(o, seed).privateKey) == Success(aesKey)
  {
    var kp := rsa.generate(o, seed);
    var m := Utf8.Encode(aesKey);
    assert rsa.publicEncrypt(kp.publicKey, OaepSha1, m).Success?;
    var c := rsa.publicEncrypt(kp.publicKey, OaepSha1, m).value;
    assert rsa.privateDecrypt(kp.privateKey, OaepSha1, c) == Success(m);
    Utf8.DecodeEncode(aesKey);
  }

  /** An AES key as the system handles it, 64 hex characters, fits the OAEP bound of a
      2048-bit key under either hash (64 <= 190 <= 214 bytes). */
  lemma HexKeyFits(aesKey: string, pad: Padding)
    requires IsLowerHex(aesKey) && |aesKey| == 64
    ensures |Utf8.Encode(aesKey)| == 64 <= MaxMessage(2048, pad)
  {
    Utf8.EncodeAscii(aesKey);
  }

  /** A blob wrapped with a padding other than the default does not unwrap here, whatever the
      key pair: the schemes must match. */
  lemma PaddingMismatchFails(rsa: Rsa, o: KeyGenOptions, seed: nat, o2: KeyGenOptions, seed2: nat, m: Bytes, blob: Bytes)
    requires Sound(rsa)
    requires rsa.publicEncrypt(rsa.generate(o, seed).publicKey, OaepSha256, m) == Success(blob)
    ensures DecryptWithPrivateKey(rsa, Base64.Encode(blob), rsa.generate(o2, seed2).privateKey).Failure?
  {
    Base64.DecodeEncode(blob);
  }

  /** A blob wrapped for one key pair does not unwrap with the private key of a pair generated
      from other randomness. */
  lemma OtherKeyPairFails(rsa: Rsa, o1: KeyGenOptions, s1: nat, o2: KeyGenOptions, s2: nat, aesKey: string)
    requires Sound(rsa)
    requires s1 != s2
    requires EncryptWithPublicKey(rsa, aesKey, rsa.generate(o1, s1).publicKey).Success?
    ensures DecryptWithPrivateKey(rsa, EncryptWithPublicKey(rsa, aesKey, rsa.generate(o1, s1).publicKey).value,
                                  rsa.generate(o2, s2).privateKey).Failure?
  {
  }
}
