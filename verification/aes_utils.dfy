/** `utils/aesUtils.js`: AES-256-CBC over strings, serialised as `hex(iv) ":" hex(ciphertext)`. */
module AesUtils {
  import opened Wrappers
  import opened Hex
  import Utf8
  import Text

  const KeyBytes: nat := 32
  const IvBytes: nat := 16

  type Iv = b: Bytes | |b| == IvBytes witness [0, 0, 0, 0, 0, 0, 0, 0, 0, 0, 0, 0, 0, 0, 0, 0]

  /** The block cipher, left uninterpreted: `encrypt(key, iv, plaintext)` and
      `decrypt(key, iv, ciphertext)`, the latter failing on a bad padding. */
  datatype Aes = Aes(encrypt: (Bytes, Bytes, Bytes) -> Bytes, decrypt: (Bytes, Bytes, Bytes) -> Option<Bytes>)

  /** What the model assumes of AES-256-CBC: with a 32-byte key and a 16-byte IV, decryption
      inverts encryption. */
  ghost predicate Sound(aes: Aes) {
    forall key: Bytes, iv: Bytes, plain: Bytes | |key| == KeyBytes && |iv| == IvBytes ::
      aes.decrypt(key, iv, aes.encrypt(key, iv, plain)) == Some(plain)
  }

  /** The assumption is consistent: a cipher that satisfies it exists. */
  lemma SoundIsSatisfiable()
    ensures Sound(Aes((k: Bytes, iv: Bytes, p: Bytes) => p, (k: Bytes, iv: Bytes, c: Bytes) => Some(c)))
  {
  }

  /** The exceptions Node raises on the way; the middlewares only distinguish success from failure. */
  datatype CryptoError =
    | InvalidIvLength      // createDecipheriv: IV is not 16 bytes
    | InvalidKeyLength     // createCipheriv/createDecipheriv: key is not 32 bytes
    | MissingCiphertext    // update(undefined): no piece after the ':'
    | OddHexLength         // update(s, 'hex') with an odd-length s
    | BadDecrypt           // final(): wrong key, IV or padding
    | NotAString           // data of a type the cipher does not accept

  /** The serialised shape `encryptAES` produces: 32 hex digits of IV, one colon, an even number
      of hex digits of ciphertext. */
  predicate IsEnvelope(s: string) {
    && |s| >= 2 * IvBytes + 1
    && s[2 * IvBytes] == ':'
    && IsLowerHex(s[..2 * IvBytes])
    && IsLowerHex(s[2 * IvBytes + 1..])
    && |s[2 * IvBytes + 1..]| % 2 == 0
  }

  function Serialize(iv: Iv, ciphertext: Bytes): (s: string)
    ensures IsEnvelope(s)
    ensures Text.Count(s, ':') == 1
    ensures Text.Split(s, ':') == [Hex.Encode(iv), Hex.Encode(ciphertext)]
  {
    var s := Hex.Encode(iv) + ":" + Hex.Encode(ciphertext);
    assert s[..2 * IvBytes] == Hex.Encode(iv);
    assert s[2 * IvBytes + 1..] == Hex.Encode(ciphertext);
    Text.SplitAtFirst(Hex.Encode(iv), ':', Hex.Encode(ciphertext));
    Text.SplitNoSeparator(Hex.Encode(ciphertext), ':');
    Text.SplitJoin(s, ':');
    s
  }

  /** `encryptAES(data, key)` with `iv` the 16 random bytes it draws. The key is hex text and
      must decode to 32 bytes; the result is an envelope whose first 32 characters are the IV. */
  function EncryptAES(aes: Aes, data: string, key: string, iv: Iv): (r: Result<string, CryptoError>)
    ensures r.Success? <==> |Hex.Decode(key)| == KeyBytes
    ensures r.Success? ==> IsEnvelope(r.value) && Text.Count(r.value, ':') == 1
    ensures r.Success? ==> Hex.Decode(r.value[..2 * IvBytes]) == iv
  {
    var k := Hex.Decode(key);
    if |k| != KeyBytes then Failure(InvalidKeyLength)
    else
      var s := Serialize(iv, aes.encrypt(k, iv, Utf8.Encode(data)));
      assert s[..2 * IvBytes] == Hex.Encode(iv);
      Hex.DecodeEncode(iv);
      Success(s)
  }

  /** `decryptAES(data, key)`: splits on ':' and uses the first two pieces only. */
  function DecryptAES(aes: Aes, data: string, key: string): (r: Result<string, CryptoError>)
    ensures ':' !in data ==> r.Failure?
    ensures r.Success? ==> |Hex.Decode(key)| == KeyBytes
  {
    var parts := Text.Split(data, ':');
    var iv := Hex.Decode(parts[0]);
    var k := Hex.Decode(key);
    if |iv| != IvBytes then Failure(InvalidIvLength)
    else if |k| != KeyBytes then Failure(InvalidKeyLength)
    else if ':' !in data then
      Text.SplitNoSeparator(data, ':');
      Failure(MissingCiphertext)
    else if |parts| < 2 then Failure(MissingCiphertext)
    else if |parts[1]| % 2 == 1 then Failure(OddHexLength)
    else
      match aes.decrypt(k, iv, Hex.Decode(parts[1]))
      case None => Failure(BadDecrypt)
      case Some(plain) => Success(Utf8.Decode(plain))
  }

  /** Round trip: `decryptAES(encryptAES(d, k), k) == d` for every string and every key that
      decodes to 32 bytes. */
  lemma DecryptEncrypt(aes: Aes, data: string, key: string, iv: Iv)
    requires Sound(aes)
    requires |Hex.Decode(key)| == KeyBytes
    ensures EncryptAES(aes, data, key, iv).Success?
    ensures DecryptAES(aes, EncryptAES(aes, data, key, iv).value, key) == Success(data)
  {
    var k := Hex.Decode(key);
    var ct := aes.encrypt(k, iv, Utf8.Encode(data));
    var s := EncryptAES(aes, data, key, iv).value;
    assert Text.Split(s, ':') == [Hex.Encode(iv), Hex.Encode(ct)];
    Hex.DecodeEncode(iv);
    Hex.DecodeEncode(ct);
    Utf8.DecodeEncode(data);
  }

  /** Only the first two pieces matter: anything after a second ':' is ignored. */
  lemma ExtraPiecesIgnored(aes: Aes, ivHex: string, ctHex: string, extra: string, key: string)
    requires ':' !in ivHex && ':' !in ctHex
    ensures DecryptAES(aes, ivHex + ":" + ctHex + ":" + extra, key) == DecryptAES(aes, ivHex + ":" + ctHex, key)
  {
    Text.SplitAtFirst(ivHex, ':', ctHex + ":" + extra);
    assert ivHex + ":" + ctHex + ":" + extra == ivHex + [':'] + (ctHex + ":" + extra);
    Text.SplitAtFirst(ctHex, ':', extra);
    assert ctHex + ":" + extra == ctHex + [':'] + extra;
    Text.SplitAtFirst(ivHex, ':', ctHex);
    assert ivHex + ":" + ctHex == ivHex + [':'] + ctHex;
    Text.SplitNoSeparator(ctHex, ':');
  }

  /** Two encryptions under different IVs never produce the same text, since the text starts
      with the hex of the IV and hex is injective. */
  lemma DistinctIvsDistinctOutputs(aes: Aes, d1: string, d2: string, key: string, iv1: Iv, iv2: Iv)
    requires iv1 != iv2
    requires |Hex.Decode(key)| == KeyBytes
    ensures EncryptAES(aes, d1, key, iv1).value != EncryptAES(aes, d2, key, iv2).value
  {
  }

  /** A 64-digit hex key is exactly what `Buffer.from(key, 'hex')` turns into an AES-256 key. */
  lemma HexKeyLength(key: string)
    requires IsLowerHex(key) && |key| == 2 * KeyBytes
    ensures |Hex.Decode(key)| == KeyBytes
  {
    Hex.EncodeDecode(key);
  }
}
