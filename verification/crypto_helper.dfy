/** `helpers/cryptoHelper.js`: a fresh AES-256 key as hex text. */
module CryptoHelper {
  import opened Hex

  /** `generateAESKey()`, with `random` the 32 bytes `crypto.randomBytes(32)` returns. */
  function GenerateAESKey(random: Bytes): (key: string)
    requires |random| == 32
    ensures |key| == 64 && IsLowerHex(key)
    ensures Decode(key) == random && |Decode(key)| == 32
  {
    DecodeEncode(random);
    Encode(random)
  }

  /** Decoding a generated key and encoding it again gives the same text, so the key survives
      a trip through raw bytes unchanged. */
  lemma GeneratedKeyReencodes(random: Bytes)
    requires |random| == 32
    ensures Encode(Decode(GenerateAESKey(random))) == GenerateAESKey(random)
  {
    EncodeDecode(GenerateAESKey(random));
  }

  /** Every 64-digit lower-case hex string is a key the helper can produce. */
  lemma EveryHexKeyIsGenerated(key: string)
    requires |key| == 64 && IsLowerHex(key)
    ensures |Decode(key)| == 32 && GenerateAESKey(Decode(key)) == key
  {
    EncodeDecode(key);
  }
}
