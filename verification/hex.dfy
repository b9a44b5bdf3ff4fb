/** Bytes and Node's `hex` encoding (`Buffer#toString('hex')`, `Buffer.from(s, 'hex')`). */
module Hex {
  import opened Wrappers

  type byte = x: int | 0 <= x < 256
  type Bytes = seq<byte>

  predicate IsLowerHexDigit(c: char) {
    '0' <= c <= '9' || 'a' <= c <= 'f'
  }

  /** A string made only of the digits `Encode` emits. */
  predicate IsLowerHex(s: string) {
    forall i :: 0 <= i < |s| ==> IsLowerHexDigit(s[i])
  }

  /** The lower-case digit for a nibble. */
  function DigitChar(n: int): (c: char)
    requires 0 <= n < 16
    ensures IsLowerHexDigit(c)
    ensures DigitValue(c) == Some(n)
  {
    if n < 10 then ('0' as int + n) as char else ('a' as int + n - 10) as char
  }

  /** Value of one hex digit; Node accepts both letter cases when decoding. */
  function DigitValue(c: char): (v: Option<nat>)
    ensures v.Some? ==> 0 <= v.value < 16
    ensures v.None? ==> !IsLowerHexDigit(c)
  {
    if '0' <= c <= '9' then Some(c as int - '0' as int)
    else if 'a' <= c <= 'f' then Some(c as int - 'a' as int + 10)
    else if 'A' <= c <= 'F' then Some(c as int - 'A' as int + 10)
    else None
  }

  lemma DigitRoundTrip(c: char)
    requires IsLowerHexDigit(c)
    ensures DigitValue(c).Some? && DigitChar(DigitValue(c).value) == c
  {
  }

  function EncodeByte(b: byte): (s: string)
    ensures |s| == 2 && IsLowerHex(s)
  {
    [DigitChar(b / 16), DigitChar(b % 16)]
  }

  /** `Buffer#toString('hex')`: two lower-case digits per byte, high nibble first. */
  function Encode(bs: Bytes): (s: string)
    ensures |s| == 2 * |bs|
    ensures IsLowerHex(s)
    ensures ':' !in s
  {
    if bs == [] then "" else EncodeByte(bs[0]) + Encode(bs[1..])
  }

  /** `Buffer.from(s, 'hex')`: decodes digit pairs from the left and silently stops at the
      first pair that is not two hex digits; an odd trailing digit is dropped. */
  function Decode(s: string): (bs: Bytes)
    ensures |bs| <= |s| / 2
  {
    if |s| < 2 then []
    else
      match (DigitValue(s[0]), DigitValue(s[1]))
      case (Some(hi), Some(lo)) => [hi * 16 + lo] + Decode(s[2..])
      case _ => []
  }

  lemma EncodeAppend(a: Bytes, b: Bytes)
    ensures Encode(a + b) == Encode(a) + Encode(b)
  {
    if a != [] {
      assert (a + b)[0] == a[0];
      assert (a + b)[1..] == a[1..] + b;
      EncodeAppend(a[1..], b);
      calc {
        Encode(a + b);
        EncodeByte(a[0]) + Encode(a[1..] + b);
        EncodeByte(a[0]) + (Encode(a[1..]) + Encode(b));
        (EncodeByte(a[0]) + Encode(a[1..])) + Encode(b);
      }
    } else {
      assert a + b == b;
    }
  }

  /** Decoding reads an encoded byte back off the front of any text. */
  lemma DecodeByteStep(b: byte, tail: string)
    ensures Decode(EncodeByte(b) + tail) == [b] + Decode(tail)
  {
    var s := EncodeByte(b) + tail;
    assert s[0] == DigitChar(b / 16) && s[1] == DigitChar(b % 16);
    assert s[2..] == tail;
    assert b / 16 * 16 + b % 16 == b;
  }

  /** Decoding undoes encoding, whatever follows the encoded text. */
  lemma {:induction false} DecodeEncodePrefix(bs: Bytes, rest: string)
    requires |rest| < 2 || DigitValue(rest[0]).None? || DigitValue(rest[1]).None?
    ensures Decode(Encode(bs) + rest) == bs
  {
    if bs == [] {
      assert Encode(bs) + rest == rest;
    } else {
      var tail := Encode(bs[1..]) + rest;
      assert Encode(bs) + rest == EncodeByte(bs[0]) + tail;
      DecodeByteStep(bs[0], tail);
      DecodeEncodePrefix(bs[1..], rest);
      assert bs == [bs[0]] + bs[1..];
    }
  }

  lemma DecodeEncode(bs: Bytes)
    ensures Decode(Encode(bs)) == bs
  {
    assert Encode(bs) + "" == Encode(bs);
    DecodeEncodePrefix(bs, "");
  }

  /** On even-length lower-case hex text, encoding undoes decoding. */
  lemma {:induction false} EncodeDecode(s: string)
    requires IsLowerHex(s) && |s| % 2 == 0
    ensures |Decode(s)| == |s| / 2
    ensures Encode(Decode(s)) == s
  {
    if |s| >= 2 {
      var hi := DigitValue(s[0]).value;
      var lo := DigitValue(s[1]).value;
      DigitRoundTrip(s[0]);
      DigitRoundTrip(s[1]);
      assert IsLowerHex(s[2..]);
      EncodeDecode(s[2..]);
      assert (hi * 16 + lo) / 16 == hi && (hi * 16 + lo) % 16 == lo;
      assert Encode(Decode(s)) == EncodeByte(hi * 16 + lo) + s[2..];
    }
  }
}
