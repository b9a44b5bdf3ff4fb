/** UTF-8 as Node applies it when a string meets a Buffer (`Buffer.from(s)`, `'utf8'` encodings,
    `Buffer#toString()`). Model strings are sequences of Unicode scalar values. */
module Utf8 {
  import opened Hex

  const Replacement: char := 0xFFFD as char

  predicate IsContinuation(b: byte) {
    0x80 <= b <= 0xBF
  }

  /** The one to four bytes of a scalar value. */
  function EncodeChar(c: char): (bs: Bytes)
    ensures 1 <= |bs| <= 4
  {
    var x := c as int;
    if x < 0x80 then [x]
    else if x < 0x800 then [0xC0 + x / 64, 0x80 + x % 64]
    else if x < 0x10000 then [0xE0 + x / 4096, 0x80 + (x / 64) % 64, 0x80 + x % 64]
    else [0xF0 + x / 0x40000, 0x80 + (x / 4096) % 64, 0x80 + (x / 64) % 64, 0x80 + x % 64]
  }

  function Encode(s: string): (bs: Bytes)
    ensures |s| <= |bs| <= 4 * |s|
  {
    if s == "" then [] else EncodeChar(s[0]) + Encode(s[1..])
  }

  /** One decoding step of the WHATWG decoder Node uses: a well-formed sequence yields its
      scalar value; an ill-formed one yields U+FFFD and consumes its maximal valid prefix
      (at least one byte). Returns the character and the number of bytes consumed. */
  function DecodeStep(bs: Bytes): (r: (char, nat))
    requires |bs| > 0
    ensures 1 <= r.1 <= |bs|
  {
    var b0: int := bs[0];
    if b0 < 0x80 then (b0 as char, 1)
    else if 0xC2 <= b0 <= 0xDF then
      if |bs| >= 2 && IsContinuation(bs[1]) then
        (((b0 - 0xC0) * 64 + (bs[1] as int - 0x80)) as char, 2)
      else (Replacement, 1)
    else if 0xE0 <= b0 <= 0xEF then
      var lo := if b0 == 0xE0 then 0xA0 else 0x80;
      var hi := if b0 == 0xED then 0x9F else 0xBF;
      if |bs| < 2 || !(lo <= bs[1] <= hi) then (Replacement, 1)
      else if |bs| < 3 || !IsContinuation(bs[2]) then (Replacement, 2)
      else (((b0 - 0xE0) * 4096 + (bs[1] as int - 0x80) * 64 + (bs[2] as int - 0x80)) as char, 3)
    else if 0xF0 <= b0 <= 0xF4 then
      var lo := if b0 == 0xF0 then 0x90 else 0x80;
      var hi := if b0 == 0xF4 then 0x8F else 0xBF;
      if |bs| < 2 || !(lo <= bs[1] <= hi) then (Replacement, 1)
      else if |bs| < 3 || !IsContinuation(bs[2]) then (Replacement, 2)
      else if |bs| < 4 || !IsContinuation(bs[3]) then (Replacement, 3)
      else
        (((b0 - 0xF0) * 0x40000 + (bs[1] as int - 0x80) * 4096 + (bs[2] as int - 0x80) * 64 + (bs[3] as int - 0x80)) as char, 4)
    else (Replacement, 1)
  }

  /** `Buffer#toString('utf8')`: never fails; ill-formed input turns into U+FFFD characters.
      Every character consumes at least one byte, so the text is never longer than the bytes. */
  function Decode(bs: Bytes): (s: string)
    ensures |s| <= |bs|
    decreases |bs|
  {
    if bs == [] then ""
    else
      var step := DecodeStep(bs);
      [step.0] + Decode(bs[step.1..])
  }

  lemma TwoByteChar(x: int)
    requires 0x80 <= x < 0x800
    ensures 0xC2 <= 0xC0 + x / 64 <= 0xDF
    ensures (x / 64) * 64 + x % 64 == x
  {
  }

  lemma ThreeByteChar(x: int)
    requires 0x800 <= x < 0x10000
    requires x < 0xD800 || 0xE000 <= x
    ensures 0xE0 <= 0xE0 + x / 4096 <= 0xEF
    ensures (x / 4096) * 4096 + ((x / 64) % 64) * 64 + x % 64 == x
    ensures x / 4096 == 0 ==> 0x20 <= (x / 64) % 64
    ensures x / 4096 == 0xD ==> (x / 64) % 64 < 0x20
  {
    var q := x / 64;
    assert x == q * 64 + x % 64;
    assert q == (q / 64) * 64 + q % 64;
    assert x / 4096 == q / 64;
  }

  lemma FourByteChar(x: int)
    requires 0x10000 <= x < 0x110000
    ensures 0xF0 <= 0xF0 + x / 0x40000 <= 0xF4
    ensures (x / 0x40000) * 0x40000 + ((x / 4096) % 64) * 4096 + ((x / 64) % 64) * 64 + x % 64 == x
    ensures x / 0x40000 == 0 ==> 0x10 <= (x / 4096) % 64
    ensures x / 0x40000 == 4 ==> (x / 4096) % 64 < 0x10
  {
    var q := x / 64;
    var p := q / 64;
    assert x == q * 64 + x % 64;
    assert q == p * 64 + q % 64;
    assert p == (p / 64) * 64 + p % 64;
    assert x / 4096 == p;
    assert x / 0x40000 == p / 64;
  }

  /** Decoding the bytes of one character, followed by anything, gives back that character
      and consumes exactly its bytes. */
  lemma DecodeStepEncodeChar(c: char, rest: Bytes)
    ensures DecodeStep(EncodeChar(c) + rest) == (c, |EncodeChar(c)|)
  {
    var x := c as int;
    var bs := EncodeChar(c) + rest;
    if x < 0x80 {
    } else if x < 0x800 {
      TwoByteChar(x);
      assert bs[0] == 0xC0 + x / 64 && bs[1] == 0x80 + x % 64;
    } else if x < 0x10000 {
      ThreeByteChar(x);
      assert bs[0] == 0xE0 + x / 4096 && bs[1] == 0x80 + (x / 64) % 64 && bs[2] == 0x80 + x % 64;
    } else {
      FourByteChar(x);
      assert bs[0] == 0xF0 + x / 0x40000 && bs[1] == 0x80 + (x / 4096) % 64;
      assert bs[2] == 0x80 + (x / 64) % 64 && bs[3] == 0x80 + x % 64;
    }
  }

  /** `Buffer.from(s).toString() == s`: UTF-8 round-trips every string. */
  lemma {:induction false} DecodeEncode(s: string)
    ensures Decode(Encode(s)) == s
  {
    if s != "" {
      var bs := Encode(s);
      assert bs == EncodeChar(s[0]) + Encode(s[1..]);
      DecodeStepEncodeChar(s[0], Encode(s[1..]));
      assert bs[|EncodeChar(s[0])|..] == Encode(s[1..]);
      DecodeEncode(s[1..]);
      assert [s[0]] + s[1..] == s;
    }
  }

  lemma EncodeAppend(a: string, b: string)
    ensures Encode(a + b) == Encode(a) + Encode(b)
  {
    if a == "" {
      assert a + b == b;
    } else {
      assert (a + b)[0] == a[0];
      assert (a + b)[1..] == a[1..] + b;
      EncodeAppend(a[1..], b);
    }
  }

  /** ASCII text is one byte per character. */
  lemma {:induction false} EncodeAscii(s: string)
    requires forall i :: 0 <= i < |s| ==> s[i] as int < 0x80
    ensures |Encode(s)| == |s|
  {
    if s != "" {
      EncodeAscii(s[1..]);
    }
  }
}
