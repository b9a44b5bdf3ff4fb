/** Node's `base64` encoding: `Buffer#toString('base64')` and `Buffer.from(s, 'base64')`. */
module Base64 {
  import opened Wrappers
  import opened Hex

  type sextet = x: int | 0 <= x < 64

  /** The standard alphabet (section 4 of RFC 4648). */
  function AlphabetChar(v: sextet): (c: char)
    ensures AlphabetValue(c) == Some(v)
  {
    if v < 26 then ('A' as int + v) as char
    else if v < 52 then ('a' as int + v - 26) as char
    else if v < 62 then ('0' as int + v - 52) as char
    else if v == 62 then '+'
    else '/'
  }

  /** Value of a character when decoding. Node also accepts the URL-safe letters `-` and `_`
      (section 5 of RFC 4648); every other character has no value. */
  function AlphabetValue(c: char): (v: Option<sextet>)
    ensures c == '=' ==> v.None?
  {
    if 'A' <= c <= 'Z' then Some(c as int - 'A' as int)
    else if 'a' <= c <= 'z' then Some(c as int - 'a' as int + 26)
    else if '0' <= c <= '9' then Some(c as int - '0' as int + 52)
    else if c == '+' || c == '-' then Some(62)
    else if c == '/' || c == '_' then Some(63)
    else None
  }

  /** The sextets of a byte string, most significant bits first, without padding. */
  function ToSextets(bs: Bytes): (xs: seq<sextet>)
    ensures |xs| == (8 * |bs| + 5) / 6
    decreases |bs|
  {
    if |bs| == 0 then []
    else if |bs| == 1 then [bs[0] / 4, (bs[0] % 4) * 16]
    else if |bs| == 2 then [bs[0] / 4, (bs[0] % 4) * 16 + bs[1] / 16, (bs[1] % 16) * 4]
    else
      [bs[0] / 4, (bs[0] % 4) * 16 + bs[1] / 16, (bs[1] % 16) * 4 + bs[2] / 64, bs[2] % 64]
      + ToSextets(bs[3..])
  }

  /** Regroups sextets into bytes; a dangling single sextet carries no whole byte. */
  function FromSextets(xs: seq<sextet>): (bs: Bytes)
    decreases |xs|
  {
    if |xs| < 2 then []
    else
      var x0: int, x1: int := xs[0], xs[1];
      if |xs| == 2 then [x0 * 4 + x1 / 16]
      else
        var x2: int := xs[2];
        if |xs| == 3 then [x0 * 4 + x1 / 16, (x1 % 16) * 16 + x2 / 4]
        else [x0 * 4 + x1 / 16, (x1 % 16) * 16 + x2 / 4, (x2 % 4) * 64 + xs[3]] + FromSextets(xs[4..])
  }

  function Chars(xs: seq<sextet>): (s: string)
    ensures |s| == |xs|
  {
    if xs == [] then "" else [AlphabetChar(xs[0])] + Chars(xs[1..])
  }

  function Padding(n: nat): string {
    if n % 3 == 1 then "==" else if n % 3 == 2 then "=" else ""
  }

  /** `Buffer#toString('base64')`: alphabet characters padded with `=` to a multiple of four. */
  function Encode(bs: Bytes): (s: string)
    ensures |s| % 4 == 0
  {
    Chars(ToSextets(bs)) + Padding(|bs|)
  }

  /** The sextets `Buffer.from(s, 'base64')` reads: characters outside the alphabet are
      skipped and the first `=` ends the input. */
  function ReadSextets(s: string): seq<sextet>
  {
    if s == "" || s[0] == '=' then []
    else
      match AlphabetValue(s[0])
      case Some(v) => [v] + ReadSextets(s[1..])
      case None => ReadSextets(s[1..])
  }

  /** `Buffer.from(s, 'base64')`: lenient, it never fails. */
  function Decode(s: string): Bytes {
    FromSextets(ReadSextets(s))
  }

  lemma {:induction false} ReadChars(xs: seq<sextet>, rest: string)
    requires rest == "" || rest[0] == '='
    ensures ReadSextets(Chars(xs) + rest) == xs
  {
    if xs == [] {
      assert Chars(xs) + rest == rest;
    } else {
      var s := Chars(xs) + rest;
      assert s[0] == AlphabetChar(xs[0]);
      assert s[1..] == Chars(xs[1..]) + rest;
      ReadChars(xs[1..], rest);
    }
  }

  lemma GroupOfThree(b0: byte, b1: byte, b2: byte)
    ensures b0 / 4 * 4 + ((b0 % 4) * 16 + b1 / 16) / 16 == b0
    ensures (((b0 % 4) * 16 + b1 / 16) % 16) * 16 + ((b1 % 16) * 4 + b2 / 64) / 4 == b1
    ensures (((b1 % 16) * 4 + b2 / 64) % 4) * 64 + b2 % 64 == b2
  {
  }

  lemma {:induction false} FromToSextets(bs: Bytes)
    ensures FromSextets(ToSextets(bs)) == bs
    decreases |bs|
  {
    if |bs| == 1 {
      assert (bs[0] / 4) * 4 + ((bs[0] % 4) * 16) / 16 == bs[0];
    } else if |bs| == 2 {
      GroupOfThree(bs[0], bs[1], 0);
    } else if |bs| >= 3 {
      GroupOfThree(bs[0], bs[1], bs[2]);
      var xs := ToSextets(bs);
      assert xs[4..] == ToSextets(bs[3..]);
      FromToSextets(bs[3..]);
      assert bs == bs[..3] + bs[3..];
    }
  }

  /** `Buffer.from(b.toString('base64'), 'base64')` gives back `b`. */
  lemma DecodeEncode(bs: Bytes)
    ensures Decode(Encode(bs)) == bs
  {
    ReadChars(ToSextets(bs), Padding(|bs|));
    FromToSextets(bs);
  }

  /** Encoding is injective. */
  lemma EncodeInjective(a: Bytes, b: Bytes)
    requires Encode(a) == Encode(b)
    ensures a == b
  {
    DecodeEncode(a);
    DecodeEncode(b);
  }
}
