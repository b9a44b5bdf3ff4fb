/** `JSON.stringify` and `JSON.parse` restricted to arrays of strings, the only JSON the field
    encryption produces and the retrieval client parses back. */
module Json {
  import opened Wrappers
  import Hex

  /** How `JSON.stringify` writes one character inside a string literal. */
  function EscapeChar(c: char): (s: string)
    ensures |s| >= 1
  {
    if c == '"' then "\\\""
    else if c == '\\' then "\\\\"
    else if c == 8 as char then "\\b"
    else if c == 12 as char then "\\f"
    else if c == '\n' then "\\n"
    else if c == '\r' then "\\r"
    else if c == '\t' then "\\t"
    else if c as int < 0x20 then "\\u00" + [Hex.DigitChar(c as int / 16), Hex.DigitChar(c as int % 16)]
    else [c]
  }

  function Escape(s: string): string {
    if s == "" then "" else EscapeChar(s[0]) + Escape(s[1..])
  }

  function Quote(s: string): string {
    "\"" + Escape(s) + "\""
  }

  function Items(xs: seq<string>): string {
    if xs == [] then ""
    else if |xs| == 1 then Quote(xs[0])
    else Quote(xs[0]) + "," + Items(xs[1..])
  }

  /** `JSON.stringify(xs)` for an array of strings: no whitespace between tokens. */
  function Stringify(xs: seq<string>): (s: string)
    ensures |s| >= 2 && s[0] == '[' && s[|s| - 1] == ']'
  {
    "[" + Items(xs) + "]"
  }

  predicate IsWhitespace(c: char) {
    c == ' ' || c == '\t' || c == '\n' || c == '\r'
  }

  function SkipWhitespace(s: string): (t: string)
    ensures |t| <= |s|
    ensures t == "" || !IsWhitespace(t[0])
  {
    if s != "" && IsWhitespace(s[0]) then SkipWhitespace(s[1..]) else s
  }

  /** Four hex digits of a `\u` escape (either letter case): one UTF-16 code unit. */
  function HexQuad(s: string): (r: Option<int>)
    requires |s| == 4
    ensures r.Some? ==> 0 <= r.value < 0x10000
  {
    match (Hex.DigitValue(s[0]), Hex.DigitValue(s[1]), Hex.DigitValue(s[2]), Hex.DigitValue(s[3]))
    case (Some(a), Some(b), Some(c), Some(d)) => Some(a * 4096 + b * 256 + c * 16 + d)
    case _ => None
  }

  /** One character of string content: an escape sequence or a character that needs none.
      Raw control characters are rejected, as `JSON.parse` does. */
  function ParseChar(s: string): (r: Option<(char, string)>)
    requires s != "" && s[0] != '"'
    ensures r.Some? ==> |r.value.1| < |s|
  {
    if s[0] == '\\' then
      if |s| < 2 then None
      else if s[1] == '"' then Some(('"', s[2..]))
      else if s[1] == '\\' then Some(('\\', s[2..]))
      else if s[1] == '/' then Some(('/', s[2..]))
      else if s[1] == 'b' then Some((8 as char, s[2..]))
      else if s[1] == 'f' then Some((12 as char, s[2..]))
      else if s[1] == 'n' then Some(('\n', s[2..]))
      else if s[1] == 'r' then Some(('\r', s[2..]))
      else if s[1] == 't' then Some(('\t', s[2..]))
      else if s[1] == 'u' then ParseUnicodeEscape(s)
      else None
    else if s[0] as int < 0x20 then None
    else Some((s[0], s[1..]))
  }

  /** A `\u` escape. A code unit outside the surrogate range is that character; a high
      surrogate followed by an escaped low surrogate is the one supplementary character the pair
      encodes in UTF-16. An unpaired surrogate, which `JSON.parse` keeps as a lone code unit, has
      no scalar value to become and is refused. */
  function ParseUnicodeEscape(s: string): (r: Option<(char, string)>)
    requires |s| >= 2 && s[0] == '\\' && s[1] == 'u'
    ensures r.Some? ==> |r.value.1| < |s|
  {
    if |s| < 6 then None
    else
      match HexQuad(s[2..6])
      case None => None
      case Some(v) =>
        if v < 0xD800 || 0xE000 <= v then Some((v as char, s[6..]))
        else if v < 0xDC00 && |s| >= 12 && s[6] == '\\' && s[7] == 'u' then
          match HexQuad(s[8..12])
          case None => None
          case Some(w) =>
            if 0xDC00 <= w < 0xE000 then Some(((0x10000 + (v - 0xD800) * 0x400 + (w - 0xDC00)) as char, s[12..]))
            else None
        else None
  }

  /** The `\u` escape of one UTF-16 code unit, in lower-case hex. */
  function UnitEscape(u: int): (s: string)
    requires 0 <= u < 0x10000
    ensures |s| == 6 && s[0] == '\\' && s[1] == 'u'
  {
    var r := u % 4096;
    "\\u" + [Hex.DigitChar(u / 4096), Hex.DigitChar(r / 256), Hex.DigitChar(r % 256 / 16), Hex.DigitChar(r % 256 % 16)]
  }

  /** The two UTF-16 code units of a supplementary character. */
  function HighSurrogate(c: char): (u: int)
    requires c as int >= 0x10000
    ensures 0xD800 <= u < 0xDC00
  {
    0xD800 + (c as int - 0x10000) / 0x400
  }

  function LowSurrogate(c: char): (u: int)
    requires c as int >= 0x10000
    ensures 0xDC00 <= u < 0xE000
  {
    0xDC00 + (c as int - 0x10000) % 0x400
  }

  lemma HexQuadOfUnit(u: int)
    requires 0 <= u < 0x10000
    ensures HexQuad(UnitEscape(u)[2..6]) == Some(u)
  {
    var q := UnitEscape(u)[2..6];
    var r := u % 4096;
    assert u == u / 4096 * 4096 + r;
    assert r == r / 256 * 256 + r % 256;
    assert r % 256 == r % 256 / 16 * 16 + r % 256 % 16;
    assert Hex.DigitValue(q[0]) == Some(u / 4096);
    assert Hex.DigitValue(q[1]) == Some(r / 256);
    assert Hex.DigitValue(q[2]) == Some(r % 256 / 16);
    assert Hex.DigitValue(q[3]) == Some(r % 256 % 16);
  }

  /** A supplementary character written as its escaped surrogate pair, as other encoders of
      JSON do (`"\ud83d\ude00"`), parses back to that one character. */
  lemma ParseSurrogatePair(c: char, t: string)
    requires c as int >= 0x10000
    ensures ParseChar(UnitEscape(HighSurrogate(c)) + UnitEscape(LowSurrogate(c)) + t) == Some((c, t))
  {
    var hi, lo := HighSurrogate(c), LowSurrogate(c);
    var s := UnitEscape(hi) + UnitEscape(lo) + t;
    HexQuadOfUnit(hi);
    HexQuadOfUnit(lo);
    assert s[2..6] == UnitEscape(hi)[2..6];
    assert s[8..12] == UnitEscape(lo)[2..6];
    assert s[6] == '\\' && s[7] == 'u';
    assert s[12..] == t;
    assert 0x10000 + (hi - 0xD800) * 0x400 + (lo - 0xDC00) == c as int;
  }

  lemma ParseStringBodyCons(s: string, c: char, t: string, x: string, rest: string)
    requires s != "" && s[0] != '"' && ParseChar(s) == Some((c, t))
    requires ParseStringBody(t) == Some((x, rest))
    ensures ParseStringBody(s) == Some(([c] + x, rest))
  {
  }

  /** U+1F600 is the pair D83D DE00, escaped as `\ud83d\ude00`. */
  lemma EmojiUnits()
    ensures HighSurrogate(0x1F600 as char) == 0xD83D && LowSurrogate(0x1F600 as char) == 0xDE00
    ensures UnitEscape(0xD83D) == "\\ud83d" && UnitEscape(0xDE00) == "\\ude00"
  {
    assert UnitEscape(0xD83D) == "\\ud83d";
  }

  /** The string literal of U+1F600 as its escaped pair, then the closing bracket. */
  lemma EmojiItems()
    ensures ParseItems("\"\\ud83d\\ude00\"]") == Some(([[0x1F600 as char]], ""))
  {
    var c := 0x1F600 as char;
    var pair := UnitEscape(HighSurrogate(c)) + UnitEscape(LowSurrogate(c));
    EmojiUnits();
    assert pair == "\\ud83d\\ude00";
    var u := "\"" + pair + "\"]";
    var body := pair + "\"]";
    assert u[1..] == body;
    ParseSurrogatePair(c, "\"]");
    assert ParseStringBody("\"]") == Some(("", "]"));
    assert body != "" && body[0] == '\\';
    ParseStringBodyCons(body, c, "\"]", "", "]");
    assert [c] + "" == [c];
    assert SkipWhitespace("]") == "]";
    assert u == "\"\\ud83d\\ude00\"]";
  }

  /** `JSON.parse('["\\ud83d\\ude00"]')` is the one-element array holding U+1F600. */
  lemma ParseEscapedEmoji()
    ensures Parse("[\"\\ud83d\\ude00\"]") == Some([[0x1F600 as char]])
  {
    var s := "[\"\\ud83d\\ude00\"]";
    var u := "\"\\ud83d\\ude00\"]";
    EmojiItems();
    assert s[1..] == u;
    assert SkipWhitespace(u) == u && SkipWhitespace(s) == s && SkipWhitespace("") == "";
  }

  /** The content of a string literal whose opening quote is already read: the decoded text
      and whatever follows the closing quote. */
  function ParseStringBody(s: string): (r: Option<(string, string)>)
    ensures r.Some? ==> |r.value.1| < |s|
    decreases |s|
  {
    if s == "" then None
    else if s[0] == '"' then Some(("", s[1..]))
    else
      match ParseChar(s)
      case None => None
      case Some((c, t)) =>
        match ParseStringBody(t)
        case None => None
        case Some((body, rest)) => Some(([c] + body, rest))
  }

  /** One or more string literals separated by commas and closed by `]`; returns the strings
      and whatever follows the bracket. */
  function ParseItems(s: string): (r: Option<(seq<string>, string)>)
    ensures r.Some? ==> |r.value.1| < |s|
    decreases |s|
  {
    if s == "" || s[0] != '"' then None
    else
      match ParseStringBody(s[1..])
      case None => None
      case Some((x, r)) =>
        var t := SkipWhitespace(r);
        if t == "" then None
        else if t[0] == ']' then Some(([x], t[1..]))
        else if t[0] == ',' then
          match ParseItems(SkipWhitespace(t[1..]))
          case None => None
          case Some((xs, rest)) => Some(([x] + xs, rest))
        else None
  }

  /** `JSON.parse(s)` where the text is an array of strings; `None` is the `SyntaxError`
      (and any other JSON value, which this model does not represent). */
  function Parse(s: string): Option<seq<string>> {
    var t := SkipWhitespace(s);
    if t == "" || t[0] != '[' then None
    else
      var u := SkipWhitespace(t[1..]);
      if u != "" && u[0] == ']' then
        (if SkipWhitespace(u[1..]) == "" then Some([]) else None)
      else
        match ParseItems(u)
        case None => None
        case Some((xs, rest)) => if SkipWhitespace(rest) == "" then Some(xs) else None
  }

  lemma HexQuadOfControl(c: char, s: string)
    requires c as int < 0x20
    requires s == "00" + [Hex.DigitChar(c as int / 16), Hex.DigitChar(c as int % 16)]
    ensures HexQuad(s) == Some(c as int)
  {
    assert Hex.DigitValue(s[0]) == Some(0) && Hex.DigitValue(s[1]) == Some(0);
  }

  lemma ParseEscapedChar(c: char, t: string)
    ensures EscapeChar(c)[0] != '"'
    ensures ParseChar(EscapeChar(c) + t) == Some((c, t))
  {
    var s := EscapeChar(c) + t;
    if c as int < 0x20 && c != 8 as char && c != 12 as char && c != '\n' && c != '\r' && c != '\t' {
      assert s[2..6] == "00" + [Hex.DigitChar(c as int / 16), Hex.DigitChar(c as int % 16)];
      HexQuadOfControl(c, s[2..6]);
      assert s[6..] == t;
    } else if c == '"' || c == '\\' || c == 8 as char || c == 12 as char || c == '\n' || c == '\r' || c == '\t' {
      assert s[2..] == t;
    } else {
      assert s[1..] == t;
    }
  }

  lemma {:induction false} ParseEscaped(x: string, rest: string)
    ensures ParseStringBody(Escape(x) + "\"" + rest) == Some((x, rest))
  {
    var s := Escape(x) + "\"" + rest;
    if x == "" {
      assert s == "\"" + rest;
      assert s[1..] == rest;
    } else {
      var tail := Escape(x[1..]) + "\"" + rest;
      assert s == EscapeChar(x[0]) + tail;
      ParseEscapedChar(x[0], tail);
      ParseEscaped(x[1..], rest);
      assert [x[0]] + x[1..] == x;
    }
  }

  lemma ParseLastItem(x: string, rest: string)
    ensures ParseItems(Quote(x) + "]" + rest) == Some(([x], rest))
  {
    var s := Quote(x) + "]" + rest;
    QuoteThen(x, "]" + rest);
    assert s == Quote(x) + ("]" + rest);
    ParseEscaped(x, "]" + rest);
    assert SkipWhitespace("]" + rest) == "]" + rest;
    assert ("]" + rest)[1..] == rest;
  }

  lemma ParseNextItem(x: string, more: string, xs: seq<string>, rest: string)
    requires more != [] && more[0] == '"'
    requires ParseItems(more) == Some((xs, rest))
    ensures ParseItems(Quote(x) + "," + more) == Some(([x] + xs, rest))
  {
    var r := "," + more;
    QuoteThen(x, r);
    ParseEscaped(x, r);
    assert r[1..] == more;
    ParseItemsAtComma(Quote(x) + r, x, r, xs, rest);
    assert Quote(x) + r == Quote(x) + "," + more;
  }

  /** A quoted literal followed by `suffix` opens with a quote and continues with the escaped
      text, the closing quote and `suffix`. */
  lemma QuoteThen(x: string, suffix: string)
    ensures (Quote(x) + suffix)[0] == '"'
    ensures (Quote(x) + suffix)[1..] == Escape(x) + "\"" + suffix
  {
    assert (Quote(x) + suffix)[1..] == Quote(x)[1..] + suffix;
  }

  /** One unfolding of `ParseItems` at a literal followed directly by a comma and another literal. */
  lemma ParseItemsAtComma(s: string, x: string, r: string, xs: seq<string>, rest: string)
    requires s != "" && s[0] == '"' && ParseStringBody(s[1..]) == Some((x, r))
    requires |r| >= 2 && r[0] == ',' && r[1] == '"'
    requires ParseItems(r[1..]) == Some((xs, rest))
    ensures ParseItems(s) == Some(([x] + xs, rest))
  {
    assert SkipWhitespace(r) == r;
    assert SkipWhitespace(r[1..]) == r[1..];
  }

  lemma {:induction false} ParseItemsOf(xs: seq<string>, rest: string)
    requires xs != []
    ensures ParseItems(Items(xs) + "]" + rest) == Some((xs, rest))
    decreases |xs|
  {
    if |xs| == 1 {
      assert Items(xs) == Quote(xs[0]);
      ParseLastItem(xs[0], rest);
      assert [xs[0]] == xs;
    } else {
      var more := Items(xs[1..]) + "]" + rest;
      assert Items(xs) + "]" + rest == Quote(xs[0]) + "," + more;
      assert more[0] == '"';
      ParseItemsOf(xs[1..], rest);
      ParseNextItem(xs[0], more, xs[1..], rest);
      assert [xs[0]] + xs[1..] == xs;
    }
  }

  /** `JSON.parse(JSON.stringify(xs))` gives back `xs`. */
  lemma ParseStringify(xs: seq<string>)
    ensures Parse(Stringify(xs)) == Some(xs)
  {
    var s := Stringify(xs);
    if xs == [] {
      assert s == "[]";
    } else {
      var u := Items(xs) + "]";
      assert s == "[" + u && s[1..] == u;
      ItemsOpensWithQuote(xs);
      assert u[0] == '"' && u + "" == u;
      ParseItemsOf(xs, "");
      assert SkipWhitespace(u) == u;
    }
  }

  lemma ItemsOpensWithQuote(xs: seq<string>)
    requires xs != []
    ensures Items(xs) != "" && Items(xs)[0] == '"'
  {
    var suffix := if |xs| == 1 then "" else "," + Items(xs[1..]);
    assert Items(xs) == Quote(xs[0]) + suffix;
    QuoteThen(xs[0], suffix);
  }

  /** Distinct arrays stringify to distinct text. */
  lemma StringifyInjective(a: seq<string>, b: seq<string>)
    requires Stringify(a) == Stringify(b)
    ensures a == b
  {
    ParseStringify(a);
    ParseStringify(b);
  }
}
