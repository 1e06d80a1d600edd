/** JSON text (RFC 8259) as bytes: the reader `JSONDecoder` runs over the
    UTF-8 data it is given, and the compact writer `JSONEncoder` uses with
    `.withoutEscapingSlashes`. */
module JsonText {
  import opened Wrappers
  import opened Utf8
  import opened Json

  const Tab: byte := 0x09
  const LineFeed: byte := 0x0A
  const CarriageReturn: byte := 0x0D
  const Space: byte := 0x20
  const Quote: byte := 0x22
  const Plus: byte := 0x2B
  const Comma: byte := 0x2C
  const Minus: byte := 0x2D
  const Dot: byte := 0x2E
  const Slash: byte := 0x2F
  const Zero: byte := 0x30
  const Colon: byte := 0x3A
  const LeftBracket: byte := 0x5B
  const Backslash: byte := 0x5C
  const RightBracket: byte := 0x5D
  const LeftBrace: byte := 0x7B
  const RightBrace: byte := 0x7D

  /** Insignificant whitespace (section 2 of RFC 8259). */
  predicate IsWhitespace(b: byte) {
    b == Space || b == Tab || b == LineFeed || b == CarriageReturn
  }

  predicate IsDigit(b: byte) {
    0x30 <= b <= 0x39
  }

  predicate StartsWith(s: seq<byte>, b: byte) {
    |s| > 0 && s[0] == b
  }

  /** Drops the whitespace in front of `s`, all of it and nothing else. */
  function SkipWhitespace(s: seq<byte>): (r: seq<byte>)
    ensures |r| <= |s| && r == s[|s| - |r|..]
    ensures forall i :: 0 <= i < |s| - |r| ==> IsWhitespace(s[i])
    ensures |r| > 0 ==> !IsWhitespace(r[0])
  {
    if |s| > 0 && IsWhitespace(s[0]) then
      var r := SkipWhitespace(s[1..]);
      assert r == s[|s| - |r|..];
      assert forall i :: 1 <= i < |s| - |r| ==> s[i] == s[1..][i - 1];
      r
    else
      s
  }

  lemma SkipNoWhitespace(s: seq<byte>)
    requires |s| > 0 && !IsWhitespace(s[0])
    ensures SkipWhitespace(s) == s
  {
  }

  predicate AllWhitespace(w: seq<byte>) {
    forall i :: 0 <= i < |w| ==> IsWhitespace(w[i])
  }

  /** Whitespace in front of a token is skipped whatever its length. */
  lemma {:induction false} SkipLeading(w: seq<byte>, s: seq<byte>)
    requires AllWhitespace(w)
    ensures SkipWhitespace(w + s) == SkipWhitespace(s)
  {
    if |w| > 0 {
      assert (w + s)[0] == w[0];
      assert (w + s)[1..] == w[1..] + s;
      SkipLeading(w[1..], s);
    } else {
      assert w + s == s;
    }
  }

  /** Skipping whitespace lands on the first token after it. */
  lemma SkipTo(w: seq<byte>, t: seq<byte>)
    requires AllWhitespace(w) && |t| > 0 && !IsWhitespace(t[0])
    ensures SkipWhitespace(w + t) == t
  {
    SkipLeading(w, t);
    SkipNoWhitespace(t);
  }

  // ---------------------------------------------------------------- strings

  function HexValue(b: byte): (r: Option<nat>)
    ensures r.Some? ==> r.value < 16
  {
    if 0x30 <= b <= 0x39 then Some(b - 0x30)
    else if 0x61 <= b <= 0x66 then Some(b - 0x61 + 10)
    else if 0x41 <= b <= 0x46 then Some(b - 0x41 + 10)
    else None
  }

  /** Four hex digits, as in `é`. */
  function CodeUnit(s: seq<byte>): (r: Option<nat>)
    ensures r.Some? ==> |s| >= 4 && r.value < 0x1_0000
  {
    if |s| < 4 then None
    else
      var d0 :- HexValue(s[0]);
      var d1 :- HexValue(s[1]);
      var d2 :- HexValue(s[2]);
      var d3 :- HexValue(s[3]);
      Some(((d0 * 16 + d1) * 16 + d2) * 16 + d3)
  }

  /** An escape sequence (section 7 of RFC 8259); a UTF-16 surrogate must come
      as a high-low pair of `\u` escapes, and a lone one is refused. */
  function ParseEscape(s: seq<byte>): (r: Option<Parsed<char>>)
    requires StartsWith(s, Backslash)
    ensures r.Some? ==> |r.value.rest| < |s|
  {
    if |s| < 2 then None
    else if s[1] == Quote then Some(Parsed('"', s[2..]))
    else if s[1] == Backslash then Some(Parsed('\\', s[2..]))
    else if s[1] == Slash then Some(Parsed('/', s[2..]))
    else if s[1] == 0x62 then Some(Parsed(8 as char, s[2..]))
    else if s[1] == 0x66 then Some(Parsed(12 as char, s[2..]))
    else if s[1] == 0x6E then Some(Parsed('\n', s[2..]))
    else if s[1] == 0x72 then Some(Parsed('\r', s[2..]))
    else if s[1] == 0x74 then Some(Parsed('\t', s[2..]))
    else if s[1] == 0x75 then
      var u :- CodeUnit(s[2..]);
      if 0xD800 <= u < 0xDC00 then
        if |s| < 12 || s[6] != Backslash || s[7] != 0x75 then None
        else
          var l :- CodeUnit(s[8..]);
          if 0xDC00 <= l < 0xE000 then
            Some(Parsed((0x1_0000 + (u - 0xD800) * 0x400 + (l - 0xDC00)) as char, s[12..]))
          else None
      else if 0xDC00 <= u < 0xE000 then None
      else Some(Parsed(u as char, s[6..]))
    else None
  }

  /** One character of a string body: an escape, or a UTF-8 sequence that is
      not an unescaped control character. */
  function ParseStringChar(s: seq<byte>): (r: Option<Parsed<char>>)
    requires |s| > 0 && s[0] != Quote
    ensures r.Some? ==> |r.value.rest| < |s|
  {
    if s[0] == Backslash then ParseEscape(s)
    else if s[0] < 0x20 then None
    else DecodeChar(s)
  }

  /** The characters of a string up to its closing quote; `s` starts just
      after the opening quote. */
  function ParseString(s: seq<byte>): (r: Option<Parsed<string>>)
    ensures r.Some? ==> |r.value.rest| < |s|
  {
    if |s| == 0 then None
    else if s[0] == Quote then Some(Parsed([], s[1..]))
    else
      var c :- ParseStringChar(s);
      var tail :- ParseString(c.rest);
      Some(Parsed([c.value] + tail.value, tail.rest))
  }

  // ---------------------------------------------------------------- numbers

  predicate AllDigits(d: seq<byte>) {
    forall i :: 0 <= i < |d| ==> IsDigit(d[i])
  }

  /** Length of the run of decimal digits in front of `s`. */
  function DigitRun(s: seq<byte>): (n: nat)
    ensures n <= |s| && AllDigits(s[..n])
    ensures n < |s| ==> !IsDigit(s[n])
  {
    if |s| > 0 && IsDigit(s[0]) then 1 + DigitRun(s[1..]) else 0
  }

  /** The value of a sequence of decimal digits, most significant first. */
  function DigitsValue(d: seq<byte>): nat
    requires AllDigits(d)
  {
    if |d| == 0 then 0 else 10 * DigitsValue(d[..|d| - 1]) + (d[|d| - 1] as int - Zero)
  }

  /** The digits of the integer part; a leading zero stands alone. */
  function ParseIntegerDigits(s: seq<byte>): (r: Option<Parsed<seq<byte>>>)
    ensures r.Some? ==> AllDigits(r.value.value) && |r.value.rest| < |s|
  {
    var n := DigitRun(s);
    if n == 0 || (s[0] == Zero && n > 1) then None
    else Some(Parsed(s[..n], s[n..]))
  }

  /** The digits after the decimal point, none when there is no point; a point
      must be followed by at least one digit. */
  function ParseFraction(s: seq<byte>): (r: Option<Parsed<seq<byte>>>)
    ensures r.Some? ==> AllDigits(r.value.value) && |r.value.rest| <= |s|
  {
    if !StartsWith(s, Dot) then Some(Parsed([], s))
    else
      var t := s[1..];
      var n := DigitRun(t);
      if n == 0 then None else Some(Parsed(t[..n], t[n..]))
  }

  /** The optional exponent part `e`/`E`, sign, digits; zero when absent. */
  function ParseExponent(s: seq<byte>): (r: Option<Parsed<int>>)
    ensures r.Some? ==> |r.value.rest| <= |s|
  {
    if |s| == 0 || (s[0] != 0x65 && s[0] != 0x45) then Some(Parsed(0, s))
    else
      var signed := |s| > 1 && (s[1] == Plus || s[1] == Minus);
      var t := if signed then s[2..] else s[1..];
      var n := DigitRun(t);
      if n == 0 then None
      else
        var e: int := DigitsValue(t[..n]);
        Some(Parsed(if signed && s[1] == Minus then -e else e, t[n..]))
  }

  /** A number: optional minus, an integer part without leading zeros, an
      optional fraction and an optional exponent (section 6 of RFC 8259). */
  function ParseNumber(s: seq<byte>): (r: Option<Parsed<Number>>)
    ensures r.Some? ==> |r.value.rest| < |s|
  {
    var negative := StartsWith(s, Minus);
    var i :- ParseIntegerDigits(if negative then s[1..] else s);
    var f :- ParseFraction(i.rest);
    var e :- ParseExponent(f.rest);
    var magnitude: int := DigitsValue(i.value + f.value);
    Some(Parsed(Number(if negative then -magnitude else magnitude, e.value - |f.value|), e.rest))
  }

  // ---------------------------------------------------------------- values

  function ParseLiteral(s: seq<byte>, word: seq<byte>, v: JsonValue): (r: Option<Parsed<JsonValue>>)
    requires |word| > 0
    ensures r.Some? ==> |r.value.rest| < |s|
  {
    if |word| <= |s| && s[..|word|] == word then Some(Parsed(v, s[|word|..])) else None
  }

  /** One value with no surrounding whitespace. */
  function ParseValue(s: seq<byte>): (r: Option<Parsed<JsonValue>>)
    decreases |s|, 0
    ensures r.Some? ==> |r.value.rest| < |s|
  {
    if |s| == 0 then None
    else if s[0] == LeftBrace then
      var o :- ParseObject(s[1..]);
      Some(Parsed(JObject(o.value), o.rest))
    else if s[0] == LeftBracket then
      var a :- ParseArray(s[1..]);
      Some(Parsed(JArray(a.value), a.rest))
    else if s[0] == Quote then
      var t :- ParseString(s[1..]);
      Some(Parsed(JString(t.value), t.rest))
    else if s[0] == 0x74 then ParseLiteral(s, [0x74, 0x72, 0x75, 0x65], JBool(true))
    else if s[0] == 0x66 then ParseLiteral(s, [0x66, 0x61, 0x6C, 0x73, 0x65], JBool(false))
    else if s[0] == 0x6E then ParseLiteral(s, [0x6E, 0x75, 0x6C, 0x6C], JNull)
    else if s[0] == Minus || IsDigit(s[0]) then
      var n :- ParseNumber(s);
      Some(Parsed(JNumber(n.value), n.rest))
    else None
  }

  /** A value with the whitespace around it (the `element` of RFC 8259). */
  function ParseElement(s: seq<byte>): (r: Option<Parsed<JsonValue>>)
    decreases |s|, 1
    ensures r.Some? ==> |r.value.rest| < |s|
  {
    var v :- ParseValue(SkipWhitespace(s));
    Some(Parsed(v.value, SkipWhitespace(v.rest)))
  }

  /** The members of an object and its closing brace; `s` starts just after `{`. */
  function ParseObject(s: seq<byte>): (r: Option<Parsed<map<string, JsonValue>>>)
    decreases |s|, 1
    ensures r.Some? ==> |r.value.rest| < |s|
  {
    var t := SkipWhitespace(s);
    if StartsWith(t, RightBrace) then Some(Parsed(map[], t[1..]))
    else ParseMembers(t, map[])
  }

  /** `"key" : element` pairs separated by commas, added to `acc` in order. */
  function ParseMembers(s: seq<byte>, acc: map<string, JsonValue>): (r: Option<Parsed<map<string, JsonValue>>>)
    decreases |s|, 0
    ensures r.Some? ==> |r.value.rest| < |s|
  {
    var t := SkipWhitespace(s);
    if !StartsWith(t, Quote) then None
    else
      var key :- ParseString(t[1..]);
      var u := SkipWhitespace(key.rest);
      if !StartsWith(u, Colon) then None
      else
        var v :- ParseElement(u[1..]);
        var acc' := acc[key.value := v.value];
        if StartsWith(v.rest, Comma) then ParseMembers(v.rest[1..], acc')
        else if StartsWith(v.rest, RightBrace) then Some(Parsed(acc', v.rest[1..]))
        else None
  }

  /** The elements of an array and its closing bracket; `s` starts just after `[`. */
  function ParseArray(s: seq<byte>): (r: Option<Parsed<seq<JsonValue>>>)
    decreases |s|, 3
    ensures r.Some? ==> |r.value.rest| < |s|
  {
    var t := SkipWhitespace(s);
    if StartsWith(t, RightBracket) then Some(Parsed([], t[1..]))
    else ParseItems(t, [])
  }

  function ParseItems(s: seq<byte>, acc: seq<JsonValue>): (r: Option<Parsed<seq<JsonValue>>>)
    decreases |s|, 2
    ensures r.Some? ==> |r.value.rest| < |s|
  {
    var v :- ParseElement(s);
    var acc' := acc + [v.value];
    if StartsWith(v.rest, Comma) then ParseItems(v.rest[1..], acc')
    else if StartsWith(v.rest, RightBracket) then Some(Parsed(acc', v.rest[1..]))
    else None
  }

  /** A whole JSON text: one element and nothing after it. Text holding
      nothing but whitespace, the empty text among them, is not JSON. */
  function Parse(s: seq<byte>): (r: Option<JsonValue>)
    ensures AllWhitespace(s) ==> r.None?
  {
    var e :- ParseElement(s);
    if e.rest == [] then Some(e.value) else None
  }

  /** Whitespace in front of a text never changes how it reads. */
  lemma ParseLeadingWhitespace(w: seq<byte>, s: seq<byte>)
    requires AllWhitespace(w)
    ensures Parse(w + s) == Parse(s)
  {
    SkipLeading(w, s);
  }
}
