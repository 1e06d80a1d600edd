/** The compact JSON that `JSONEncoder` writes with `.withoutEscapingSlashes`:
    no whitespace, `/` left as it is, and only the characters section 7 of
    RFC 8259 requires escaped. Each writer is paired with the reader in
    `JsonText` by a lemma that reads back what was written. */
module JsonWriter {
  import opened Wrappers
  import opened Utf8
  import opened Json
  import opened JsonText

  /** A lower-case hexadecimal digit. */
  function HexDigit(d: nat): (b: byte)
    requires d < 16
    ensures HexValue(b) == Some(d)
  {
    if d < 10 then Zero + d else 0x61 + (d - 10)
  }

  /** `"` and `\` get a backslash, the control characters with a short form
      (`\b \f \n \r \t`) get it, the other control characters become `\u00xx`,
      and every other character is written as its UTF-8 bytes. */
  function EscapeChar(c: char): (r: seq<byte>)
    ensures |r| > 0 && r[0] != Quote
    ensures r[0] == Backslash <==> (c == '"' || c == '\\' || c as int < 0x20)
  {
    if c == '"' then [Backslash, Quote]
    else if c == '\\' then [Backslash, Backslash]
    else if c as int == 8 then [Backslash, 0x62]
    else if c as int == 12 then [Backslash, 0x66]
    else if c == '\n' then [Backslash, 0x6E]
    else if c == '\r' then [Backslash, 0x72]
    else if c == '\t' then [Backslash, 0x74]
    else if c as int < 0x20 then [Backslash, 0x75, Zero, Zero, HexDigit(c as int / 16), HexDigit(c as int % 16)]
    else EncodeChar(c)
  }

  function EscapeString(s: string): (r: seq<byte>)
    ensures |r| >= |s|
  {
    if |s| == 0 then [] else EscapeChar(s[0]) + EscapeString(s[1..])
  }

  /** Escaping works character by character. */
  lemma {:induction false} EscapeAppend(a: string, b: string)
    ensures EscapeString(a + b) == EscapeString(a) + EscapeString(b)
  {
    if |a| > 0 {
      assert (a + b)[1..] == a[1..] + b;
      EscapeAppend(a[1..], b);
    } else {
      assert a + b == b;
    }
  }

  /** A string value with its quotes. */
  function StringText(s: string): seq<byte> {
    [Quote] + EscapeString(s) + [Quote]
  }

  /** The decimal digits of a natural number, with no leading zero. */
  function Digits(m: nat): (r: seq<byte>)
    ensures |r| > 0 && AllDigits(r)
    ensures r[0] == Zero ==> m == 0
  {
    if m < 10 then [Zero + m] else Digits(m / 10) + [Zero + m % 10]
  }

  /** An integer as `JSONEncoder` writes an `Int`. */
  function IntText(i: int): seq<byte> {
    if i < 0 then [Minus] + Digits(-i) else Digits(i)
  }

  /** An object with a single member whose value is already written out, with
      whitespace runs `w0`..`w3` between its tokens as a pretty-printing
      encoder lays it out: `{\n  "port": 9635\n}` has `w0 == "\n  "`,
      `w1 == ""`, `w2 == " "` and `w3 == "\n"`. */
  function SpacedObjectText(w0: seq<byte>, key: string, w1: seq<byte>, w2: seq<byte>,
                            valueText: seq<byte>, w3: seq<byte>): seq<byte> {
    [LeftBrace] + w0 + StringText(key) + w1 + [Colon] + w2 + valueText + w3 + [RightBrace]
  }

  /** The compact form: no whitespace at all. */
  function ObjectText(key: string, valueText: seq<byte>): seq<byte> {
    SpacedObjectText([], key, [], [], valueText, [])
  }

  // --------------------------------------------------------------- read back

  /** Every escape written for a character reads back as that character. */
  lemma ParseEscapedChar(c: char, rest: seq<byte>)
    ensures ParseStringChar(EscapeChar(c) + rest) == Some(Parsed(c, rest))
  {
    var e := EscapeChar(c);
    var s := e + rest;
    if c == '"' || c == '\\' || c as int == 8 || c as int == 12 || c == '\n' || c == '\r' || c == '\t' {
      assert s[0] == Backslash && s[1] == e[1] && s[2..] == rest;
    } else if c as int < 0x20 {
      assert s[..6] == e && s[6..] == rest;
      assert s[2..][0] == Zero && s[2..][1] == Zero && s[2..][2] == e[4] && s[2..][3] == e[5];
      assert CodeUnit(s[2..]) == Some(c as int);
    } else {
      DecodeEncodeChar(c, rest);
    }
  }

  /** A string body written by `EscapeString` and closed by a quote reads back
      as the original characters, and the reader stops right after the quote. */
  lemma {:induction false} ParseEscapedString(s: string, rest: seq<byte>)
    ensures ParseString(EscapeString(s) + [Quote] + rest) == Some(Parsed(s, rest))
  {
    var t := EscapeString(s) + [Quote] + rest;
    if |s| == 0 {
      assert t == [Quote] + rest;
    } else {
      var tail := EscapeString(s[1..]) + [Quote] + rest;
      assert t == EscapeChar(s[0]) + tail;
      ParseEscapedChar(s[0], tail);
      ParseEscapedString(s[1..], rest);
      assert [s[0]] + s[1..] == s;
    }
  }

  /** `ParseValue` reads a written string back. */
  lemma ParseStringText(s: string, rest: seq<byte>)
    ensures ParseValue(StringText(s) + rest) == Some(Parsed(JString(s), rest))
  {
    var t := StringText(s) + rest;
    assert t[1..] == EscapeString(s) + [Quote] + rest;
    ParseEscapedString(s, rest);
  }

  lemma {:induction false} DigitsValueOfDigits(m: nat)
    ensures DigitsValue(Digits(m)) == m
  {
    var d := Digits(m);
    if m >= 10 {
      DigitsValueOfDigits(m / 10);
      assert d[..|d| - 1] == Digits(m / 10);
    }
  }

  lemma {:induction false} DigitRunAppend(d: seq<byte>, rest: seq<byte>)
    requires AllDigits(d)
    requires !(|rest| > 0 && IsDigit(rest[0]))
    ensures DigitRun(d + rest) == |d|
  {
    if |d| > 0 {
      assert (d + rest)[1..] == d[1..] + rest;
      DigitRunAppend(d[1..], rest);
    } else {
      assert d + rest == rest;
    }
  }

  /** What may follow a number without becoming part of it. */
  predicate EndsNumber(rest: seq<byte>) {
    |rest| == 0 || !(IsDigit(rest[0]) || rest[0] == Dot || rest[0] == 0x65 || rest[0] == 0x45)
  }

  lemma ParseDigitsText(m: nat, rest: seq<byte>)
    requires EndsNumber(rest)
    ensures ParseIntegerDigits(Digits(m) + rest) == Some(Parsed(Digits(m), rest))
  {
    var d := Digits(m);
    var a := d + rest;
    DigitRunAppend(d, rest);
    assert a[..|d|] == d && a[|d|..] == rest;
  }

  /** `ParseNumber` reads a written integer back as the number `i × 10^0`. */
  lemma ParseIntText(i: int, rest: seq<byte>)
    requires EndsNumber(rest)
    ensures ParseNumber(IntText(i) + rest) == Some(Parsed(Number(i, 0), rest))
  {
    var m: nat := if i < 0 then -i else i;
    var d := Digits(m);
    var s := IntText(i) + rest;
    var a := if i < 0 then s[1..] else s;
    assert a == d + rest && StartsWith(s, Minus) == (i < 0) by {
      if i < 0 {
        assert s == [Minus] + (d + rest);
      }
    }
    assert ParseIntegerDigits(a) == Some(Parsed(d, rest)) by {
      ParseDigitsText(m, rest);
    }
    assert ParseFraction(rest) == Some(Parsed([], rest));
    assert ParseExponent(rest) == Some(Parsed(0, rest));
    assert DigitsValue(d + []) == m by {
      assert d + [] == d;
      DigitsValueOfDigits(m);
    }
  }

  /** A written integer is read back as a value, whatever may end a number
      after it. */
  lemma ParseIntValue(i: int, rest: seq<byte>)
    requires EndsNumber(rest)
    ensures ParseValue(IntText(i) + rest) == Some(Parsed(IntValue(i), rest))
  {
    ParseIntText(i, rest);
    var t := IntText(i);
    assert t[0] == Minus || IsDigit(t[0]);
  }

  /** A text that is `{` followed by a complete object body is that object. */
  lemma ParseBracedObject(text: seq<byte>, s: seq<byte>, o: map<string, JsonValue>)
    requires text == [LeftBrace] + s
    requires ParseObject(s) == Some(Parsed(o, []))
    ensures Parse(text) == Some(JObject(o))
  {
    assert text[1..] == s;
    assert ParseValue(text) == Some(Parsed(JObject(o), []));
    SkipNoWhitespace(text);
    assert SkipWhitespace([]) == [];
  }

  lemma SpacedShape(w0: seq<byte>, e: seq<byte>, w1: seq<byte>, w2: seq<byte>, vt: seq<byte>, w3: seq<byte>)
    ensures [LeftBrace] + w0 + ([Quote] + e + [Quote]) + w1 + [Colon] + w2 + vt + w3 + [RightBrace]
         == [LeftBrace] + (w0 + ([Quote] + (e + [Quote] + (w1 + ([Colon] + (w2 + (vt + (w3 + [RightBrace]))))))))
  {
  }

  lemma ParseSpacedMember(s: seq<byte>, body: seq<byte>, key: string, after: seq<byte>, vt: seq<byte>, v: JsonValue)
    requires s == [Quote] + body
    requires ParseString(body) == Some(Parsed(key, after))
    requires SkipWhitespace(after) == [Colon] + vt
    requires ParseElement(vt) == Some(Parsed(v, [RightBrace]))
    ensures ParseMembers(s, map[]) == Some(Parsed(map[key := v], []))
  {
    SkipNoWhitespace(s);
    assert s[1..] == body;
    var u := [Colon] + vt;
    assert u[1..] == vt;
    var acc := map[][key := v];
    assert !StartsWith([RightBrace], Comma) && StartsWith([RightBrace], RightBrace);
    assert [RightBrace][1..] == [];
  }

  /** A value between two whitespace runs, followed by `}`, is one element. */
  lemma ParseSpacedElement(w2: seq<byte>, valueText: seq<byte>, w3: seq<byte>, v: JsonValue)
    requires AllWhitespace(w2) && AllWhitespace(w3)
    requires |valueText| > 0 && !IsWhitespace(valueText[0])
    requires ParseValue(valueText + (w3 + [RightBrace])) == Some(Parsed(v, w3 + [RightBrace]))
    ensures ParseElement(w2 + (valueText + (w3 + [RightBrace]))) == Some(Parsed(v, [RightBrace]))
  {
    var t := valueText + (w3 + [RightBrace]);
    SkipTo(w2, t);
    SkipTo(w3, [RightBrace]);
  }

  /** A one-member object reads back whatever whitespace separates its tokens. */
  lemma ParseSpacedObjectText(w0: seq<byte>, key: string, w1: seq<byte>, w2: seq<byte>,
                              valueText: seq<byte>, w3: seq<byte>, v: JsonValue)
    requires AllWhitespace(w0) && AllWhitespace(w1) && AllWhitespace(w2) && AllWhitespace(w3)
    requires |valueText| > 0 && !IsWhitespace(valueText[0])
    requires ParseValue(valueText + (w3 + [RightBrace])) == Some(Parsed(v, w3 + [RightBrace]))
    ensures Parse(SpacedObjectText(w0, key, w1, w2, valueText, w3)) == Some(JObject(map[key := v]))
  {
    var vt := w2 + (valueText + (w3 + [RightBrace]));
    var after := w1 + ([Colon] + vt);
    var e := EscapeString(key);
    var body := e + [Quote] + after;
    var q := [Quote] + body;
    var s := w0 + q;
    SpacedShape(w0, e, w1, w2, valueText, w3);
    ParseSpacedElement(w2, valueText, w3, v);
    SkipTo(w1, [Colon] + vt);
    SkipTo(w0, q);
    ParseEscapedString(key, after);
    ParseSpacedMember(q, body, key, after, vt, v);
    ParseBracedObject(SpacedObjectText(w0, key, w1, w2, valueText, w3), s, map[key := v]);
  }

  /** A one-member object written by `ObjectText` parses back to that member. */
  lemma ParseObjectText(key: string, valueText: seq<byte>, v: JsonValue)
    requires |valueText| > 0 && !IsWhitespace(valueText[0])
    requires ParseValue(valueText + [RightBrace]) == Some(Parsed(v, [RightBrace]))
    ensures Parse(ObjectText(key, valueText)) == Some(JObject(map[key := v]))
  {
    assert [] + [RightBrace] == [RightBrace];
    ParseSpacedObjectText([], key, [], [], valueText, [], v);
  }
}
