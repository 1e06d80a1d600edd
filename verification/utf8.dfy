/** Bytes and the UTF-8 encoding of Unicode scalar values (section 3 of RFC 3629).
    Swift's `String.data(using: .utf8)` turns text into these bytes, and the JSON
    reader turns the bytes of a string back into characters. */
module Utf8 {
  import opened Wrappers

  /** One octet of a `Data` buffer. */
  type byte = x: int | 0 <= x < 0x100

  /** A value read off the front of a byte sequence, with what is left. */
  datatype Parsed<+T> = Parsed(value: T, rest: seq<byte>)

  predicate IsContinuation(b: byte) {
    0x80 <= b < 0xC0
  }

  /** The shortest-form encoding of one scalar value: one byte below U+0080,
      then two, three or four bytes with 6 payload bits per continuation byte. */
  function EncodeChar(c: char): (r: seq<byte>)
    ensures 1 <= |r| <= 4
    ensures (c as int < 0x80) <==> |r| == 1
    ensures |r| == 1 ==> r[0] == c as int
    ensures |r| > 1 ==> 0xC2 <= r[0] < 0xF5 && forall i :: 1 <= i < |r| ==> IsContinuation(r[i])
  {
    var n := c as int;
    if n < 0x80 then [n]
    else if n < 0x800 then [0xC0 + n / 0x40, 0x80 + n % 0x40]
    else if n < 0x1_0000 then [0xE0 + n / 0x1000, 0x80 + (n / 0x40) % 0x40, 0x80 + n % 0x40]
    else [0xF0 + n / 0x4_0000, 0x80 + (n / 0x1000) % 0x40, 0x80 + (n / 0x40) % 0x40, 0x80 + n % 0x40]
  }

  function EncodeString(s: string): (r: seq<byte>)
    ensures |s| <= |r| <= 4 * |s|
  {
    if |s| == 0 then [] else EncodeChar(s[0]) + EncodeString(s[1..])
  }

  /** Reads one well-formed UTF-8 sequence: overlong forms, surrogates and values
      above U+10FFFF are refused, so a byte string decodes only in the way
      `EncodeChar` would have written it. */
  function DecodeChar(s: seq<byte>): (r: Option<Parsed<char>>)
    ensures r.Some? ==> s == EncodeChar(r.value.value) + r.value.rest
  {
    if |s| == 0 then None
    else if s[0] < 0x80 then Some(Parsed(s[0] as char, s[1..]))
    else if 0xC0 <= s[0] < 0xE0 then
      if |s| < 2 || !IsContinuation(s[1]) then None
      else
        var n := (s[0] as int - 0xC0) * 0x40 + (s[1] as int - 0x80);
        if n < 0x80 then None
        else
          Encode2(s[0], s[1], n);
          Some(Parsed(n as char, s[2..]))
    else if 0xE0 <= s[0] < 0xF0 then
      if |s| < 3 || !IsContinuation(s[1]) || !IsContinuation(s[2]) then None
      else
        var n := (s[0] as int - 0xE0) * 0x1000 + (s[1] as int - 0x80) * 0x40 + (s[2] as int - 0x80);
        if n < 0x800 || 0xD800 <= n < 0xE000 then None
        else
          Encode3(s[0], s[1], s[2], n);
          Some(Parsed(n as char, s[3..]))
    else if 0xF0 <= s[0] < 0xF8 then
      if |s| < 4 || !IsContinuation(s[1]) || !IsContinuation(s[2]) || !IsContinuation(s[3]) then None
      else
        var n := (s[0] as int - 0xF0) * 0x4_0000 + (s[1] as int - 0x80) * 0x1000 + (s[2] as int - 0x80) * 0x40 + (s[3] as int - 0x80);
        if n < 0x1_0000 || n >= 0x11_0000 then None
        else
          Encode4(s[0], s[1], s[2], s[3], n);
          Some(Parsed(n as char, s[4..]))
    else None
  }

  lemma Encode2(b0: byte, b1: byte, n: int)
    requires 0xC0 <= b0 < 0xE0 && IsContinuation(b1)
    requires n == (b0 as int - 0xC0) * 0x40 + (b1 as int - 0x80) && 0x80 <= n
    ensures n < 0x800 && EncodeChar(n as char) == [b0, b1]
  {
  }

  lemma Encode3(b0: byte, b1: byte, b2: byte, n: int)
    requires 0xE0 <= b0 < 0xF0 && IsContinuation(b1) && IsContinuation(b2)
    requires n == (b0 as int - 0xE0) * 0x1000 + (b1 as int - 0x80) * 0x40 + (b2 as int - 0x80)
    requires 0x800 <= n && !(0xD800 <= n < 0xE000)
    ensures EncodeChar(n as char) == [b0, b1, b2]
  {
    assert n / 0x40 == (b0 as int - 0xE0) * 0x40 + (b1 as int - 0x80);
  }

  lemma Encode4(b0: byte, b1: byte, b2: byte, b3: byte, n: int)
    requires 0xF0 <= b0 < 0xF8 && IsContinuation(b1) && IsContinuation(b2) && IsContinuation(b3)
    requires n == (b0 as int - 0xF0) * 0x4_0000 + (b1 as int - 0x80) * 0x1000 + (b2 as int - 0x80) * 0x40 + (b3 as int - 0x80)
    requires 0x1_0000 <= n < 0x11_0000
    ensures EncodeChar(n as char) == [b0, b1, b2, b3]
  {
    assert n / 0x40 == (b0 as int - 0xF0) * 0x1000 + (b1 as int - 0x80) * 0x40 + (b2 as int - 0x80);
    assert n / 0x1000 == (b0 as int - 0xF0) * 0x40 + (b1 as int - 0x80);
  }

  /** Decoding reads back exactly what encoding wrote, whatever follows it. */
  lemma DecodeEncodeChar(c: char, rest: seq<byte>)
    ensures DecodeChar(EncodeChar(c) + rest) == Some(Parsed(c, rest))
  {
    var n := c as int;
    if n < 0x80 {
    } else if n < 0x800 {
      DecodeTwo(c, rest);
    } else if n < 0x1_0000 {
      DecodeThree(c, rest);
    } else {
      DecodeFour(c, rest);
    }
  }

  lemma DecodeTwo(c: char, rest: seq<byte>)
    requires 0x80 <= c as int < 0x800
    ensures DecodeChar(EncodeChar(c) + rest) == Some(Parsed(c, rest))
  {
    var n := c as int;
    var s := EncodeChar(c) + rest;
    assert s[0] == 0xC0 + n / 0x40 && s[1] == 0x80 + n % 0x40 && s[2..] == rest;
    assert (s[0] as int - 0xC0) * 0x40 + (s[1] as int - 0x80) == n;
  }

  lemma DecodeThree(c: char, rest: seq<byte>)
    requires 0x800 <= c as int < 0x1_0000
    ensures DecodeChar(EncodeChar(c) + rest) == Some(Parsed(c, rest))
  {
    var n := c as int;
    var s := EncodeChar(c) + rest;
    assert s[0] == 0xE0 + n / 0x1000 && s[1] == 0x80 + (n / 0x40) % 0x40 && s[2] == 0x80 + n % 0x40;
    assert s[3..] == rest;
    assert (s[0] as int - 0xE0) * 0x1000 + (s[1] as int - 0x80) * 0x40 + (s[2] as int - 0x80) == n;
  }

  lemma DecodeFour(c: char, rest: seq<byte>)
    requires 0x1_0000 <= c as int
    ensures DecodeChar(EncodeChar(c) + rest) == Some(Parsed(c, rest))
  {
    var n := c as int;
    var s := EncodeChar(c) + rest;
    assert s[0] == 0xF0 + n / 0x4_0000 && s[1] == 0x80 + (n / 0x1000) % 0x40;
    assert s[2] == 0x80 + (n / 0x40) % 0x40 && s[3] == 0x80 + n % 0x40;
    assert s[4..] == rest;
    Join4(n);
  }

  /** The four groups of bits of a supplementary-plane value add back up to it. */
  lemma Join4(n: nat)
    ensures (n / 0x4_0000) * 0x4_0000 + ((n / 0x1000) % 0x40) * 0x1000 + ((n / 0x40) % 0x40) * 0x40 + n % 0x40 == n
  {
    var q := n / 0x40;
    assert n == q * 0x40 + n % 0x40;
    assert q / 0x40 == n / 0x1000;
    assert q == (q / 0x40) * 0x40 + q % 0x40;
    assert (q / 0x40) / 0x40 == n / 0x4_0000;
    assert q / 0x40 == ((q / 0x40) / 0x40) * 0x40 + (q / 0x40) % 0x40;
  }
}
