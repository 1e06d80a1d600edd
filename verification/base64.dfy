/** Base 64 with the standard alphabet and `=` padding (section 4 of RFC 4648),
    as `Data.base64EncodedString()` writes it and `Data(base64Encoded:)` reads it. */
module Base64 {
  import opened Wrappers
  import opened Utf8

  const Pad: char := '='

  /** The 64 characters of Table 1 in RFC 4648. */
  predicate IsAlphabetChar(c: char) {
    ('A' <= c <= 'Z') || ('a' <= c <= 'z') || ('0' <= c <= '9') || c == '+' || c == '/'
  }

  /** Table 1: the character standing for a 6-bit value. */
  function SextetChar(i: nat): (c: char)
    requires i < 64
    ensures IsAlphabetChar(c)
  {
    if i < 26 then ('A' as int + i) as char
    else if i < 52 then ('a' as int + (i - 26)) as char
    else if i < 62 then ('0' as int + (i - 52)) as char
    else if i == 62 then '+'
    else '/'
  }

  /** Table 1 read backwards; `None` for every character outside the alphabet. */
  function SextetOf(c: char): (r: Option<nat>)
    ensures r.Some? <==> IsAlphabetChar(c)
    ensures r.Some? ==> r.value < 64 && SextetChar(r.value) == c
  {
    if 'A' <= c <= 'Z' then Some(c as int - 'A' as int)
    else if 'a' <= c <= 'z' then Some(c as int - 'a' as int + 26)
    else if '0' <= c <= '9' then Some(c as int - '0' as int + 52)
    else if c == '+' then Some(62)
    else if c == '/' then Some(63)
    else None
  }

  lemma SextetRoundTrip(i: nat)
    requires i < 64
    ensures SextetOf(SextetChar(i)) == Some(i)
  {
  }

  // ----------------------------------------------------------------- encode

  /** Three bytes, 24 bits, as four characters of six bits each. */
  function EncodeTriple(b0: byte, b1: byte, b2: byte): string {
    [SextetChar(b0 / 4), SextetChar((b0 % 4) * 16 + b1 / 16),
     SextetChar((b1 % 16) * 4 + b2 / 64), SextetChar(b2 % 64)]
  }

  /** The last one or two bytes: the bits are completed with zeros and the
      quantum with `=` (section 4 of RFC 4648, cases (2) and (3)). */
  function EncodeTail(b: seq<byte>): string
    requires |b| < 3
  {
    if |b| == 0 then []
    else if |b| == 1 then [SextetChar(b[0] / 4), SextetChar((b[0] % 4) * 16), Pad, Pad]
    else [SextetChar(b[0] / 4), SextetChar((b[0] % 4) * 16 + b[1] / 16), SextetChar((b[1] % 16) * 4), Pad]
  }

  /** The padded encoding: four characters per started group of three bytes,
      alphabet characters only, except for at most two `=` at the very end. */
  function Encode(b: seq<byte>): (s: string)
    ensures |s| == 4 * ((|b| + 2) / 3)
    ensures forall i :: 0 <= i < |s| ==> IsAlphabetChar(s[i]) || (s[i] == Pad && i >= |s| - 2)
  {
    if |b| < 3 then EncodeTail(b)
    else
      var head, tail := EncodeTriple(b[0], b[1], b[2]), Encode(b[3..]);
      assert forall i :: 0 <= i < 4 ==> IsAlphabetChar(head[i]);
      head + tail
  }

  /** The encoding is whole quanta of four characters, and none only for no bytes. */
  lemma EncodeQuanta(b: seq<byte>)
    ensures |Encode(b)| % 4 == 0
    ensures |Encode(b)| == 0 <==> |b| == 0
  {
    var groups := (|b| + 2) / 3;
    var n := |Encode(b)|;
    assert n == 4 * groups;
    assert n % 4 == 0 by {
      assert n == groups * 4 + 0;
    }
  }

  /** Whole groups of three bytes encode independently of what follows them. */
  lemma {:induction false} EncodeAppend(a: seq<byte>, b: seq<byte>)
    requires |a| % 3 == 0
    ensures Encode(a + b) == Encode(a) + Encode(b)
  {
    if |a| > 0 {
      assert (a + b)[3..] == a[3..] + b;
      assert (a + b)[..3] == a[..3];
      EncodeAppend(a[3..], b);
    } else {
      assert a + b == b;
    }
  }

  // ----------------------------------------------------------------- decode

  /** Four sextets, 24 bits, as three bytes. */
  function Bytes(a: nat, b: nat, c: nat, d: nat): seq<byte>
    requires a < 64 && b < 64 && c < 64 && d < 64
  {
    [a * 4 + b / 16, (b % 16) * 16 + c / 4, (c % 4) * 64 + d]
  }

  /** A quantum of four alphabet characters. */
  function DecodeQuad(q: string): (r: Option<seq<byte>>)
    requires |q| == 4
  {
    var a :- SextetOf(q[0]);
    var b :- SextetOf(q[1]);
    var c :- SextetOf(q[2]);
    var d :- SextetOf(q[3]);
    Some(Bytes(a, b, c, d))
  }

  /** The final quantum, which may end in `==` (one byte) or `=` (two bytes);
      the bits that padding leaves over must be zero. */
  function DecodeFinal(q: string): (r: Option<seq<byte>>)
    requires |q| == 4
  {
    if q[3] != Pad then DecodeQuad(q)
    else if q[2] == Pad then
      var a :- SextetOf(q[0]);
      var b :- SextetOf(q[1]);
      if b % 16 != 0 then None else Some([a * 4 + b / 16])
    else
      var a :- SextetOf(q[0]);
      var b :- SextetOf(q[1]);
      var c :- SextetOf(q[2]);
      if c % 4 != 0 then None else Some([a * 4 + b / 16, (b % 16) * 16 + c / 4])
  }

  /** Strict decoding: the length is a multiple of four, padding appears only
      in the final quantum, and every other character is in the alphabet. */
  function Decode(s: string): (r: Option<seq<byte>>)
    ensures r.Some? ==> |s| == 4 * ((|r.value| + 2) / 3)
  {
    if |s| == 0 then Some([])
    else if |s| < 4 then None
    else if |s| == 4 then DecodeFinal(s)
    else
      var head :- DecodeQuad(s[..4]);
      var tail :- Decode(s[4..]);
      Some(head + tail)
  }

  // ------------------------------------------------------------- round trips

  /** Regrouping 24 bits as four sextets and back gives the same bytes. */
  lemma SplitJoin(b0: nat, b1: nat, b2: nat)
    requires b0 < 256 && b1 < 256 && b2 < 256
    ensures var s0, s1, s2, s3 := b0 / 4, (b0 % 4) * 16 + b1 / 16, (b1 % 16) * 4 + b2 / 64, b2 % 64;
      s0 * 4 + s1 / 16 == b0 && (s1 % 16) * 16 + s2 / 4 == b1 && (s2 % 4) * 64 + s3 == b2
      && (b1 == 0 ==> s1 % 16 == 0) && (b2 == 0 ==> s2 % 4 == 0)
  {
  }

  /** Regrouping four sextets as 24 bits and back gives the same sextets. */
  lemma JoinSplit(a: nat, b: nat, c: nat, d: nat)
    requires a < 64 && b < 64 && c < 64 && d < 64
    ensures var r0, r1, r2 := a * 4 + b / 16, (b % 16) * 16 + c / 4, (c % 4) * 64 + d;
      r0 / 4 == a && (r0 % 4) * 16 + r1 / 16 == b && (r1 % 16) * 4 + r2 / 64 == c && r2 % 64 == d
      && (b % 16 == 0 ==> (r0 % 4) * 16 == b) && (c % 4 == 0 ==> (r1 % 16) * 4 == c)
  {
  }

  lemma DecodeTriple(b0: byte, b1: byte, b2: byte)
    ensures DecodeQuad(EncodeTriple(b0, b1, b2)) == Some([b0, b1, b2])
  {
    SextetRoundTrip(b0 / 4);
    SextetRoundTrip((b0 % 4) * 16 + b1 / 16);
    SextetRoundTrip((b1 % 16) * 4 + b2 / 64);
    SextetRoundTrip(b2 % 64);
    SplitJoin(b0, b1, b2);
  }

  lemma DecodeTail(b: seq<byte>)
    requires 0 < |b| < 3
    ensures DecodeFinal(EncodeTail(b)) == Some(b)
  {
    SextetRoundTrip(b[0] / 4);
    if |b| == 1 {
      SextetRoundTrip((b[0] % 4) * 16);
      SplitJoin(b[0], 0, 0);
      assert b == [b[0]];
    } else {
      SextetRoundTrip((b[0] % 4) * 16 + b[1] / 16);
      SextetRoundTrip((b[1] % 16) * 4);
      SplitJoin(b[0], b[1], 0);
      assert b == [b[0], b[1]];
    }
  }

  /** A full quantum in front of a non-empty decodable text decodes in front. */
  lemma DecodeAppend(q: string, rest: string, head: seq<byte>, tail: seq<byte>)
    requires |q| == 4 && |rest| > 0
    requires DecodeQuad(q) == Some(head) && Decode(rest) == Some(tail)
    ensures Decode(q + rest) == Some(head + tail)
  {
    var s := q + rest;
    assert s[..4] == q && s[4..] == rest;
  }

  lemma FirstThree(b: seq<byte>)
    requires |b| >= 3
    ensures b == [b[0], b[1], b[2]] + b[3..]
    ensures |b| == 3 ==> b == [b[0], b[1], b[2]]
  {
  }

  /** Decoding undoes encoding. */
  lemma {:induction false} DecodeEncode(b: seq<byte>)
    ensures Decode(Encode(b)) == Some(b)
  {
    if |b| == 0 {
    } else if |b| < 3 {
      DecodeTail(b);
    } else {
      var t := EncodeTriple(b[0], b[1], b[2]);
      var rest := Encode(b[3..]);
      var s := Encode(b);
      assert s == t + rest;
      DecodeTriple(b[0], b[1], b[2]);
      DecodeEncode(b[3..]);
      EncodeQuanta(b[3..]);
      FirstThree(b);
      if |b| == 3 {
        assert rest == [] && s == t;
        assert DecodeFinal(t) == DecodeQuad(t);
      } else {
        DecodeAppend(t, rest, [b[0], b[1], b[2]], b[3..]);
      }
    }
  }

  lemma EncodeBytes(q: string, a: nat, b: nat, c: nat, d: nat)
    requires |q| == 4 && a < 64 && b < 64 && c < 64 && d < 64
    requires SextetOf(q[0]) == Some(a) && SextetOf(q[1]) == Some(b)
    requires SextetOf(q[2]) == Some(c) && SextetOf(q[3]) == Some(d)
    ensures var r := Bytes(a, b, c, d); EncodeTriple(r[0], r[1], r[2]) == q
  {
    var r := Bytes(a, b, c, d);
    assert r[0] == a * 4 + b / 16 && r[1] == (b % 16) * 16 + c / 4 && r[2] == (c % 4) * 64 + d;
    JoinSplit(a, b, c, d);
    TripleChars(r[0], r[1], r[2], a, b, c, d);
    QuadChars(q, a, b, c, d);
  }

  /** Three bytes whose sextets are known encode as those sextets' characters. */
  lemma TripleChars(r0: byte, r1: byte, r2: byte, a: nat, b: nat, c: nat, d: nat)
    requires a < 64 && b < 64 && c < 64 && d < 64
    requires r0 / 4 == a && (r0 % 4) * 16 + r1 / 16 == b && (r1 % 16) * 4 + r2 / 64 == c && r2 % 64 == d
    ensures EncodeTriple(r0, r1, r2) == [SextetChar(a), SextetChar(b), SextetChar(c), SextetChar(d)]
  {
  }

  /** Four alphabet characters are the characters of their sextets. */
  lemma QuadChars(q: string, a: nat, b: nat, c: nat, d: nat)
    requires |q| == 4 && a < 64 && b < 64 && c < 64 && d < 64
    requires SextetOf(q[0]) == Some(a) && SextetOf(q[1]) == Some(b)
    requires SextetOf(q[2]) == Some(c) && SextetOf(q[3]) == Some(d)
    ensures q == [SextetChar(a), SextetChar(b), SextetChar(c), SextetChar(d)]
  {
  }

  /** A final quantum ending in `==` is the encoding of its one byte. */
  lemma EncodeOnePadded(q: string, r: seq<byte>)
    requires |q| == 4 && q[3] == Pad && q[2] == Pad && DecodeFinal(q) == Some(r)
    ensures Encode(r) == q
  {
    var a, b := SextetOf(q[0]).value, SextetOf(q[1]).value;
    assert r == [a * 4 + b / 16];
    JoinSplit(a, b, 0, 0);
    assert EncodeTail(r) == [SextetChar(a), SextetChar(b), Pad, Pad];
    assert q == [q[0], q[1], q[2], q[3]];
  }

  /** A final quantum ending in one `=` is the encoding of its two bytes. */
  lemma EncodeTwoPadded(q: string, r: seq<byte>)
    requires |q| == 4 && q[3] == Pad && q[2] != Pad && DecodeFinal(q) == Some(r)
    ensures Encode(r) == q
  {
    var a, b, c := SextetOf(q[0]).value, SextetOf(q[1]).value, SextetOf(q[2]).value;
    assert r == [a * 4 + b / 16, (b % 16) * 16 + c / 4];
    JoinSplit(a, b, c, 0);
    assert EncodeTail(r) == [SextetChar(a), SextetChar(b), SextetChar(c), Pad];
    assert q == [q[0], q[1], q[2], q[3]];
  }

  lemma EncodeFinal(q: string, r: seq<byte>)
    requires |q| == 4 && DecodeFinal(q) == Some(r)
    ensures Encode(r) == q
  {
    if q[3] != Pad {
      var a, b, c, d := SextetOf(q[0]).value, SextetOf(q[1]).value, SextetOf(q[2]).value, SextetOf(q[3]).value;
      EncodeBytes(q, a, b, c, d);
      assert r == [r[0], r[1], r[2]] + [];
    } else if q[2] == Pad {
      EncodeOnePadded(q, r);
    } else {
      EncodeTwoPadded(q, r);
    }
  }

  /** Encoding undoes decoding: a text decodes only if it is the encoding of
      what it decodes to, so no two texts decode to the same bytes. */
  lemma {:induction false} EncodeDecode(s: string, b: seq<byte>)
    requires Decode(s) == Some(b)
    ensures Encode(b) == s
  {
    if |s| == 0 {
    } else if |s| == 4 {
      EncodeFinal(s, b);
    } else {
      var q := s[..4];
      var head := DecodeQuad(q).value;
      var tail := Decode(s[4..]).value;
      var a, b', c, d := SextetOf(q[0]).value, SextetOf(q[1]).value, SextetOf(q[2]).value, SextetOf(q[3]).value;
      EncodeBytes(q, a, b', c, d);
      EncodeDecode(s[4..], tail);
      assert b == head + tail;
      assert b[3..] == tail;
      assert s == q + s[4..];
    }
  }

  /** The two directions together: `Decode` is exactly the inverse of `Encode`. */
  lemma DecodeIffEncode(s: string, b: seq<byte>)
    ensures Decode(s) == Some(b) <==> Encode(b) == s
  {
    if Decode(s) == Some(b) {
      EncodeDecode(s, b);
    }
    if Encode(b) == s {
      DecodeEncode(b);
    }
  }
}
