/** The port-discovery handshake with Trimble Mobile Manager: the request
    half builds a `tmmsocketserverport://` URL whose query is base 64 of the
    JSON request `{"returl": …}`, and the response half reads a return URL
    whose query is base 64 of `{"port": n}`. */
module PortHandshake {
  import opened Wrappers
  import opened Utf8
  import opened Json
  import JsonText
  import opened JsonWriter
  import Base64

  /** Scheme, host and query separator of every request URL. */
  const RequestPrefix: string := "tmmsocketserverport://trimble.TMM.ios?"

  /** `TMMServerSocketPortRequest` as compact JSON text, `{"returl":"…"}`. It
      reads back as the object with the one member `returl` holding the
      original string, whatever characters that string contains. */
  function RequestJson(returl: string): (r: seq<byte>)
    ensures JsonText.Parse(r) == Some(RequestValue(returl))
  {
    ParseStringText(returl, [JsonText.RightBrace]);
    ParseObjectText("returl", StringText(returl), JString(returl));
    ObjectText("returl", StringText(returl))
  }

  /** The JSON value of a request: one member `returl` holding the string. */
  function RequestValue(returl: string): JsonValue {
    JObject(map["returl" := JString(returl)])
  }

  /** The bytes of a request are the writer's one-member object. */
  lemma RequestJsonBody(returl: string)
    ensures RequestJson(returl) == ObjectText("returl", StringText(returl))
  {
  }

  /** `encode64()`: the request JSON in base 64. */
  function Encode64(returl: string): (r: string)
    ensures |r| % 4 == 0 && |r| > 0
    ensures forall i :: 0 <= i < |r| ==> Base64.IsAlphabetChar(r[i]) || r[i] == Base64.Pad
  {
    var data := RequestJson(returl);
    Base64.EncodeQuanta(data);
    Base64.Encode(data)
  }

  /** `makeTMMRequestURL()`: the fixed prefix followed by the base-64 request.
      Every character after the prefix is one a URL query may hold unescaped
      (section 3.4 of RFC 3986), so `URL(string:)` accepts the text as it is. */
  function MakeRequestUrl(returl: string): (url: string)
    ensures |url| > |RequestPrefix| && url[..|RequestPrefix|] == RequestPrefix
    ensures forall i :: |RequestPrefix| <= i < |url| ==> Base64.IsAlphabetChar(url[i]) || url[i] == Base64.Pad
  {
    RequestPrefix + Encode64(returl)
  }

  // ------------------------------------------------------------------ query

  /** The longest prefix of `s` in which `c` does not occur. */
  function PrefixWithout(s: string, c: char): (r: string)
    ensures |r| <= |s| && r == s[..|r|] && c !in r
    ensures |r| < |s| ==> s[|r|] == c
  {
    if |s| == 0 || s[0] == c then []
    else
      var tail := PrefixWithout(s[1..], c);
      assert s[..|tail| + 1] == [s[0]] + s[1..][..|tail|];
      [s[0]] + tail
  }

  /** `URL.query` (section 3.4 of RFC 3986): what follows the first `?` up to
      the fragment's `#`; none when no `?` comes before the fragment. The query
      is returned as written, without percent-decoding. */
  function Query(url: string): (r: Option<string>)
    ensures r.None? <==> '?' !in PrefixWithout(url, '#')
    ensures r.Some? ==> '#' !in r.value
  {
    var h := PrefixWithout(url, '#');
    var p := PrefixWithout(h, '?');
    if |p| == |h| then None else Some(h[|p| + 1..])
  }

  /** A URL built as `p?q` or `p?q#f` has query `q`. */
  lemma QueryOfParts(p: string, q: string, f: string)
    requires '?' !in p && '#' !in p && '#' !in q
    requires f == [] || f[0] == '#'
    ensures Query(p + ['?'] + q + f) == Some(q)
  {
    var url := p + ['?'] + q + f;
    var h := p + ['?'] + q;
    assert url == h + f;
    PrefixWithoutStops(h, f, '#');
    PrefixWithoutStops(p, ['?'] + q, '?');
    assert h == p + (['?'] + q);
    assert h[|p| + 1..] == q;
  }

  lemma {:induction false} PrefixWithoutStops(a: string, b: string, c: char)
    requires c !in a && (b == [] || b[0] == c)
    ensures PrefixWithout(a + b, c) == a
  {
    if |a| == 0 {
      assert a + b == b;
    } else {
      assert (a + b)[1..] == a[1..] + b;
      PrefixWithoutStops(a[1..], b, c);
      assert [a[0]] + a[1..] == a;
    }
  }

  // --------------------------------------------------------------- response

  /** `TMMServerSocketPortResponse` read from JSON: an object whose `port`
      member is an `Int`; other members are ignored. */
  function PortOf(v: JsonValue): Option<int> {
    if v.JObject? && "port" in v.fields then AsInt(v.fields["port"]) else None
  }

  /** `JSONDecoder().decode(TMMServerSocketPortResponse.self, from:)`: the data
      must be JSON text holding an object whose `port` is an integer that fits
      in `Int`; other members are ignored. */
  function ResponsePort(data: seq<byte>): (r: Option<int>)
    ensures var t := JsonText.Parse(data);
      r.Some? <==> t.Some? && t.value.JObject? && "port" in t.value.fields && HoldsInt64(t.value.fields["port"])
    ensures r.Some? ==> HasValue(JsonText.Parse(data).value.fields["port"].n, r.value) && IsInt64(r.value)
  {
    var v :- JsonText.Parse(data);
    PortOf(v)
  }

  /** `decode(response:)`: each of the three guards that fails, no query, no
      valid base 64, no JSON object with an integer `port`, gives `nil`. */
  function DecodeResponse(url: string): (r: Option<int>)
    ensures r.Some? ==> IsInt64(r.value)
    ensures Query(url).None? ==> r.None?
    ensures Query(url).Some? && Base64.Decode(Query(url).value).None? ==> r.None?
  {
    var q :- Query(url);
    var data :- Base64.Decode(q);
    ResponsePort(data)
  }

  /** The response the companion sends for port `n`, written as `JSONEncoder`
      would write it. */
  function ResponseJson(n: int): seq<byte> {
    ObjectText("port", IntText(n))
  }

  // ------------------------------------------------------------- properties

  /** The request prefix ends in the query's `?` and holds no other `?` or `#`. */
  lemma RequestPrefixShape()
    ensures var h := RequestPrefix[..|RequestPrefix| - 1];
      RequestPrefix == h + ['?'] && '?' !in h && '#' !in h
  {
  }

  /** After the request prefix, a query without `#` is the whole rest. */
  lemma PrefixedQuery(q: string)
    requires '#' !in q
    ensures Query(RequestPrefix + q) == Some(q)
  {
    RequestPrefixShape();
    var h := RequestPrefix[..|RequestPrefix| - 1];
    assert RequestPrefix + q == h + ['?'] + q + [];
    QueryOfParts(h, q, []);
  }

  /** Base 64 text never holds the `#` that would start a fragment. */
  lemma NoFragmentInBase64(q: string)
    requires forall i :: 0 <= i < |q| ==> Base64.IsAlphabetChar(q[i]) || q[i] == Base64.Pad
    ensures '#' !in q
  {
  }

  /** The query of a request URL is exactly `encode64()`. */
  lemma RequestUrlQuery(returl: string)
    ensures Query(MakeRequestUrl(returl)) == Some(Encode64(returl))
  {
    var q := Encode64(returl);
    NoFragmentInBase64(q);
    PrefixedQuery(q);
  }

  /** What the companion recovers from a request URL: the query is
      `encode64()`, it decodes to the request's JSON bytes, and those read back
      as `{"returl": returl}`. */
  lemma RequestRoundTrip(returl: string)
    ensures Query(MakeRequestUrl(returl)) == Some(Encode64(returl))
    ensures Base64.Decode(Encode64(returl)) == Some(RequestJson(returl))
    ensures JsonText.Parse(RequestJson(returl)) == Some(RequestValue(returl))
  {
    RequestUrlQuery(returl);
    Base64.DecodeEncode(RequestJson(returl));
  }

  /** A URL built as `p?q#f` around base 64 of `data` decodes to whatever
      `data` holds, whatever its scheme, host and fragment. */
  lemma DecodeResponseOfData(p: string, data: seq<byte>, f: string)
    requires '?' !in p && '#' !in p && (f == [] || f[0] == '#')
    ensures DecodeResponse(p + ['?'] + Base64.Encode(data) + f) == ResponsePort(data)
  {
    var q := Base64.Encode(data);
    assert '#' !in q;
    QueryOfParts(p, q, f);
    Base64.DecodeEncode(data);
  }

  /** A response holding port `n`, laid out with any whitespace between its
      tokens, reads back as `n`. */
  lemma SpacedResponsePort(w0: seq<byte>, w1: seq<byte>, w2: seq<byte>, w3: seq<byte>, n: int)
    requires JsonText.AllWhitespace(w0) && JsonText.AllWhitespace(w1)
    requires JsonText.AllWhitespace(w2) && JsonText.AllWhitespace(w3)
    requires IsInt64(n)
    ensures ResponsePort(SpacedObjectText(w0, "port", w1, w2, IntText(n), w3)) == Some(n)
  {
    var closing := w3 + [JsonText.RightBrace];
    assert EndsNumber(closing) by {
      assert closing[0] == if |w3| > 0 then w3[0] else JsonText.RightBrace;
    }
    ParseIntValue(n, closing);
    ParseSpacedObjectText(w0, "port", w1, w2, IntText(n), w3, IntValue(n));
  }

  /** Any URL whose query is base 64 of the compact response for port `n`
      decodes to `n`. */
  lemma ResponseRoundTrip(p: string, n: int, f: string)
    requires '?' !in p && '#' !in p && (f == [] || f[0] == '#')
    requires IsInt64(n)
    ensures DecodeResponse(p + ['?'] + Base64.Encode(ResponseJson(n)) + f) == Some(n)
  {
    DecodeResponseOfData(p, ResponseJson(n), f);
    SpacedResponsePort([], [], [], [], n);
  }

  /** The same for a pretty-printed response such as `{\n  "port": 9635\n}`:
      whitespace between the tokens is accepted. */
  lemma SpacedResponseRoundTrip(p: string, w0: seq<byte>, w1: seq<byte>, w2: seq<byte>, w3: seq<byte>, n: int, f: string)
    requires '?' !in p && '#' !in p && (f == [] || f[0] == '#')
    requires JsonText.AllWhitespace(w0) && JsonText.AllWhitespace(w1)
    requires JsonText.AllWhitespace(w2) && JsonText.AllWhitespace(w3)
    requires IsInt64(n)
    ensures DecodeResponse(p + ['?'] + Base64.Encode(SpacedObjectText(w0, "port", w1, w2, IntText(n), w3)) + f) == Some(n)
  {
    DecodeResponseOfData(p, SpacedObjectText(w0, "port", w1, w2, IntText(n), w3), f);
    SpacedResponsePort(w0, w1, w2, w3, n);
  }

  /** `decode(response:)` yields `n` exactly when the URL's query is the base-64
      encoding of some JSON text whose `port` is `n`. */
  lemma DecodeResponseExactly(url: string, n: int)
    ensures DecodeResponse(url) == Some(n) <==>
      exists data :: Query(url) == Some(Base64.Encode(data)) && ResponsePort(data) == Some(n)
  {
    if DecodeResponse(url) == Some(n) {
      var q := Query(url).value;
      var data := Base64.Decode(q).value;
      Base64.EncodeDecode(q, data);
    }
    if exists data :: Query(url) == Some(Base64.Encode(data)) && ResponsePort(data) == Some(n) {
      var data :| Query(url) == Some(Base64.Encode(data)) && ResponsePort(data) == Some(n);
      Base64.DecodeEncode(data);
    }
  }
}
