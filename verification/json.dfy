/** The JSON data model (section 3 of RFC 8259) as Foundation's `JSONDecoder`
    hands it to a `Decodable` type, and the conversions the telemetry and
    handshake decoders ask of it. */
module Json {
  import opened Wrappers

  /** A JSON number kept exactly as written: the value `mantissa × 10^exponent`
      (`-12.50` is `Number(-1250, -2)`). Fields the source declares `Double` or
      `Float` hold this value unconverted. */
  datatype Number = Number(mantissa: int, exponent: int)

  /** An object keeps one value per key; when a key repeats, the later member wins. */
  datatype JsonValue =
    | JNull
    | JBool(b: bool)
    | JNumber(n: Number)
    | JString(s: string)
    | JArray(items: seq<JsonValue>)
    | JObject(fields: map<string, JsonValue>)

  function Pow10(e: nat): (r: nat)
    ensures r >= 1
  {
    if e == 0 then 1 else 10 * Pow10(e - 1)
  }

  /** `i` is the value of `n`, compared without dividing. */
  ghost predicate HasValue(n: Number, i: int) {
    if n.exponent >= 0 then i == n.mantissa * Pow10(n.exponent)
    else i * Pow10(-n.exponent) == n.mantissa
  }

  /** The integer a number denotes, if it denotes one: `3`, `3.0` and `0.3e1`
      all denote 3, `3.5` denotes none. */
  function IntegralValue(n: Number): (r: Option<int>)
    ensures r.Some? ==> HasValue(n, r.value)
    ensures r.None? ==> forall i :: !HasValue(n, i)
  {
    if n.exponent >= 0 then Some(n.mantissa * Pow10(n.exponent))
    else
      var d := Pow10(-n.exponent);
      if n.mantissa % d == 0 then Some(n.mantissa / d)
      else
        NotMultiple(n.mantissa, d);
        None
  }

  lemma NotMultiple(m: int, d: nat)
    requires d >= 1 && m % d != 0
    ensures forall i :: i * d != m
  {
    forall i ensures i * d != m {
      if i * d == m {
        MultipleMod(i, d);
      }
    }
  }

  lemma MultipleMod(i: int, d: nat)
    requires d >= 1
    ensures (i * d) % d == 0
  {
    var q := (i * d) / d;
    var r := (i * d) % d;
    assert i * d == q * d + r && 0 <= r < d;
    var k := i - q;
    assert k * d == r by { assert k * d == i * d - q * d; }
    ProductBound(k, d);
  }

  /** A non-zero multiple of `d` is at least `d` away from zero. */
  lemma ProductBound(k: int, d: nat)
    requires d >= 1
    ensures k > 0 ==> k * d >= d
    ensures k < 0 ==> k * d <= -(d as int)
  {
    if k > 0 {
      assert k * d >= 1 * d;
    } else if k < 0 {
      assert k * d <= (-1) * d;
    }
  }

  /** A number has at most one integer value. */
  lemma OnlyValue(n: Number, i: int)
    requires HasValue(n, i)
    ensures forall j :: HasValue(n, j) ==> j == i
  {
    forall j | HasValue(n, j) ensures j == i {
      if n.exponent < 0 {
        var d := Pow10(-n.exponent);
        var k := j - i;
        assert k * d == 0 by { assert k * d == j * d - i * d; }
        ProductBound(k, d);
      }
    }
  }

  const Int64Min: int := -0x8000_0000_0000_0000
  const Int64Max: int := 0x7FFF_FFFF_FFFF_FFFF

  /** Swift's `Int` on the 64-bit platforms the app targets. */
  predicate IsInt64(i: int) {
    Int64Min <= i <= Int64Max
  }

  /** `v` is a number whose value is an integer that fits in `Int`. */
  ghost predicate HoldsInt64(v: JsonValue) {
    v.JNumber? && exists i :: HasValue(v.n, i) && IsInt64(i)
  }

  /** What `decode(Int.self)` makes of a value: a number whose value is an
      integer that fits in `Int`; `null`, booleans, strings and fractions fail. */
  function AsInt(v: JsonValue): (r: Option<int>)
    ensures r.Some? ==> v.JNumber? && HasValue(v.n, r.value) && IsInt64(r.value)
    ensures HoldsInt64(v) ==> r.Some?
    ensures v.JNumber? && v.n.exponent == 0 && IsInt64(v.n.mantissa) ==> r == Some(v.n.mantissa)
  {
    if v.JNumber? then
      match IntegralValue(v.n)
      case Some(i) =>
        if IsInt64(i) then Some(i)
        else
          OnlyValue(v.n, i);
          None
      case None => None
    else None
  }

  /** The number literal with value `i`, as an encoder writes an `Int`. */
  function IntValue(i: int): JsonValue {
    JNumber(Number(i, 0))
  }
}
