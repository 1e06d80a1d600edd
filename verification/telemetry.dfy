/** `PseudoExtras`: one GNSS position report from Trimble Mobile Manager,
    decoded from a JSON object by `JSONDecoder`. Decoding is all or nothing:
    a record comes out only when every field it needs is there with the right
    type. */
module Telemetry {
  import opened Wrappers
  import opened Utf8
  import opened Json
  import JsonText

  // ------------------------------------------------------------ diffStatus

  /** The receiver's differential-correction state. */
  datatype DiffStatus = Autonomous | DGPS | Fixed | Float | Unknown

  /** The integer code of each named status; `Unknown` has none. */
  function DiffStatusCode(d: DiffStatus): Option<int> {
    match d
    case Autonomous => Some(1)
    case DGPS => Some(2)
    case Fixed => Some(4)
    case Float => Some(5)
    case Unknown => None
  }

  /** `DiffStatus.init(from:)`: the value is read as an `Int` with `try?`, so a
      value that is not an integer (a string, `null`, a fraction) is `nil`
      rather than an error, and every value without a named case, `nil`
      included, is `Unknown`. Decoding a present value never fails. */
  function DecodeDiffStatus(v: JsonValue): (d: DiffStatus)
    ensures forall e :: e != DiffStatus.Unknown ==> (d == e <==> AsInt(v) == DiffStatusCode(e))
  {
    match AsInt(v)
    case Some(1) => Autonomous
    case Some(2) => DGPS
    case Some(4) => Fixed
    case Some(5) => Float
    case _ => DiffStatus.Unknown
  }

  // ------------------------------------------------------ subscriptionType

  /** The receiver's correction subscription. */
  datatype SubscriptionType =
    | Free | Meter | Submeter | Decimeter | Precision | PrecisionOnDemand | GNSS | Unknown

  /** The integer code of each named subscription; `Unknown` has none. */
  function SubscriptionCode(t: SubscriptionType): Option<int> {
    match t
    case Free => Some(0)
    case Meter => Some(1)
    case Submeter => Some(2)
    case Decimeter => Some(3)
    case Precision => Some(4)
    case PrecisionOnDemand => Some(5)
    case GNSS => Some(100)
    case Unknown => None
  }

  /** `SubscriptionType.init(from:)`, built like `DecodeDiffStatus`. */
  function DecodeSubscription(v: JsonValue): (t: SubscriptionType)
    ensures forall e :: e != SubscriptionType.Unknown ==> (t == e <==> AsInt(v) == SubscriptionCode(e))
  {
    match AsInt(v)
    case Some(0) => Free
    case Some(1) => Meter
    case Some(2) => Submeter
    case Some(3) => Decimeter
    case Some(4) => Precision
    case Some(5) => PrecisionOnDemand
    case Some(100) => GNSS
    case _ => SubscriptionType.Unknown
  }

  // ------------------------------------------------------------ satellites

  /** The constellation a satellite belongs to, an `Int` raw-value enum. */
  datatype SatelliteType = GPS | SBAS | GLONASS | OMNISTAR | GALILEO | BEIDOU | QZSS | IRNSS

  /** The raw values: the cases numbered from 0 in declaration order. */
  function RawValue(t: SatelliteType): (n: nat)
    ensures n < 8
  {
    match t
    case GPS => 0
    case SBAS => 1
    case GLONASS => 2
    case OMNISTAR => 3
    case GALILEO => 4
    case BEIDOU => 5
    case QZSS => 6
    case IRNSS => 7
  }

  /** `SatelliteType(rawValue:)`: there is no fallback case, so a code outside
      0..7 has no value. */
  function SatelliteTypeOf(raw: int): (r: Option<SatelliteType>)
    ensures r.Some? <==> 0 <= raw < 8
    ensures r.Some? ==> RawValue(r.value) == raw
  {
    if raw == 0 then Some(GPS)
    else if raw == 1 then Some(SBAS)
    else if raw == 2 then Some(GLONASS)
    else if raw == 3 then Some(OMNISTAR)
    else if raw == 4 then Some(GALILEO)
    else if raw == 5 then Some(BEIDOU)
    else if raw == 6 then Some(QZSS)
    else if raw == 7 then Some(IRNSS)
    else None
  }

  lemma SatelliteTypeRoundTrip(t: SatelliteType)
    ensures SatelliteTypeOf(RawValue(t)) == Some(t)
  {
  }

  /** One entry of `satelliteView`. */
  datatype Satellite = Satellite(id: int, elv: int, azm: int, snr: int, use: bool, system: SatelliteType)

  /** The capitalised JSON keys of a satellite entry. */
  const IdKey: string := "Id"
  const ElvKey: string := "Elv"
  const AzmKey: string := "Azm"
  const SnrKey: string := "Snr"
  const UseKey: string := "Use"
  const TypeKey: string := "Type"

  function IntMember(o: map<string, JsonValue>, name: string): (r: Option<int>)
    ensures r.Some? <==> name in o && HoldsInt64(o[name])
    ensures r.Some? ==> HasValue(o[name].n, r.value) && IsInt64(r.value)
  {
    if name in o then AsInt(o[name]) else None
  }

  /** The synthesised `Satellite.init(from:)`: all six members are required;
      `Use` must be a boolean and `Type` an integer with a constellation. */
  function DecodeSatellite(v: JsonValue): (r: Option<Satellite>)
    ensures r.Some? <==>
      v.JObject? && IntMember(v.fields, IdKey).Some? && IntMember(v.fields, ElvKey).Some?
      && IntMember(v.fields, AzmKey).Some? && IntMember(v.fields, SnrKey).Some?
      && UseKey in v.fields && v.fields[UseKey].JBool?
      && IntMember(v.fields, TypeKey).Some? && SatelliteTypeOf(IntMember(v.fields, TypeKey).value).Some?
    ensures r.Some? ==>
      IntMember(v.fields, IdKey) == Some(r.value.id) && IntMember(v.fields, ElvKey) == Some(r.value.elv)
      && IntMember(v.fields, AzmKey) == Some(r.value.azm) && IntMember(v.fields, SnrKey) == Some(r.value.snr)
      && v.fields[UseKey] == JBool(r.value.use)
      && IntMember(v.fields, TypeKey) == Some(RawValue(r.value.system))
  {
    if !v.JObject? then None
    else
      var o := v.fields;
      var id :- IntMember(o, IdKey);
      var elv :- IntMember(o, ElvKey);
      var azm :- IntMember(o, AzmKey);
      var snr :- IntMember(o, SnrKey);
      if UseKey !in o || !o[UseKey].JBool? then None
      else
        var raw :- IntMember(o, TypeKey);
        var system :- SatelliteTypeOf(raw);
        Some(Satellite(id, elv, azm, snr, o[UseKey].b, system))
  }

  /** `[Satellite]`: every entry must decode, in order. */
  function DecodeSatellites(items: seq<JsonValue>): (r: Option<seq<Satellite>>)
    ensures r.Some? <==> forall i :: 0 <= i < |items| ==> DecodeSatellite(items[i]).Some?
    ensures r.Some? ==>
      |r.value| == |items| && forall i :: 0 <= i < |items| ==> DecodeSatellite(items[i]) == Some(r.value[i])
  {
    if |items| == 0 then Some([])
    else
      var first :- DecodeSatellite(items[0]);
      var rest :- DecodeSatellites(items[1..]);
      Some([first] + rest)
  }

  /** A satellite entry as `Satellite.encode(to:)` writes it. */
  function SatelliteJson(s: Satellite): JsonValue {
    JObject(map[IdKey := IntValue(s.id), ElvKey := IntValue(s.elv), AzmKey := IntValue(s.azm),
                SnrKey := IntValue(s.snr), UseKey := JBool(s.use), TypeKey := IntValue(RawValue(s.system))])
  }

  lemma SatelliteRoundTrip(s: Satellite)
    requires IsInt64(s.id) && IsInt64(s.elv) && IsInt64(s.azm) && IsInt64(s.snr)
    ensures DecodeSatellite(SatelliteJson(s)) == Some(s)
  {
    var o := SatelliteJson(s).fields;
    assert o[IdKey] == IntValue(s.id) && o[ElvKey] == IntValue(s.elv);
    assert o[AzmKey] == IntValue(s.azm) && o[SnrKey] == IntValue(s.snr);
    assert o[UseKey] == JBool(s.use) && o[TypeKey] == IntValue(RawValue(s.system));
    SatelliteTypeRoundTrip(s.system);
  }

  /** A `Type` code outside 0..7 makes the entry fail, whatever else it holds. */
  lemma SatelliteTypeOutOfRange(v: JsonValue)
    requires v.JObject? && IntMember(v.fields, TypeKey).Some?
    requires var t := IntMember(v.fields, TypeKey).value; t < 0 || t > 7
    ensures DecodeSatellite(v).None?
  {
  }

  // ---------------------------------------------------------------- record

  /** `UUID()`, 128 bits; a record's identity, never read from JSON. */
  type Uuid = x: nat | x < 0x1_0000_0000_0000_0000_0000_0000_0000_0000

  /** The decoded report. `Double` and `Float` members keep the JSON number
      they were read from; the four optional members are `None` when absent. */
  datatype PseudoExtras = PseudoExtras(
    id: Uuid,
    latitude: Number, longitude: Number, altitude: Number,
    speed: Number, bearing: Number, accuracy: Number, verticalAccuracy: Number,
    hdop: Number, vdop: Number, pdop: Number,
    diffAge: Number, diffStatus: DiffStatus,
    vrms: Number, hrms: Number,
    receiverModel: string, mockProvider: string, battery: Option<int>,
    mslHeight: Option<Number>, undulation: Option<Number>, geoidModel: Option<string>,
    utcTime: Number, gpsTimeStamp: string, utcTimeStamp: string,
    subscriptionType: SubscriptionType, satellites: int, totalSatInView: int,
    satelliteView: seq<Satellite>)

  /** The decoded members, one per coding key other than `id`. */
  datatype Key =
    | Latitude | Longitude | Altitude
    | Speed | Bearing | Accuracy | VerticalAccuracy
    | Hdop | Vdop | Pdop
    | DiffAge | DiffStatusKey
    | Vrms | Hrms
    | ReceiverModel | MockProvider | Battery
    | MslHeight | Undulation | GeoidModel
    | UtcTime | GpsTimeStamp | UtcTimeStamp
    | SubscriptionTypeKey | Satellites | TotalSatInView
    | SatelliteView

  /** The JSON key each member is read from: its own name, except that
      `verticalAccuracy` is read from `verticalAccuracyMeters`. */
  function JsonKey(k: Key): string {
    match k
    case Latitude => "latitude"
    case Longitude => "longitude"
    case Altitude => "altitude"
    case Speed => "speed"
    case Bearing => "bearing"
    case Accuracy => "accuracy"
    case VerticalAccuracy => "verticalAccuracyMeters"
    case Hdop => "hdop"
    case Vdop => "vdop"
    case Pdop => "pdop"
    case DiffAge => "diffAge"
    case DiffStatusKey => "diffStatus"
    case Vrms => "vrms"
    case Hrms => "hrms"
    case ReceiverModel => "receiverModel"
    case MockProvider => "mockProvider"
    case Battery => "battery"
    case MslHeight => "mslHeight"
    case Undulation => "undulation"
    case GeoidModel => "geoidModel"
    case UtcTime => "utcTime"
    case GpsTimeStamp => "gpsTimeStamp"
    case UtcTimeStamp => "utcTimeStamp"
    case SubscriptionTypeKey => "subscriptionType"
    case Satellites => "satellites"
    case TotalSatInView => "totalSatInView"
    case SatelliteView => "satelliteView"
  }

  /** Every key a member is read from is longer than `id`. */
  lemma JsonKeyLength(k: Key)
    ensures |JsonKey(k)| > 2
  {
  }

  /** The Swift type of each member, as far as decoding tells them apart. */
  datatype Kind = NumberKind | StringKind | IntKind | DiffStatusKind | SubscriptionKind | SatellitesKind

  function KindOf(k: Key): Kind {
    match k
    case DiffStatusKey => DiffStatusKind
    case SubscriptionTypeKey => SubscriptionKind
    case SatelliteView => SatellitesKind
    case ReceiverModel | MockProvider | GeoidModel | GpsTimeStamp | UtcTimeStamp => StringKind
    case Battery | Satellites | TotalSatInView => IntKind
    case _ => NumberKind
  }

  /** The members declared with a `?`, decoded with `decodeIfPresent`. */
  predicate IsOptional(k: Key) {
    k == Battery || k == MslHeight || k == Undulation || k == GeoidModel
  }

  /** A decoded member value of any kind. */
  datatype FieldValue =
    | NumberField(n: Number)
    | StringField(s: string)
    | IntField(i: int)
    | DiffStatusField(d: DiffStatus)
    | SubscriptionField(t: SubscriptionType)
    | SatellitesField(sats: seq<Satellite>)

  /** What decoding a present, non-null value as a member of kind `kind` gives. */
  function DecodeAs(kind: Kind, v: JsonValue): Option<FieldValue> {
    match kind
    case NumberKind => if v.JNumber? then Some(NumberField(v.n)) else None
    case StringKind => if v.JString? then Some(StringField(v.s)) else None
    case IntKind => if AsInt(v).Some? then Some(IntField(AsInt(v).value)) else None
    case DiffStatusKind => Some(DiffStatusField(DecodeDiffStatus(v)))
    case SubscriptionKind => Some(SubscriptionField(DecodeSubscription(v)))
    case SatellitesKind =>
      if v.JArray? && DecodeSatellites(v.items).Some? then Some(SatellitesField(DecodeSatellites(v.items).value))
      else None
  }

  /** One member of a record, or why there is none. */
  datatype Slot = Fails | Absent | Present(value: FieldValue)

  /** The rule for one member, stated on its own: a missing key fails a
      required member and leaves an optional one absent; an optional member
      that is `null` is absent too; otherwise the value must decode as the
      member's kind. */
  function ExpectedSlot(o: map<string, JsonValue>, k: Key): Slot {
    var name := JsonKey(k);
    if name !in o then (if IsOptional(k) then Absent else Fails)
    else if IsOptional(k) && o[name] == JNull then Absent
    else match DecodeAs(KindOf(k), o[name])
      case None => Fails
      case Some(f) => Present(f)
  }

  /** What a record holds for member `k`. */
  function RecordSlot(r: PseudoExtras, k: Key): Slot {
    match k
    case Latitude => Present(NumberField(r.latitude))
    case Longitude => Present(NumberField(r.longitude))
    case Altitude => Present(NumberField(r.altitude))
    case Speed => Present(NumberField(r.speed))
    case Bearing => Present(NumberField(r.bearing))
    case Accuracy => Present(NumberField(r.accuracy))
    case VerticalAccuracy => Present(NumberField(r.verticalAccuracy))
    case Hdop => Present(NumberField(r.hdop))
    case Vdop => Present(NumberField(r.vdop))
    case Pdop => Present(NumberField(r.pdop))
    case DiffAge => Present(NumberField(r.diffAge))
    case DiffStatusKey => Present(DiffStatusField(r.diffStatus))
    case Vrms => Present(NumberField(r.vrms))
    case Hrms => Present(NumberField(r.hrms))
    case ReceiverModel => Present(StringField(r.receiverModel))
    case MockProvider => Present(StringField(r.mockProvider))
    case Battery => if r.battery.Some? then Present(IntField(r.battery.value)) else Absent
    case MslHeight => if r.mslHeight.Some? then Present(NumberField(r.mslHeight.value)) else Absent
    case Undulation => if r.undulation.Some? then Present(NumberField(r.undulation.value)) else Absent
    case GeoidModel => if r.geoidModel.Some? then Present(StringField(r.geoidModel.value)) else Absent
    case UtcTime => Present(NumberField(r.utcTime))
    case GpsTimeStamp => Present(StringField(r.gpsTimeStamp))
    case UtcTimeStamp => Present(StringField(r.utcTimeStamp))
    case SubscriptionTypeKey => Present(SubscriptionField(r.subscriptionType))
    case Satellites => Present(IntField(r.satellites))
    case TotalSatInView => Present(IntField(r.totalSatInView))
    case SatelliteView => Present(SatellitesField(r.satelliteView))
  }

  // ------------------------------------------------- the synthesised decoder

  /** `container.decode(Double.self / Float.self, forKey:)`. */
  function NumberAt(o: map<string, JsonValue>, k: Key): Option<Number> {
    var name := JsonKey(k);
    if name in o && o[name].JNumber? then Some(o[name].n) else None
  }

  /** `container.decode(String.self, forKey:)`. */
  function StringAt(o: map<string, JsonValue>, k: Key): Option<string> {
    var name := JsonKey(k);
    if name in o && o[name].JString? then Some(o[name].s) else None
  }

  /** `container.decode(Int.self, forKey:)`. */
  function IntAt(o: map<string, JsonValue>, k: Key): Option<int> {
    var name := JsonKey(k);
    if name in o then AsInt(o[name]) else None
  }

  /** `container.decodeIfPresent`: absent or `null` is `Some(None)`; a present
      value of the wrong type is a failure. */
  function IntIfPresent(o: map<string, JsonValue>, k: Key): Option<Option<int>> {
    var name := JsonKey(k);
    if name !in o || o[name] == JNull then Some(None)
    else if AsInt(o[name]).Some? then Some(AsInt(o[name]))
    else None
  }

  function NumberIfPresent(o: map<string, JsonValue>, k: Key): Option<Option<Number>> {
    var name := JsonKey(k);
    if name !in o || o[name] == JNull then Some(None)
    else if o[name].JNumber? then Some(Some(o[name].n))
    else None
  }

  function StringIfPresent(o: map<string, JsonValue>, k: Key): Option<Option<string>> {
    var name := JsonKey(k);
    if name !in o || o[name] == JNull then Some(None)
    else if o[name].JString? then Some(Some(o[name].s))
    else None
  }

  /** The two enums with a custom decoder: the key must be there, and any
      value it holds decodes. */
  function DiffStatusAt(o: map<string, JsonValue>, k: Key): Option<DiffStatus> {
    var name := JsonKey(k);
    if name in o then Some(DecodeDiffStatus(o[name])) else None
  }

  function SubscriptionAt(o: map<string, JsonValue>, k: Key): Option<SubscriptionType> {
    var name := JsonKey(k);
    if name in o then Some(DecodeSubscription(o[name])) else None
  }

  function SatellitesAt(o: map<string, JsonValue>, k: Key): Option<seq<Satellite>> {
    var name := JsonKey(k);
    if name in o && o[name].JArray? then DecodeSatellites(o[name].items) else None
  }

  /** What the synthesised `init(from:)` reads for member `k`: `decode` of the
      member's declared type when it is required, `decodeIfPresent` when it
      is optional. `Fails` is a thrown error. */
  function ReaderSlot(o: map<string, JsonValue>, k: Key): Slot {
    match KindOf(k)
    case NumberKind =>
      if IsOptional(k) then
        (match NumberIfPresent(o, k)
         case None => Fails
         case Some(None) => Absent
         case Some(Some(n)) => Present(NumberField(n)))
      else
        (match NumberAt(o, k)
         case None => Fails
         case Some(n) => Present(NumberField(n)))
    case StringKind =>
      if IsOptional(k) then
        (match StringIfPresent(o, k)
         case None => Fails
         case Some(None) => Absent
         case Some(Some(s)) => Present(StringField(s)))
      else
        (match StringAt(o, k)
         case None => Fails
         case Some(s) => Present(StringField(s)))
    case IntKind =>
      if IsOptional(k) then
        (match IntIfPresent(o, k)
         case None => Fails
         case Some(None) => Absent
         case Some(Some(i)) => Present(IntField(i)))
      else
        (match IntAt(o, k)
         case None => Fails
         case Some(i) => Present(IntField(i)))
    case DiffStatusKind =>
      (match DiffStatusAt(o, k)
       case None => Fails
       case Some(d) => Present(DiffStatusField(d)))
    case SubscriptionKind =>
      (match SubscriptionAt(o, k)
       case None => Fails
       case Some(t) => Present(SubscriptionField(t)))
    case SatellitesKind =>
      (match SatellitesAt(o, k)
       case None => Fails
       case Some(sats) => Present(SatellitesField(sats)))
  }

  /** Every member's reader succeeds: `init(from:)` runs to the end without
      throwing. */
  predicate Decodable(o: map<string, JsonValue>) {
    forall k :: ReaderSlot(o, k) != Fails
  }

  /** The record the readers' values make up, with the given `id`. A member
      whose reader failed gets a placeholder; `DecodeRecord` only builds a
      record when none did. */
  function Build(o: map<string, JsonValue>, id: Uuid): PseudoExtras {
    var zero := Number(0, 0);
    PseudoExtras(id,
      NumberAt(o, Latitude).GetOr(zero), NumberAt(o, Longitude).GetOr(zero), NumberAt(o, Altitude).GetOr(zero),
      NumberAt(o, Speed).GetOr(zero), NumberAt(o, Bearing).GetOr(zero), NumberAt(o, Accuracy).GetOr(zero),
      NumberAt(o, VerticalAccuracy).GetOr(zero),
      NumberAt(o, Hdop).GetOr(zero), NumberAt(o, Vdop).GetOr(zero), NumberAt(o, Pdop).GetOr(zero),
      NumberAt(o, DiffAge).GetOr(zero), DiffStatusAt(o, DiffStatusKey).GetOr(DiffStatus.Unknown),
      NumberAt(o, Vrms).GetOr(zero), NumberAt(o, Hrms).GetOr(zero),
      StringAt(o, ReceiverModel).GetOr(""), StringAt(o, MockProvider).GetOr(""), IntIfPresent(o, Battery).GetOr(None),
      NumberIfPresent(o, MslHeight).GetOr(None), NumberIfPresent(o, Undulation).GetOr(None),
      StringIfPresent(o, GeoidModel).GetOr(None),
      NumberAt(o, UtcTime).GetOr(zero), StringAt(o, GpsTimeStamp).GetOr(""), StringAt(o, UtcTimeStamp).GetOr(""),
      SubscriptionAt(o, SubscriptionTypeKey).GetOr(SubscriptionType.Unknown),
      IntAt(o, Satellites).GetOr(0), IntAt(o, TotalSatInView).GetOr(0),
      SatellitesAt(o, SatelliteView).GetOr([]))
  }

  /** `JSONDecoder().decode(PseudoExtras.self, from:)` on an already parsed
      value: the top level must be an object and every member's reader must
      succeed; the first failure fails the whole record, and since the model
      does not tell errors apart, which member failed first does not show.
      Keys the record does not know, `id` among them, are ignored; `id` is
      the fresh `UUID()` passed in. */
  function DecodeRecord(v: JsonValue, id: Uuid): (r: Option<PseudoExtras>)
    ensures r.Some? <==> v.JObject? && forall k :: ExpectedSlot(v.fields, k) != Fails
    ensures r.Some? ==> r.value.id == id && forall k :: RecordSlot(r.value, k) == ExpectedSlot(v.fields, k)
  {
    if v.JObject? then
      ReadersFollowRules(v.fields);
      if Decodable(v.fields) then
        BuildFollowsReaders(v.fields, id);
        Some(Build(v.fields, id))
      else None
    else None
  }

  // ------------------------------------------------ each reader and its rule

  lemma NumberAtSlot(o: map<string, JsonValue>, k: Key)
    requires KindOf(k) == NumberKind && !IsOptional(k)
    ensures NumberAt(o, k).Some? <==> ExpectedSlot(o, k) != Fails
    ensures NumberAt(o, k).Some? ==> ExpectedSlot(o, k) == Present(NumberField(NumberAt(o, k).value))
  {
  }

  lemma StringAtSlot(o: map<string, JsonValue>, k: Key)
    requires KindOf(k) == StringKind && !IsOptional(k)
    ensures StringAt(o, k).Some? <==> ExpectedSlot(o, k) != Fails
    ensures StringAt(o, k).Some? ==> ExpectedSlot(o, k) == Present(StringField(StringAt(o, k).value))
  {
  }

  lemma IntAtSlot(o: map<string, JsonValue>, k: Key)
    requires KindOf(k) == IntKind && !IsOptional(k)
    ensures IntAt(o, k).Some? <==> ExpectedSlot(o, k) != Fails
    ensures IntAt(o, k).Some? ==> ExpectedSlot(o, k) == Present(IntField(IntAt(o, k).value))
  {
  }

  lemma IntIfPresentSlot(o: map<string, JsonValue>, k: Key)
    requires KindOf(k) == IntKind && IsOptional(k)
    ensures IntIfPresent(o, k).Some? <==> ExpectedSlot(o, k) != Fails
    ensures IntIfPresent(o, k).Some? ==>
      ExpectedSlot(o, k) == if IntIfPresent(o, k).value.Some? then Present(IntField(IntIfPresent(o, k).value.value)) else Absent
  {
  }

  lemma NumberIfPresentSlot(o: map<string, JsonValue>, k: Key)
    requires KindOf(k) == NumberKind && IsOptional(k)
    ensures NumberIfPresent(o, k).Some? <==> ExpectedSlot(o, k) != Fails
    ensures NumberIfPresent(o, k).Some? ==>
      ExpectedSlot(o, k) == if NumberIfPresent(o, k).value.Some? then Present(NumberField(NumberIfPresent(o, k).value.value)) else Absent
  {
  }

  lemma StringIfPresentSlot(o: map<string, JsonValue>, k: Key)
    requires KindOf(k) == StringKind && IsOptional(k)
    ensures StringIfPresent(o, k).Some? <==> ExpectedSlot(o, k) != Fails
    ensures StringIfPresent(o, k).Some? ==>
      ExpectedSlot(o, k) == if StringIfPresent(o, k).value.Some? then Present(StringField(StringIfPresent(o, k).value.value)) else Absent
  {
  }

  lemma DiffStatusAtSlot(o: map<string, JsonValue>, k: Key)
    requires KindOf(k) == DiffStatusKind && !IsOptional(k)
    ensures DiffStatusAt(o, k).Some? <==> ExpectedSlot(o, k) != Fails
    ensures DiffStatusAt(o, k).Some? ==> ExpectedSlot(o, k) == Present(DiffStatusField(DiffStatusAt(o, k).value))
  {
  }

  lemma SubscriptionAtSlot(o: map<string, JsonValue>, k: Key)
    requires KindOf(k) == SubscriptionKind && !IsOptional(k)
    ensures SubscriptionAt(o, k).Some? <==> ExpectedSlot(o, k) != Fails
    ensures SubscriptionAt(o, k).Some? ==> ExpectedSlot(o, k) == Present(SubscriptionField(SubscriptionAt(o, k).value))
  {
  }

  lemma SatellitesAtSlot(o: map<string, JsonValue>, k: Key)
    requires KindOf(k) == SatellitesKind && !IsOptional(k)
    ensures SatellitesAt(o, k).Some? <==> ExpectedSlot(o, k) != Fails
    ensures SatellitesAt(o, k).Some? ==> ExpectedSlot(o, k) == Present(SatellitesField(SatellitesAt(o, k).value))
  {
  }

  // ------------------------------------------------------------ properties

  /** Each reader gives exactly what the rule for its member says. */
  lemma ReaderSlotRule(o: map<string, JsonValue>, k: Key)
    ensures ReaderSlot(o, k) == ExpectedSlot(o, k)
  {
    match KindOf(k)
    case NumberKind => if IsOptional(k) { NumberIfPresentSlot(o, k); } else { NumberAtSlot(o, k); }
    case StringKind => if IsOptional(k) { StringIfPresentSlot(o, k); } else { StringAtSlot(o, k); }
    case IntKind => if IsOptional(k) { IntIfPresentSlot(o, k); } else { IntAtSlot(o, k); }
    case DiffStatusKind => DiffStatusAtSlot(o, k);
    case SubscriptionKind => SubscriptionAtSlot(o, k);
    case SatellitesKind => SatellitesAtSlot(o, k);
  }

  /** The members a built record holds, kind by kind, are what the readers
      gave. */
  lemma BuildNumbers(o: map<string, JsonValue>, id: Uuid, k: Key)
    requires KindOf(k) == NumberKind && !IsOptional(k) && NumberAt(o, k).Some?
    ensures RecordSlot(Build(o, id), k) == Present(NumberField(NumberAt(o, k).value))
  {
  }

  lemma BuildStrings(o: map<string, JsonValue>, id: Uuid, k: Key)
    requires KindOf(k) == StringKind && !IsOptional(k) && StringAt(o, k).Some?
    ensures RecordSlot(Build(o, id), k) == Present(StringField(StringAt(o, k).value))
  {
  }

  lemma BuildInts(o: map<string, JsonValue>, id: Uuid, k: Key)
    requires KindOf(k) == IntKind && !IsOptional(k) && IntAt(o, k).Some?
    ensures RecordSlot(Build(o, id), k) == Present(IntField(IntAt(o, k).value))
  {
  }

  lemma BuildOptionals(o: map<string, JsonValue>, id: Uuid, k: Key)
    requires IsOptional(k) && ReaderSlot(o, k) != Fails
    ensures RecordSlot(Build(o, id), k) == ReaderSlot(o, k)
  {
    var r := Build(o, id);
    if k == Battery {
      assert r.battery == IntIfPresent(o, k).value;
    } else if k == MslHeight {
      assert r.mslHeight == NumberIfPresent(o, k).value;
    } else if k == Undulation {
      assert r.undulation == NumberIfPresent(o, k).value;
    } else {
      assert r.geoidModel == StringIfPresent(o, k).value;
    }
  }

  lemma BuildCoded(o: map<string, JsonValue>, id: Uuid, k: Key)
    requires KindOf(k) in {DiffStatusKind, SubscriptionKind, SatellitesKind} && ReaderSlot(o, k) != Fails
    ensures RecordSlot(Build(o, id), k) == ReaderSlot(o, k)
  {
  }

  /** Each member of a built record is what its reader gave, when that
      reader succeeded. */
  lemma BuildSlot(o: map<string, JsonValue>, id: Uuid, k: Key)
    requires ReaderSlot(o, k) != Fails
    ensures RecordSlot(Build(o, id), k) == ReaderSlot(o, k)
  {
    if IsOptional(k) {
      BuildOptionals(o, id, k);
    } else if KindOf(k) == NumberKind {
      BuildNumbers(o, id, k);
    } else if KindOf(k) == StringKind {
      BuildStrings(o, id, k);
    } else if KindOf(k) == IntKind {
      BuildInts(o, id, k);
    } else {
      BuildCoded(o, id, k);
    }
  }

  /** Every member's reader agrees with its rule. */
  lemma ReadersFollowRules(o: map<string, JsonValue>)
    ensures forall k :: ReaderSlot(o, k) == ExpectedSlot(o, k)
  {
    forall k ensures ReaderSlot(o, k) == ExpectedSlot(o, k) {
      ReaderSlotRule(o, k);
    }
  }

  /** When no reader fails, the built record holds what each reader read. */
  lemma BuildFollowsReaders(o: map<string, JsonValue>, id: Uuid)
    requires Decodable(o)
    ensures forall k :: RecordSlot(Build(o, id), k) == ReaderSlot(o, k)
  {
    forall k ensures RecordSlot(Build(o, id), k) == ReaderSlot(o, k) {
      BuildSlot(o, id, k);
    }
  }

  // ------------------------------------------------------ decoding, by case

  /** A required member whose key is missing fails the whole record. */
  lemma MissingRequired(v: JsonValue, id: Uuid, k: Key)
    requires v.JObject? && !IsOptional(k) && JsonKey(k) !in v.fields
    ensures DecodeRecord(v, id).None?
  {
    assert ExpectedSlot(v.fields, k) == Fails;
  }

  /** An optional member whose key is missing, or that is `null`, decodes as
      absent rather than as a default. */
  lemma AbsentOptional(v: JsonValue, id: Uuid, k: Key)
    requires DecodeRecord(v, id).Some? && IsOptional(k)
    requires JsonKey(k) !in v.fields || v.fields[JsonKey(k)] == JNull
    ensures RecordSlot(DecodeRecord(v, id).value, k) == Absent
  {
  }

  /** A satellite entry that does not decode fails the whole record. */
  lemma BadSatelliteFailsRecord(v: JsonValue, id: Uuid, i: int)
    requires v.JObject? && JsonKey(SatelliteView) in v.fields && v.fields[JsonKey(SatelliteView)].JArray?
    requires var items := v.fields[JsonKey(SatelliteView)].items;
      0 <= i < |items| && DecodeSatellite(items[i]).None?
    ensures DecodeRecord(v, id).None?
  {
    assert ExpectedSlot(v.fields, SatelliteView) == Fails;
  }

  /** Changing the value of a key the record does not read leaves the slots
      of every member as they were. */
  lemma SlotsIgnore(o: map<string, JsonValue>, name: string, x: JsonValue, k: Key)
    requires JsonKey(k) != name
    ensures ExpectedSlot(o[name := x], k) == ExpectedSlot(o, k)
  {
  }

  /** Two records with the same `id` and the same members are the same record. */
  lemma SlotsDetermineRecord(a: PseudoExtras, b: PseudoExtras)
    requires a.id == b.id && forall k :: RecordSlot(a, k) == RecordSlot(b, k)
    ensures a == b
  {
    SameMembers1(a, b);
    SameMembers2(a, b);
    SameMembers3(a, b);
    SameMembers4(a, b);
  }

  lemma SameMembers1(a: PseudoExtras, b: PseudoExtras)
    requires forall k :: RecordSlot(a, k) == RecordSlot(b, k)
    ensures a.latitude == b.latitude
    ensures a.longitude == b.longitude
    ensures a.altitude == b.altitude
    ensures a.speed == b.speed
    ensures a.bearing == b.bearing
    ensures a.accuracy == b.accuracy
    ensures a.verticalAccuracy == b.verticalAccuracy
  {
    assert RecordSlot(a, Latitude) == RecordSlot(b, Latitude);
    assert RecordSlot(a, Longitude) == RecordSlot(b, Longitude);
    assert RecordSlot(a, Altitude) == RecordSlot(b, Altitude);
    assert RecordSlot(a, Speed) == RecordSlot(b, Speed);
    assert RecordSlot(a, Bearing) == RecordSlot(b, Bearing);
    assert RecordSlot(a, Accuracy) == RecordSlot(b, Accuracy);
    assert RecordSlot(a, VerticalAccuracy) == RecordSlot(b, VerticalAccuracy);
  }

  lemma SameMembers2(a: PseudoExtras, b: PseudoExtras)
    requires forall k :: RecordSlot(a, k) == RecordSlot(b, k)
    ensures a.hdop == b.hdop
    ensures a.vdop == b.vdop
    ensures a.pdop == b.pdop
    ensures a.diffAge == b.diffAge
    ensures a.diffStatus == b.diffStatus
    ensures a.vrms == b.vrms
    ensures a.hrms == b.hrms
  {
    assert RecordSlot(a, Hdop) == RecordSlot(b, Hdop);
    assert RecordSlot(a, Vdop) == RecordSlot(b, Vdop);
    assert RecordSlot(a, Pdop) == RecordSlot(b, Pdop);
    assert RecordSlot(a, DiffAge) == RecordSlot(b, DiffAge);
    assert RecordSlot(a, DiffStatusKey) == RecordSlot(b, DiffStatusKey);
    assert RecordSlot(a, Vrms) == RecordSlot(b, Vrms);
    assert RecordSlot(a, Hrms) == RecordSlot(b, Hrms);
  }

  lemma SameMembers3(a: PseudoExtras, b: PseudoExtras)
    requires forall k :: RecordSlot(a, k) == RecordSlot(b, k)
    ensures a.receiverModel == b.receiverModel
    ensures a.mockProvider == b.mockProvider
    ensures a.battery == b.battery
    ensures a.mslHeight == b.mslHeight
    ensures a.undulation == b.undulation
    ensures a.geoidModel == b.geoidModel
    ensures a.utcTime == b.utcTime
  {
    assert RecordSlot(a, ReceiverModel) == RecordSlot(b, ReceiverModel);
    assert RecordSlot(a, MockProvider) == RecordSlot(b, MockProvider);
    assert RecordSlot(a, Battery) == RecordSlot(b, Battery);
    assert RecordSlot(a, MslHeight) == RecordSlot(b, MslHeight);
    assert RecordSlot(a, Undulation) == RecordSlot(b, Undulation);
    assert RecordSlot(a, GeoidModel) == RecordSlot(b, GeoidModel);
    assert RecordSlot(a, UtcTime) == RecordSlot(b, UtcTime);
  }

  lemma SameMembers4(a: PseudoExtras, b: PseudoExtras)
    requires forall k :: RecordSlot(a, k) == RecordSlot(b, k)
    ensures a.gpsTimeStamp == b.gpsTimeStamp
    ensures a.utcTimeStamp == b.utcTimeStamp
    ensures a.subscriptionType == b.subscriptionType
    ensures a.satellites == b.satellites
    ensures a.totalSatInView == b.totalSatInView
    ensures a.satelliteView == b.satelliteView
  {
    assert RecordSlot(a, GpsTimeStamp) == RecordSlot(b, GpsTimeStamp);
    assert RecordSlot(a, UtcTimeStamp) == RecordSlot(b, UtcTimeStamp);
    assert RecordSlot(a, SubscriptionTypeKey) == RecordSlot(b, SubscriptionTypeKey);
    assert RecordSlot(a, Satellites) == RecordSlot(b, Satellites);
    assert RecordSlot(a, TotalSatInView) == RecordSlot(b, TotalSatInView);
    assert RecordSlot(a, SatelliteView) == RecordSlot(b, SatelliteView);
  }

  /** Keys the record does not read, `id` among them, do not change what
      decoding gives. */
  lemma UnknownKeyIgnored(v: JsonValue, id: Uuid, name: string, x: JsonValue)
    requires v.JObject? && forall k :: JsonKey(k) != name
    ensures DecodeRecord(JObject(v.fields[name := x]), id) == DecodeRecord(v, id)
  {
    var o, o' := v.fields, v.fields[name := x];
    forall k ensures ExpectedSlot(o', k) == ExpectedSlot(o, k) {
      SlotsIgnore(o, name, x, k);
    }
    if DecodeRecord(v, id).Some? {
      SlotsDetermineRecord(DecodeRecord(JObject(o'), id).value, DecodeRecord(v, id).value);
    }
  }

  lemma IdNeverRead(v: JsonValue, id: Uuid, x: JsonValue)
    requires v.JObject?
    ensures DecodeRecord(JObject(v.fields["id" := x]), id) == DecodeRecord(v, id)
  {
    forall k ensures JsonKey(k) != "id" {
      JsonKeyLength(k);
    }
    UnknownKeyIgnored(v, id, "id", x);
  }

  /** No other member is read from the keys of the two lenient members. */
  lemma LenientKeysOwn(k: Key)
    ensures JsonKey(k) == "diffStatus" ==> k == DiffStatusKey
    ensures JsonKey(k) == "subscriptionType" ==> k == SubscriptionTypeKey
  {
  }

  /** A required number member holds `n` only when its key holds the number `n`. */
  lemma NumberSlotValue(o: map<string, JsonValue>, k: Key, n: Number)
    requires KindOf(k) == NumberKind && !IsOptional(k) && ExpectedSlot(o, k) == Present(NumberField(n))
    ensures JsonKey(k) in o && o[JsonKey(k)] == JNumber(n)
  {
  }

  lemma NotVerticalAccuracy(k: Key)
    ensures JsonKey(k) != "verticalAccuracy"
  {
  }

  /** `verticalAccuracy` is read from `verticalAccuracyMeters`... */
  lemma VerticalAccuracyKey(v: JsonValue, id: Uuid)
    requires DecodeRecord(v, id).Some?
    ensures "verticalAccuracyMeters" in v.fields
    ensures v.fields["verticalAccuracyMeters"] == JNumber(DecodeRecord(v, id).value.verticalAccuracy)
  {
    var r := DecodeRecord(v, id).value;
    assert RecordSlot(r, VerticalAccuracy) == ExpectedSlot(v.fields, VerticalAccuracy);
    NumberSlotValue(v.fields, VerticalAccuracy, r.verticalAccuracy);
  }

  /** ... and from it alone: a key named after the member itself is ignored. */
  lemma PlainVerticalAccuracyIgnored(v: JsonValue, id: Uuid, x: JsonValue)
    requires v.JObject?
    ensures DecodeRecord(JObject(v.fields["verticalAccuracy" := x]), id) == DecodeRecord(v, id)
  {
    forall k ensures JsonKey(k) != "verticalAccuracy" {
      NotVerticalAccuracy(k);
    }
    UnknownKeyIgnored(v, id, "verticalAccuracy", x);
  }

  /** `diffStatus` and `subscriptionType` never fail once their key is there:
      whatever value replaces theirs, a string or `null` included, the record
      decodes exactly when it did before, and the member is what the enum's
      own decoder makes of the new value. */
  lemma LenientMember(v: JsonValue, id: Uuid, k: Key, x: JsonValue)
    requires v.JObject? && (k == DiffStatusKey || k == SubscriptionTypeKey) && JsonKey(k) in v.fields
    ensures var r := DecodeRecord(JObject(v.fields[JsonKey(k) := x]), id);
      && (r.Some? <==> DecodeRecord(v, id).Some?)
      && (r.Some? && k == DiffStatusKey ==> r.value.diffStatus == DecodeDiffStatus(x))
      && (r.Some? && k == SubscriptionTypeKey ==> r.value.subscriptionType == DecodeSubscription(x))
  {
    var o, o' := v.fields, v.fields[JsonKey(k) := x];
    forall j ensures ExpectedSlot(o', j) != Fails <==> ExpectedSlot(o, j) != Fails {
      if j != k {
        LenientKeysOwn(j);
        SlotsIgnore(o, JsonKey(k), x, j);
      }
    }
  }

  // ------------------------------------------------------- equality, zero

  /** `==`: two reports are equal exactly when their `id`s are, so every
      report is equal to itself. */
  predicate Same(a: PseudoExtras, b: PseudoExtras)
    ensures a == b ==> Same(a, b)
  {
    a.id == b.id
  }

  /** `==` is an equivalence, as `Equatable` asks of it. */
  lemma SameIsEquivalence(a: PseudoExtras, b: PseudoExtras, c: PseudoExtras)
    ensures Same(a, a)
    ensures Same(a, b) ==> Same(b, a)
    ensures Same(a, b) && Same(b, c) ==> Same(a, c)
  {
  }

  /** Decoding the same JSON twice gives reports with the same members that
      are nevertheless unequal, because each gets its own `UUID()`; each is
      equal to itself. */
  lemma DecodedTwiceDiffer(v: JsonValue, id1: Uuid, id2: Uuid)
    requires DecodeRecord(v, id1).Some? && id1 != id2
    ensures DecodeRecord(v, id2).Some?
    ensures var a, b := DecodeRecord(v, id1).value, DecodeRecord(v, id2).value;
      && (forall k :: RecordSlot(a, k) == RecordSlot(b, k))
      && !Same(a, b) && Same(a, a)
  {
  }

  /** The initializer call in `PseudoExtras.zero`, argument by argument. */
  function ZeroLiteral(id: Uuid): PseudoExtras {
    var zero := Number(0, 0);
    PseudoExtras(id, zero, zero, zero, zero, zero, zero, zero, zero, zero, zero,
                 zero, DiffStatus.Unknown, zero, zero, "", "", None,
                 Some(zero), Some(zero), Some(""), zero, "", "",
                 Free, 0, 0, [])
  }

  /** What `zero` holds, kind by kind: every number is 0 and every string
      empty, `battery` alone is absent (the other optional members hold a
      0 or an empty string), `diffStatus` is `Unknown`, `subscriptionType`
      is `Free` and there are no satellites. */
  function ZeroSlot(k: Key): Slot {
    if k == Battery then Absent
    else match KindOf(k)
      case NumberKind => Present(NumberField(Number(0, 0)))
      case StringKind => Present(StringField(""))
      case IntKind => Present(IntField(0))
      case DiffStatusKind => Present(DiffStatusField(DiffStatus.Unknown))
      case SubscriptionKind => Present(SubscriptionField(Free))
      case SatellitesKind => Present(SatellitesField([]))
  }

  lemma ZeroSlots(id: Uuid, k: Key)
    ensures ZeroLiteral(id).id == id && RecordSlot(ZeroLiteral(id), k) == ZeroSlot(k)
  {
    match k
    case Latitude =>
    case Longitude =>
    case Altitude =>
    case Speed =>
    case Bearing =>
    case Accuracy =>
    case VerticalAccuracy =>
    case Hdop =>
    case Vdop =>
    case Pdop =>
    case DiffAge =>
    case DiffStatusKey =>
    case Vrms =>
    case Hrms =>
    case ReceiverModel =>
    case MockProvider =>
    case Battery =>
    case MslHeight =>
    case Undulation =>
    case GeoidModel =>
    case UtcTime =>
    case GpsTimeStamp =>
    case UtcTimeStamp =>
    case SubscriptionTypeKey =>
    case Satellites =>
    case TotalSatInView =>
    case SatelliteView =>
  }

  /** `PseudoExtras.zero`: a report with the given `id` whose every member is
      the one `ZeroSlot` names. Each access builds a new report with a new
      `UUID()`. */
  function Zero(id: Uuid): (r: PseudoExtras)
    ensures r.id == id && forall k :: RecordSlot(r, k) == ZeroSlot(k)
  {
    assert forall k :: RecordSlot(ZeroLiteral(id), k) == ZeroSlot(k) by {
      forall k ensures RecordSlot(ZeroLiteral(id), k) == ZeroSlot(k) {
        ZeroSlots(id, k);
      }
    }
    ZeroLiteral(id)
  }

  // ------------------------------------------------------------- parse

  /** `PseudoExtras.parse(string:)`: the string's UTF-8 bytes are parsed as
      JSON and decoded with the fresh `id`; any failure is `nil`, never an
      error. */
  function ParseRecord(text: string, id: Uuid): (r: Option<PseudoExtras>)
    ensures r.Some? <==>
      && JsonText.Parse(EncodeString(text)).Some?
      && JsonText.Parse(EncodeString(text)).value.JObject?
      && forall k :: ExpectedSlot(JsonText.Parse(EncodeString(text)).value.fields, k) != Fails
    ensures r.Some? ==>
      var o := JsonText.Parse(EncodeString(text)).value.fields;
      r.value.id == id && forall k :: RecordSlot(r.value, k) == ExpectedSlot(o, k)
  {
    match JsonText.Parse(EncodeString(text))
    case None => None
    case Some(v) =>
      DecodeRecord(v, id)
  }
}
