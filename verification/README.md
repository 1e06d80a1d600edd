# TrimblePlayground core in Dafny

This project models the two pieces of pure logic in the TrimblePlayground iOS
app, which talks to Trimble Mobile Manager (TMM), and proves properties of
them.

- **`PseudoExtras`** is one GNSS position report. TMM sends it as a JSON
  object and the app decodes it with `JSONDecoder`.
  - Two enums, `DiffStatus` and `SubscriptionType`, have lenient custom
    decoders.
  - `SatelliteType` is a raw-value enum with no fallback case.
  - Four members are optional.
  - One member is read from a renamed key.
  - Each satellite entry uses capitalised keys.
  - `parse(string:)` gives a record or `nil`.
- **The port-discovery handshake** has two halves.
  - `TMMServerSocketPortRequest` writes `{"returl": …}` as compact JSON with
    `/` left unescaped. It base-64 encodes the bytes and builds the URL
    `tmmsocketserverport://trimble.TMM.ios?<base64>`.
  - `TMMServerSocketPortResponse.decode(response:)` takes the returned URL's
    query, base-64 decodes it and reads an integer `port`.

The Foundation services that these two pieces rely on are modelled too, each
as its own module. Each module has the inverse or reference definition it
needs to state round trips.

| module | file | what it is |
|---|---|---|
| `Wrappers` | `wrappers.dfy` | `Option`, with `:-` for early failure (a Swift `nil` or a thrown error) |
| `Utf8` | `utf8.dfy` | `String.data(using: .utf8)`: UTF-8 encoding of a string, with a decoder and the round trip |
| `Json` | `json.dfy` | the JSON data model. Numbers are exact decimals (mantissa and exponent). `AsInt` is `decode(Int.self)` |
| `JsonText` | `json_text.dfy` | a JSON text parser over bytes (RFC 8259), which stands in for `JSONDecoder`'s reader |
| `JsonWriter` | `json_writer.dfy` | `JSONEncoder`'s output for strings, integers and one-member objects, with read-back lemmas |
| `Base64` | `base64.dfy` | base 64 with the standard alphabet and padding (section 4 of RFC 4648): encoder, strict decoder, round trips both ways |
| `PortHandshake` | `port_handshake.dfy` | `encode64`, `makeTMMRequestURL`, `URL.query` and `decode(response:)` |
| `PortVectors` | `port_vectors.dfy` | the two handshake examples of the unit tests, proved on their literal URLs |
| `Telemetry` | `telemetry.dfy` | the enums, `Satellite`, the record's synthesised decoder, `==`, `zero`, `parse(string:)` |

## How the record decoder is stated

`Telemetry.ExpectedSlot` gives the rule for each member on its own terms. The
outcome, called a slot, is one of three:

- a required member whose key is missing fails;
- an optional member that is missing or `null` is absent;
- anything else must decode as the member's declared kind, or it fails.

`Telemetry.DecodeRecord` is written independently of that rule. It calls
`decode` or `decodeIfPresent` of the declared type for every member, as the
synthesised `init(from:)` does. The contract of `Telemetry.DecodeRecord` says
that the decoder succeeds exactly when no member fails its rule. It also says
that the record it returns holds, member by member, what the rule says.

## Model

| member | source | states |
|---|---|---|
| `Telemetry.DecodeDiffStatus` | TrimblePlayground/Shareable/PseudoExtras.swift:46-58 | Codes 1, 2, 4 and 5 give `Autonomous`, `DGPS`, `Fixed` and `Float`, in both directions. Every other value gives `Unknown`: another integer, a fraction, a string, `null`. Decoding never fails. |
| `Telemetry.DecodeSubscription` | TrimblePlayground/Shareable/PseudoExtras.swift:81-98 | Codes 0 to 5 give `Free` to `PrecisionOnDemand` and 100 gives `GNSS`, in both directions. Every other value gives `Unknown`, so a sample holding 2 reads as `Submeter`. Decoding never fails. |
| `Telemetry.SatelliteTypeOf` | TrimblePlayground/Shareable/PseudoExtras.swift:118-120 | `SatelliteType(rawValue:)` has a value exactly for 0 to 7, and that value's raw value is the code. |
| `Telemetry.SatelliteTypeRoundTrip` | TrimblePlayground/Shareable/PseudoExtras.swift:118-120 | Every constellation is recovered from its raw value. |
| `Telemetry.IntMember` | TrimblePlayground/Shareable/PseudoExtras.swift:106-109 | An `Int` member is read exactly when its key is there and holds a JSON number whose value is an integer in the 64-bit range. What is read is that number's value. |
| `Telemetry.DecodeSatellite` | TrimblePlayground/Shareable/PseudoExtras.swift:105-116 | An entry decodes exactly when it is an object and all of the following hold: `Id`, `Elv`, `Azm` and `Snr` are integers; `Use` is a boolean; `Type` is an integer in 0 to 7. The decoded entry holds exactly those values. |
| `Telemetry.DecodeSatellites` | TrimblePlayground/Shareable/PseudoExtras.swift:122 | `[Satellite]` decodes exactly when every entry decodes. The result has one satellite per entry, in order. |
| `Telemetry.SatelliteRoundTrip` | TrimblePlayground/Shareable/PseudoExtras.swift:105-116 | A satellite written with the capitalised keys decodes back to itself. |
| `Telemetry.SatelliteTypeOutOfRange` | TrimblePlayground/Shareable/PseudoExtras.swift:111-119 | A `Type` outside 0 to 7 fails the entry, whatever else it holds. |
| `Telemetry.ReaderSlotRule` | TrimblePlayground/Shareable/PseudoExtras.swift:18-122 | For every member, the reader the synthesised decoder uses gives exactly what the member's rule says. The reader is `decode` or `decodeIfPresent` of the declared type, read from the member's key. |
| `Telemetry.BuildSlot` | TrimblePlayground/Shareable/PseudoExtras.swift:32-122 | When a member's reader succeeds, the record holds that reader's value in that member. |
| `Telemetry.DecodeRecord` | TrimblePlayground/Shareable/PseudoExtras.swift:18-30 | The synthesised `init(from:)` gives a record if and only if the value is an object and no member fails its rule. The record holds each member's value as the rule gives it, with the `id` it was handed. |
| `Telemetry.MissingRequired` | TrimblePlayground/Shareable/PseudoExtras.swift:32-122 | A required member whose key is missing makes decoding fail, with no partial record. |
| `Telemetry.AbsentOptional` | TrimblePlayground/Shareable/PseudoExtras.swift:71-75 | An optional member that is missing or `null` decodes as absent, not as 0 or "". |
| `Telemetry.BadSatelliteFailsRecord` | TrimblePlayground/Shareable/PseudoExtras.swift:111-122 | One satellite entry that does not decode fails the whole record. |
| `Telemetry.UnknownKeyIgnored` | TrimblePlayground/Shareable/PseudoExtras.swift:18-30 | Setting any key that no member is read from leaves the decoding result unchanged. |
| `Telemetry.IdNeverRead` | TrimblePlayground/Shareable/PseudoExtras.swift:15-19 | An `id` in the JSON changes nothing, because `id` is a `let` with an initial value. |
| `Telemetry.VerticalAccuracyKey` | TrimblePlayground/Shareable/PseudoExtras.swift:21 | A decoded `verticalAccuracy` is the number at `verticalAccuracyMeters`. |
| `Telemetry.PlainVerticalAccuracyIgnored` | TrimblePlayground/Shareable/PseudoExtras.swift:21 | A key named `verticalAccuracy` is ignored. |
| `Telemetry.LenientMember` | TrimblePlayground/Shareable/PseudoExtras.swift:46-99 | Replacing the value of `diffStatus` or `subscriptionType` with anything never changes whether the record decodes. A string or `null` counts as anything here. The member becomes what the enum's decoder makes of the new value. |
| `Telemetry.Same` | TrimblePlayground/Shareable/PseudoExtras.swift:11-13 | Every report is `==` to itself, whatever its members hold. |
| `Telemetry.SameIsEquivalence` | TrimblePlayground/Shareable/PseudoExtras.swift:10-13 | `==` is reflexive, symmetric and transitive, as `Equatable` requires. |
| `Telemetry.DecodedTwiceDiffer` | TrimblePlayground/Shareable/PseudoExtras.swift:11-15 | Decoding the same JSON with two ids gives reports with identical members that are not `==`. Each report is `==` to itself. |
| `Telemetry.ZeroSlots` | TrimblePlayground/Shareable/PseudoExtras.swift:161 | In the initializer call of `zero`, every number is 0 and every string is empty. `battery` alone is absent. `diffStatus` is `Unknown`, `subscriptionType` is `Free` and there are no satellites. |
| `Telemetry.Zero` | TrimblePlayground/Shareable/PseudoExtras.swift:160-162 | `zero` is a report with the `id` it is given, and each member holds the value that `ZeroSlot` lists for it. |
| `Telemetry.ParseRecord` | TrimblePlayground/Shareable/PseudoExtras.swift:149-158 | `parse(string:)` returns a record exactly when the UTF-8 text parses to an object in which no member fails its rule. The record holds what the rules say. It never throws. |
| `PortHandshake.Encode64` | TrimblePlayground/Shareable/TMMServerSocketPort.swift:14-20 | `encode64()` is non-empty. Its length is a multiple of 4, and it uses only the base-64 alphabet and `=`. |
| `PortHandshake.MakeRequestUrl` | TrimblePlayground/Shareable/TMMServerSocketPort.swift:23-31 | The URL is the fixed prefix followed by base-64 characters only. |
| `PortHandshake.Query` | TrimblePlayground/Shareable/TMMServerSocketPort.swift:39-41 | A URL has no query exactly when no `?` comes before the fragment. A query never holds `#`. |
| `PortHandshake.QueryOfParts` | TrimblePlayground/Shareable/TMMServerSocketPort.swift:39-41 | The query of `p?q#f` is `q`. |
| `PortHandshake.DecodeResponse` | TrimblePlayground/Shareable/TMMServerSocketPort.swift:38-50 | A missing query gives `nil`, and so does invalid base 64. A port that is given fits in `Int`. |
| `PortHandshake.RequestUrlQuery` | TrimblePlayground/Shareable/TMMServerSocketPort.swift:23-26 | The query of the request URL is exactly `encode64()`. |
| `PortHandshake.RequestJson` | TrimblePlayground/Shareable/TMMServerSocketPort.swift:15-17 | For every string, the request JSON reads back as the object whose one member `returl` is that string. |
| `PortHandshake.RequestRoundTrip` | TrimblePlayground/Shareable/TMMServerSocketPort.swift:14-26 | The companion recovers `returl` from the request URL: query, then base 64, then JSON. |
| `PortHandshake.ResponsePort` | TrimblePlayground/Shareable/TMMServerSocketPort.swift:45-46 | The response data gives a port exactly when it is JSON text holding an object whose `port` member is a number with an integer value in the 64-bit range. The port is that value, and other members are ignored. |
| `PortHandshake.DecodeResponseOfData` | TrimblePlayground/Shareable/TMMServerSocketPort.swift:38-46 | Any URL whose query is base 64 of some data decodes to what that data holds. |
| `PortHandshake.SpacedResponsePort` | TrimblePlayground/Shareable/TMMServerSocketPort.swift:45-49 | `{"port": n}` with any whitespace between its tokens reads as `n`. |
| `PortHandshake.ResponseRoundTrip` | TrimblePlayground/Shareable/TMMServerSocketPort.swift:38-50 | A URL whose query is base 64 of `{"port":n}` decodes to `n`, whatever its scheme, host and fragment. |
| `PortHandshake.SpacedResponseRoundTrip` | TrimblePlaygroundTests/TrimblePlaygroundTests.swift:56-75 | The same holds for a pretty-printed response such as `{\n  "port": 9635\n}`. |
| `PortHandshake.DecodeResponseExactly` | TrimblePlayground/Shareable/TMMServerSocketPort.swift:38-50 | `decode(response:)` gives `n` if and only if the query is base 64 of JSON text whose `port` is `n`. |
| `PortVectors.RequestEncoding` | TrimblePlaygroundTests/TrimblePlaygroundTests.swift:43-47 | The compact JSON for `returl` `socketport://spp4d.playground.ios` encodes to `eyJyZXR1cmwiOiJzb2NrZXRwb3J0Oi8vc3BwNGQucGxheWdyb3VuZC5pb3MifQ==`. The proof writes this as four pieces of 16 characters. |
| `PortVectors.PortRequestVector` | TrimblePlaygroundTests/TrimblePlaygroundTests.swift:43-53 | `makeTMMRequestURL()` for that request is the expected URL: the fixed prefix, then the query above. |
| `PortVectors.ResponseEncoding` | TrimblePlaygroundTests/TrimblePlaygroundTests.swift:57-63 | `{\n  "port": 9635\n}` encodes to `ewogICJwb3J0IjogOTYzNQp9`. |
| `PortVectors.PortResponseVector` | TrimblePlaygroundTests/TrimblePlaygroundTests.swift:56-75 | A URL with the query `ewogICJwb3J0IjogOTYzNQp9` decodes to port 9635, whatever its scheme and host. |
| `Base64.Encode` | TrimblePlayground/Shareable/TMMServerSocketPort.swift:19 | `base64EncodedString()` has length 4·⌈n/3⌉. It uses only the alphabet, with `=` only in the last two places. |
| `Base64.EncodeQuanta` | TrimblePlayground/Shareable/TMMServerSocketPort.swift:19 | The encoding's length is a multiple of 4, and it is empty only for no bytes. |
| `Base64.EncodeAppend` | TrimblePlayground/Shareable/TMMServerSocketPort.swift:19 | Encoding works block by block: after a prefix whose length is a multiple of 3, the encodings concatenate. |
| `Base64.Decode` | TrimblePlayground/Shareable/TMMServerSocketPort.swift:42-44 | The model's strict canonical decoder, which stands in for `Data(base64Encoded:)`. A text it decodes has the length an encoding of the decoded bytes has. |
| `Base64.DecodeEncode` | TrimblePlayground/Shareable/TMMServerSocketPort.swift:42-44 | The strict decoder gives back the bytes of every encoding. On these texts it agrees with `Data(base64Encoded:)`. |
| `Base64.EncodeDecode` | TrimblePlayground/Shareable/TMMServerSocketPort.swift:42-44 | Any text the strict decoder accepts is the canonical encoding of what it decodes to. |
| `Base64.DecodeIffEncode` | TrimblePlayground/Shareable/TMMServerSocketPort.swift:42-44 | The strict decoder gives `b` exactly when `b` encodes to the text. |
| `Utf8.EncodeChar` | TrimblePlayground/Shareable/PseudoExtras.swift:150 | A character takes 1 to 4 bytes, one exactly when it is ASCII. A multi-byte sequence has a valid lead byte and continuation bytes. |
| `Utf8.DecodeEncodeChar` | TrimblePlayground/Shareable/PseudoExtras.swift:150 | Every character's UTF-8 bytes decode back to it. |
| `JsonWriter.EscapeChar` | TrimblePlayground/Shareable/TMMServerSocketPort.swift:15-17 | `JSONEncoder` with `.withoutEscapingSlashes` writes a backslash first exactly for `"`, `\` and the control characters below U+0020. Every other character is written without one, `/` among them. No character's text starts with a bare `"`. |
| `JsonWriter.ParseStringText` | TrimblePlayground/Shareable/TMMServerSocketPort.swift:15-17 | A string written by the encoder, with `/` unescaped, reads back as the same string. |
| `JsonWriter.ParseIntText` | TrimblePlayground/Shareable/TMMServerSocketPort.swift:35 | An integer written in decimal reads back as the same integer. |
| `JsonText.Parse` | TrimblePlayground/Shareable/TMMServerSocketPort.swift:46 | Text that is nothing but whitespace, the empty text included, is not JSON and does not decode. |
| `JsonText.ParseLeadingWhitespace` | TrimblePlayground/Shareable/PseudoExtras.swift:152 | Whitespace in front of a JSON text never changes what it decodes to. |
| `JsonWriter.ParseSpacedObjectText` | TrimblePlayground/Shareable/TMMServerSocketPort.swift:46 | A one-member object with any whitespace between its tokens parses to that member. |
| `Json.AsInt` | TrimblePlayground/Shareable/TMMServerSocketPort.swift:35 | `decode(Int.self)` gives an `Int` if and only if the value is a number whose value is an integer that fits in 64 bits, and the `Int` is that value. A plain integer literal reads as itself. |

## Left out

- `PortVectors.PortResponseVector` leaves the scheme and host symbolic, and
  does not state the literal `socketport://ting.playground.ios`. Every scheme
  and host without `?` or `#` is covered, and the test's host is one of them.
  Stating the whole literal URL at once makes the verifier evaluate the
  decoder on every character, which is more than its resource limit allows.
- `PortVectors.RequestEncoding` and `PortVectors.PortRequestVector` write the
  expected query as four pieces of 16 characters rather than one string
  literal. The characters are the same.
- Floating point: `Double` and `Float` members keep the JSON number exactly as
  written. Rounding to binary is not modelled. Neither are `Float`'s and
  `Double`'s ranges, which can make a huge number such as `1e400` fail.
- `UUID()` is a parameter `id`, because it is random.
- `malley` is not modelled, because it draws random offsets and reads the
  clock.
- `print` is not modelled, because it is logging only.
- The app never runs the handshake. `makeTMMRequestURL()` only builds and
  returns a `URL?`, and only the unit tests call it. The one
  `UIApplication.shared.open` in CatalystWebSocket.swift is commented out. The
  WebSocket connects to the fixed `ws://127.0.0.1:9635`. The model states what
  the two halves compute, not that the app uses them.
- CatalystWebSocket.swift, ContentView.swift and TrimblePlaygroundApp.swift are
  not part of this model. They hold the WebSocket loop, the UI and the app
  lifecycle. `parse(string:)` never throws, so the `catch` around it in the
  WebSocket loop never runs.
- Foundation's encoding detection is not modelled. The JSON is read as UTF-8
  without a byte-order mark.
- Foundation's limit on nesting depth is not modelled.
- `Base64.Decode` is the strict canonical decoder: the length is a multiple of
  4, `=` appears only at the end, and padding bits are zero.
  `Data(base64Encoded:)` may accept some texts this rejects.
- `JsonWriter.EscapeChar` uses lower-case hex for `\u00xx` escapes and
  escapes no characters beyond those RFC 8259 requires.
- `URL(string:)` validation and percent-decoding are not modelled. Every
  request URL consists of the fixed prefix and base-64 characters, which need
  no escaping. `Query` returns the query as written.
- `Json.AsInt` takes the exact decimal value of every number. Plain integer
  literals are exact both here and in Foundation, up to the 64-bit limit. A
  number written with a fraction or an exponent goes through `Double` in
  Foundation, at any size, before `Int(exactly:)` is applied. The rounding can
  produce an integer there: Foundation reads `1.0000000000000001` as 1 and
  `1e-400` as 0, and a `diffStatus` of `2.0000000000000001` gives `DGPS`. The
  model reads the first two as no `Int`, and that `diffStatus` as `Unknown`.
- `JsonText.ParseMembers` keeps the later member when an object repeats a key.
  Foundation's `JSONDecoder` keeps the first occurrence, so `{"port":1,"port":2}`
  gives port 1 in the app and 2 in the model. This affects
  `PortHandshake.ResponsePort`, `PortHandshake.DecodeResponseExactly` and
  `Telemetry.DecodeRecord` only on input that repeats a key.
- `totalSatInView == satelliteView.count` and `satellites` equal to the
  number of satellites in use are not stated. The test marks the first as not
  guaranteed, and no code enforces either.
- `zero` in the code sets `mslHeight` and `undulation` to 0 and `geoidModel`
  to "". These are present values, not absent ones, and `ZeroSlots` states
  exactly that.
- Which member failed first is not recorded. `Option` carries no error, so a
  record that fails on two members fails the same way.
