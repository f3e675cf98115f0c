# sim2h wire messages

A Dafny model of `crates/sim2h/src/wire_message.rs` from holochain-rust. The file defines the
envelope a sim2h hub and its clients exchange. The model covers:

- `WireMessage`, with its nine variants, together with `WireError` and `StatusData`.
- The four lib3h enums the envelope wraps (`ClientToLib3h`, `ClientToLib3hResponse`,
  `Lib3hToClient`, `Lib3hToClientResponse`). They are modelled by their variants. The payload
  a variant carries is an opaque type parameter `P`.
- The priority order `Ord::cmp` / `PartialOrd::partial_cmp`. Responses rank above everything
  else, and all messages within a tier compare `Equal`.
- `message_type`, the label a message is logged under. A wrapped lib3h message's label is
  written as its direction marker followed by a name, which gives the same strings as the
  source's literals. Three labels keep the source's misspellings: `[C>L]SendDirectmessage`, `[C<L]BootsrapSuccess` and
  `[L>C]HandleGetAuthoringList`. The label of every `Err` is the fixed text `[Error] {:?}`.
- The wire text. `From<WireMessage> for String` / `Opaque` is `serde_json::to_string` in
  serde's externally tagged enum form. `TryFrom<Opaque>` and `TryFrom<&Opaque>` are
  `serde_json::from_str`; a failure becomes `WireError::Other` holding the `Debug` text of
  the serde error.
- `WireError::from(&str)`, which wraps the `Debug`-quoted text. `WireError::from(String)`,
  which wraps the text unchanged.

Files:

- `wrappers.dfy`: `Option` and `Result`.
- `debug_format.dfy`: Rust's `{:?}` rendering of a string, and its inverse.
- `json.dfy`: the stand-in for serde_json. It has a JSON value type, the compact printer, a
  recursive-descent parser for that compact form reporting serde_json's error codes, and the proof that parsing
  undoes printing.
- `wire_message.dfy`: module `Wire`. It holds the data model, the order, the labels and the
  `WireError` conversions.
- `wire_codec.dfy`: module `WireCodec`. It holds the serde enum encoding, `Encode`/`Decode`
  and their round trip.

A payload's own serialization is a parameter, a `PayloadCodec` (`enc`, `dec`). The round
trip holds whenever the codec reads back what it writes (`Lawful`).

The order is deliberately coarser than equality: `Ping` and `Pong` compare `Equal` although
they differ. `Wire.CmpCoarserThanEquality` states this. The source declares `impl Eq` for
this order, which Rust's `Ord` documentation asks to agree with `==`.

## Model

| member | source | states |
|---|---|---|
| Wire.WireError.FromStr | crates/sim2h/src/wire_message.rs:194-198 | the result is `Other` holding the `{:?}` rendering of the input, and that text reads back (`UndebugStr`) to exactly the input string |
| Wire.WireError.FromString | crates/sim2h/src/wire_message.rs:200-204 | the result is `Other` holding the input text unchanged |
| Wire.FromStrIsNotFromString | crates/sim2h/src/wire_message.rs:194-204 | converting a `&str` and converting a `String` with the same text never give the same error |
| Wire.FromStrOfTestText | crates/sim2h/src/wire_message.rs:218 | the test's `"fake_error".into()` is `Other` holding `fake_error` between double quotes, nothing escaped |
| Wire.Cmp | crates/sim2h/src/wire_message.rs:36-66 | the nested match equals comparing the tiers: 1 for the two response variants, 0 for every other variant |
| Wire.PartialCmp | crates/sim2h/src/wire_message.rs:73-77 | always defined, and equal to the tier comparison |
| Wire.ResponseCompares | crates/sim2h/src/wire_message.rs:40-56 | a response is Equal to any response and Greater than any non-response |
| Wire.NonResponseCompares | crates/sim2h/src/wire_message.rs:58-63 | a non-response is Less than any response and Equal to any non-response |
| Wire.CmpReflexive | crates/sim2h/src/wire_message.rs:36-66 | every message compares Equal to itself |
| Wire.CmpAntisymmetric | crates/sim2h/src/wire_message.rs:36-66 | swapping the operands reverses the ordering |
| Wire.CmpTransitive | crates/sim2h/src/wire_message.rs:36-66 | not-greater, less and equal are transitive, so the order is a total preorder |
| Wire.CmpCoarserThanEquality | crates/sim2h/src/wire_message.rs:36-71 | equal messages compare Equal, but Ping and Pong compare Equal although they differ |
| Wire.SortedGroupsResponsesLast | crates/sim2h/src/wire_message.rs:36-66 | in a sequence sorted by the order, every message from the first response on is a response |
| Wire.ClientToLib3hLabels | crates/sim2h/src/wire_message.rs:87-95 | every `ClientToLib3h` label starts with `[C>L]` |
| Wire.ClientToLib3hResponseLabels | crates/sim2h/src/wire_message.rs:96-113 | every `ClientToLib3hResponse` label starts with `[C<L]` |
| Wire.Lib3hToClientLabels | crates/sim2h/src/wire_message.rs:114-137 | every `Lib3hToClient` label starts with `[L>C]` |
| Wire.Lib3hToClientResponseLabels | crates/sim2h/src/wire_message.rs:138-158 | every `Lib3hToClientResponse` label starts with `[L<C]` |
| Wire.MessageTypeDirection | crates/sim2h/src/wire_message.rs:80-161 | a label starts with `[C>L]`, `[C<L]`, `[L>C]` or `[L<C]` exactly when the message wraps the corresponding lib3h enum |
| Wire.ClientToLib3hLabelsDistinct | crates/sim2h/src/wire_message.rs:87-95 | two `ClientToLib3h` messages share a label exactly when they are the same variant |
| Wire.ClientToLib3hResponseLabelsDistinct | crates/sim2h/src/wire_message.rs:96-113 | two `ClientToLib3hResponse` messages share a label exactly when they are the same variant |
| Wire.Lib3hToClientLabelsDistinct | crates/sim2h/src/wire_message.rs:114-137 | two `Lib3hToClient` messages share a label exactly when they are the same variant |
| Wire.Lib3hToClientResponseLabelsDistinct | crates/sim2h/src/wire_message.rs:138-158 | two `Lib3hToClientResponse` messages share a label exactly when they are the same variant |
| Wire.ClientToLib3hNames | crates/sim2h/src/wire_message.rs:87-95 | after `[C>L]`, the label spells the variant's name for every variant except `SendDirectMessage`, which is logged as `SendDirectmessage` |
| Wire.ClientToLib3hResponseNames | crates/sim2h/src/wire_message.rs:96-113 | after `[C<L]`, the label spells the variant's name for every variant except `BootstrapSuccess`, which is logged as `BootsrapSuccess` |
| Wire.Lib3hToClientNames | crates/sim2h/src/wire_message.rs:114-137 | after `[L>C]`, the label spells the variant's name for every variant except `HandleGetAuthoringEntryList`, which is logged as `HandleGetAuthoringList` |
| Wire.Lib3hToClientResponseNames | crates/sim2h/src/wire_message.rs:138-158 | after `[L<C]`, the label spells the variant's name for every variant |
| Wire.MessageTypeDistinguishesKinds | crates/sim2h/src/wire_message.rs:80-161 | two messages get the same label exactly when they have the same envelope variant and the same wrapped variant |
| Wire.ErrorLabelIgnoresError | crates/sim2h/src/wire_message.rs:159 | every `Err` message has the label `[Error] {:?}`, whatever error it carries |
| DebugFormat.DebugStr | crates/sim2h/src/wire_message.rs:196 | `format!("{:?}", s)` is at least two characters longer than `s` and opens and closes with a double quote |
| DebugFormat.EscapeDebugPlain | crates/sim2h/src/wire_message.rs:196 | text without quote, backslash, NUL, tab, CR or LF is rendered unchanged |
| DebugFormat.UnescapeDebugOfEscape | crates/sim2h/src/wire_message.rs:196 | reading back the escaped text, up to the closing quote, gives the original text |
| DebugFormat.DebugStrRoundTrip | crates/sim2h/src/wire_message.rs:194-198 | the debug rendering can be undone, so `WireError::from(&str)` loses nothing |
| DebugFormat.DebugStrInjective | crates/sim2h/src/wire_message.rs:194-198 | distinct strings have distinct debug renderings |
| Json.Print | crates/sim2h/src/wire_message.rs:164-176 | the serialized text is non-empty and starts a JSON value |
| Json.EscapePlain | crates/sim2h/src/wire_message.rs:164-176 | text without quotes, backslashes or control characters is written unchanged inside a string literal |
| Json.ParseStringBodyOfEscape | crates/sim2h/src/wire_message.rs:178-192 | reading an escaped string literal gives back the string and leaves the text after the closing quote |
| Json.DigitsValueOfNatToString | crates/sim2h/src/wire_message.rs:15-21 | the decimal text of a number denotes that number |
| Json.ParseValueOfPrint | crates/sim2h/src/wire_message.rs:178-192 | reading a value from its printed text, followed by any text not starting with a digit, gives the value and leaves that text |
| Json.Parse | crates/sim2h/src/wire_message.rs:178-192 | a syntax error's position lies inside the input |
| Json.ParsePrint | crates/sim2h/src/wire_message.rs:164-192 | `from_str` of `to_string` gives back the JSON value |
| Json.PrintInjective | crates/sim2h/src/wire_message.rs:164-176 | distinct JSON values serialize to distinct texts |
| Json.DebugError | crates/sim2h/src/wire_message.rs:181-182 | the `Debug` text of a serde error is longer than its message |
| Json.Position | crates/sim2h/src/wire_message.rs:181-182 | error lines are counted from 1 |
| Json.Utf8Width | crates/sim2h/src/wire_message.rs:181-182 | a character takes one to four bytes of an error column, one exactly for ASCII |
| Json.ParseNumber | crates/sim2h/src/wire_message.rs:181-182 | a run of digits is read exactly when it does not start with `0` followed by another digit; otherwise the error is "invalid number" |
| Json.LeadingZeroRejected | crates/sim2h/src/wire_message.rs:181-182 | `01` is rejected as an invalid number after one character |
| Json.TrailingCommaInList | crates/sim2h/src/wire_message.rs:181-182 | `[1,]` is rejected with "trailing comma" at the closing bracket |
| Json.TrailingCommaInObject | crates/sim2h/src/wire_message.rs:181-182 | `{"a":1,}` is rejected with "trailing comma" at the closing brace |
| WireCodec.SplitEnum | crates/sim2h/src/wire_message.rs:178-192 | an enum is read from exactly the two shapes serde writes, a bare variant name or a one-member object, and the reading inverts them |
| WireCodec.UnitContent | crates/sim2h/src/wire_message.rs:178-192 | a unit variant is accepted with no content or with `null` content, and with nothing else |
| WireCodec.Content | crates/sim2h/src/wire_message.rs:178-192 | a newtype variant is accepted exactly when it comes with content, and gives that content |
| WireCodec.PayloadContent | crates/sim2h/src/wire_message.rs:178-192 | a payload is read by the payload codec, and it is an error when the content is missing |
| WireCodec.UnsignedField | crates/sim2h/src/wire_message.rs:15-21 | a `StatusData` field is read exactly when its key occurs once, with an integer value below the Rust type's limit |
| WireCodec.ClientToLib3hRoundTrip | crates/sim2h/src/wire_message.rs:23-34 | every `ClientToLib3h` reads back from its JSON form |
| WireCodec.ClientToLib3hResponseRoundTrip | crates/sim2h/src/wire_message.rs:23-34 | every `ClientToLib3hResponse` reads back from its JSON form, unit variants included |
| WireCodec.Lib3hToClientRoundTrip | crates/sim2h/src/wire_message.rs:23-34 | every `Lib3hToClient` reads back from its JSON form |
| WireCodec.Lib3hToClientResponseRoundTrip | crates/sim2h/src/wire_message.rs:23-34 | every `Lib3hToClientResponse` reads back from its JSON form, unit variants included |
| WireCodec.ClientToLib3hTagsListed | crates/sim2h/src/wire_message.rs:23-34 | the names an unknown-variant error lists include every `ClientToLib3h` tag, and no tag off that list decodes |
| WireCodec.ClientToLib3hResponseTagsListed | crates/sim2h/src/wire_message.rs:23-34 | the same for `ClientToLib3hResponse` |
| WireCodec.Lib3hToClientTagsListed | crates/sim2h/src/wire_message.rs:23-34 | the same for `Lib3hToClient` |
| WireCodec.Lib3hToClientResponseTagsListed | crates/sim2h/src/wire_message.rs:23-34 | the same for `Lib3hToClientResponse` |
| WireCodec.WireMessageTagsListed | crates/sim2h/src/wire_message.rs:23-34 | the same for the nine `WireMessage` variants |
| WireCodec.WireErrorRoundTrip | crates/sim2h/src/wire_message.rs:9-13 | both `WireError` variants read back from their JSON form |
| WireCodec.StatusDataRoundTrip | crates/sim2h/src/wire_message.rs:15-21 | a `StatusData` reads back from its four-field JSON object |
| WireCodec.FromJsonOfToJson | crates/sim2h/src/wire_message.rs:23-34 | every message reads back from its JSON form when the payload codec is lawful |
| WireCodec.FromJsonOfToJsonLib3h | crates/sim2h/src/wire_message.rs:25-28 | the four lib3h wrappers read back from their JSON form |
| WireCodec.FromJsonOfToJsonEnvelope | crates/sim2h/src/wire_message.rs:29-33 | `Ping`, `Pong`, `Err`, `Status` and `StatusResponse` read back from their JSON form, whatever the payload codec |
| WireCodec.FromJsonOfErr | crates/sim2h/src/wire_message.rs:31 | an `Err` reads back from its JSON form |
| WireCodec.FromJsonOfStatusResponse | crates/sim2h/src/wire_message.rs:33 | a `StatusResponse` reads back from its JSON form |
| WireCodec.Decode | crates/sim2h/src/wire_message.rs:178-192 | a failed read is always `WireError::Other` with a non-empty text, never `MessageWhileInLimbo` |
| WireCodec.DecodeEncode | crates/sim2h/src/wire_message.rs:164-192 | `try_from` of the text a message converts to gives back that message |
| WireCodec.EncodeInjective | crates/sim2h/src/wire_message.rs:164-176 | two messages convert to the same text exactly when they are equal |
| WireCodec.DecodeEncodeEnvelope | crates/sim2h/src/wire_message.rs:216-227 | a message without a lib3h payload, such as the crate test's `Err`, reads back from its text with any payload codec |
| WireCodec.DecodeEmpty | crates/sim2h/src/wire_message.rs:178-184 | an empty text fails with the end-of-input error, reported at line 1, column 0 |

## Left out

- `From<WireError> for Sim2hError` (lines 206-210): `Sim2hError` is defined in `crates/sim2h/src/error.rs`, which is not part of this model.
- `Opaque` as bytes: the wire text is modelled as a string of characters. `String::from_utf8_lossy` and its replacement of invalid UTF-8 are not modelled.
- The `Display` of `Opaque` that the crate's test compares against (lines 221-224) is not modelled. The test's round trip is `WireCodec.DecodeEncodeEnvelope`.
- Payload contents: the lib3h data structs are an opaque type parameter `P`, and their serialization is a parameter. `DecodeEncode` holds for lawful payload codecs only.
- JSON: whitespace, negative and fractional numbers, exponents, and `\uXXXX` surrogate pairs are not read. Only the compact form `to_string` writes is modelled.
- JSON: numbers of 2^64 and above are read as integers and reported as out of range. serde_json reads them as floats.
- JSON: the array form of a struct (`[1,2,3,1]` for `StatusData`), which serde also accepts, is rejected.
- WireCodec.DecodeEncode: serde_json's nesting limit is not modelled. serde_json stops with "recursion limit exceeded" once arrays and objects nest 128 deep, so a lib3h message whose payload JSON nests 126 levels or more fails to read back. The model promises the round trip at any depth.
- Error texts of failed reads: a syntax error carries the message serde_json gives for the error the model's parser stops at (leading zeros, trailing commas and unexpected ends included). Its line and column are counted as serde_json counts them, lines from 1 and columns in UTF-8 bytes, at the point where the model's parser stops. serde_json sometimes reports one character further on, after peeking at it. Data errors (unknown variant, missing or duplicate field, invalid type or value) are reported at the end of the text, not at the point serde_json stops. When several errors apply, the model may pick a different first error than serde.
- Rust's `{:?}` rendering escapes other non-printable characters as `\u{..}`; the model escapes only quote, backslash, NUL, tab, CR and LF. It follows Rust 1.61 and later, which write NUL as `\0`; earlier releases wrote `\u{0}`.
- `tx-structured-log.js`, a script that reads logs from standard input, is not part of this model.
