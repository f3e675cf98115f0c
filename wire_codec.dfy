/** The wire text of a `WireMessage` (crates/sim2h/src/wire_message.rs, the `From<WireMessage>`
    and `TryFrom<Opaque>` impls): serde's externally tagged JSON form, written by
    `serde_json::to_string` and read back by `serde_json::from_str`, with every read failure
    turned into a `WireError::Other` holding the `Debug` text of the serde error.

    A unit variant is the JSON string of its name (`"Ping"`); a newtype variant is an object
    with one member named after the variant (`{"Err":{"Other":"..."}}`). When reading, a unit
    variant may also be written `{"Ping":null}`. */
module WireCodec {
  import opened Wrappers
  import opened Json
  import opened Wire
  import DebugFormat

  // =======================================================================================
  // Payloads

  /** How the opaque payload of a lib3h variant is written and read back. */
  datatype PayloadCodec<!P> = PayloadCodec(enc: P -> Json, dec: Json -> Result<P, string>)

  /** A payload codec reads back what it writes. */
  ghost predicate Lawful<P(!new)>(c: PayloadCodec<P>)
  {
    forall p :: c.dec(c.enc(p)) == Success(p)
  }

  // =======================================================================================
  // serde's externally tagged enum form

  function UnitVariant(tag: string): Json
  {
    JStr(tag)
  }

  function NewtypeVariant(tag: string, content: Json): Json
  {
    JObj([Member(tag, content)])
  }

  /** A variant name as read, with the content that followed it, if any. */
  datatype Variant = Variant(tag: string, content: Option<Json>)

  /** Reads the variant name of an enum value, and its content when written as an object.
      Exactly the two shapes the writer produces are accepted. */
  function SplitEnum(j: Json): (r: Result<Variant, string>)
    ensures r.Success? && r.value.content.None? ==> j == UnitVariant(r.value.tag)
    ensures r.Success? && r.value.content.Some? ==> j == NewtypeVariant(r.value.tag, r.value.content.value)
    ensures j.JStr? || (j.JObj? && |j.members| == 1) ==> r.Success?
  {
    match j
    case JStr(t) => Success(Variant(t, None))
    case JObj(ms) =>
      if |ms| == 1 then
        assert ms == [Member(ms[0].key, ms[0].value)];
        Success(Variant(ms[0].key, Some(ms[0].value)))
      else Failure(Message(ExpectedValue))
    case _ => Failure(Message(ExpectedValue))
  }

  /** serde's `Unexpected` rendering of a JSON value, as used in "invalid type" messages. */
  function Unexpected(j: Json): string
  {
    match j
    case JNull => "null"
    case JBool(b) => if b then "boolean `true`" else "boolean `false`"
    case JNum(n) => "integer `" + NatToString(n) + "`"
    case JStr(s) => "string " + DebugFormat.DebugStr(s)
    case JArr(_) => "sequence"
    case JObj(_) => "map"
  }

  function InvalidType(j: Json, expected: string): (r: string)
    ensures |r| > |expected|
  {
    "invalid type: " + Unexpected(j) + ", expected " + expected
  }

  /** Names in backticks, separated by commas. */
  function Backticked(names: seq<string>): string
  {
    if names == [] then ""
    else if |names| == 1 then "`" + names[0] + "`"
    else "`" + names[0] + "`, " + Backticked(names[1..])
  }

  /** serde's `OneOf` rendering of the names a decoder accepts: one name alone, two joined
      by "or", more as "one of" and a list. */
  function OneOf(names: seq<string>): string
  {
    if |names| == 1 then "`" + names[0] + "`"
    else if |names| == 2 then "`" + names[0] + "` or `" + names[1] + "`"
    else "one of " + Backticked(names)
  }

  function UnknownVariant(tag: string, names: seq<string>): (r: string)
    ensures |r| > |tag|
  {
    "unknown variant `" + tag + "`, expected " + OneOf(names)
  }

  /** The content of a unit variant: nothing, or `null` in the object form. */
  function UnitContent(v: Variant): (r: Result<(), string>)
    ensures r.Success? <==> v.content.None? || v.content == Some(JNull)
  {
    match v.content
    case None => Success(())
    case Some(JNull) => Success(())
    case Some(other) => Failure(InvalidType(other, "unit"))
  }

  /** The content of a newtype variant, which the object form must supply. */
  function Content(v: Variant): (r: Result<Json, string>)
    ensures r.Success? <==> v.content.Some?
    ensures r.Success? ==> r.value == v.content.value
  {
    match v.content
    case None => Failure("invalid type: unit variant, expected newtype variant")
    case Some(x) => Success(x)
  }

  function PayloadContent<P>(v: Variant, c: PayloadCodec<P>): (r: Result<P, string>)
    ensures v.content.Some? ==> r == c.dec(v.content.value)
    ensures v.content.None? ==> r.Failure?
  {
    var x :- Content(v);
    c.dec(x)
  }

  // =======================================================================================
  // lib3h enums

  const ClientToLib3hTags: seq<string> :=
    ["Bootstrap", "FetchEntry", "JoinSpace", "LeaveSpace", "PublishEntry", "QueryEntry",
     "SendDirectMessage"]

  /** The names an unknown-variant error lists: every variant's tag is among them, and the
      decoder accepts no other tag. */
  lemma ClientToLib3hTagsListed<P>(x: ClientToLib3h<P>, j: Json, c: PayloadCodec<P>)
    ensures x.Tag() in ClientToLib3hTags
    ensures ClientToLib3hFromJson(j, c).Success? ==>
      SplitEnum(j).Success? && SplitEnum(j).value.tag in ClientToLib3hTags
  {
  }

  function ClientToLib3hToJson<P>(x: ClientToLib3h<P>, c: PayloadCodec<P>): Json
  {
    NewtypeVariant(x.Tag(), c.enc(x.data))
  }

  function ClientToLib3hFromJson<P>(j: Json, c: PayloadCodec<P>): Result<ClientToLib3h<P>, string>
  {
    var v :- SplitEnum(j);
    match v.tag
    case "Bootstrap" => var d :- PayloadContent(v, c); Success(Bootstrap(d))
    case "FetchEntry" => var d :- PayloadContent(v, c); Success(FetchEntry(d))
    case "JoinSpace" => var d :- PayloadContent(v, c); Success(JoinSpace(d))
    case "LeaveSpace" => var d :- PayloadContent(v, c); Success(LeaveSpace(d))
    case "PublishEntry" => var d :- PayloadContent(v, c); Success(PublishEntry(d))
    case "QueryEntry" => var d :- PayloadContent(v, c); Success(QueryEntry(d))
    case "SendDirectMessage" => var d :- PayloadContent(v, c); Success(SendDirectMessage(d))
    case _ => Failure(UnknownVariant(v.tag, ClientToLib3hTags))
  }

  lemma ClientToLib3hRoundTrip<P(!new)>(x: ClientToLib3h<P>, c: PayloadCodec<P>)
    requires Lawful(c)
    ensures ClientToLib3hFromJson(ClientToLib3hToJson(x, c), c) == Success(x)
  {
    assert c.dec(c.enc(x.data)) == Success(x.data);
  }

  const ClientToLib3hResponseTags: seq<string> :=
    ["BootstrapSuccess", "FetchEntryResult", "JoinSpaceResult", "LeaveSpaceResult",
     "QueryEntryResult", "SendDirectMessageResult"]

  lemma ClientToLib3hResponseTagsListed<P>(x: ClientToLib3hResponse<P>, j: Json, c: PayloadCodec<P>)
    ensures x.Tag() in ClientToLib3hResponseTags
    ensures ClientToLib3hResponseFromJson(j, c).Success? ==>
      SplitEnum(j).Success? && SplitEnum(j).value.tag in ClientToLib3hResponseTags
  {
  }

  function ClientToLib3hResponseToJson<P>(x: ClientToLib3hResponse<P>, c: PayloadCodec<P>): Json
  {
    match x
    case FetchEntryResult(d) => NewtypeVariant(x.Tag(), c.enc(d))
    case QueryEntryResult(d) => NewtypeVariant(x.Tag(), c.enc(d))
    case SendDirectMessageResult(d) => NewtypeVariant(x.Tag(), c.enc(d))
    case _ => UnitVariant(x.Tag())
  }

  function ClientToLib3hResponseFromJson<P>(j: Json, c: PayloadCodec<P>): Result<ClientToLib3hResponse<P>, string>
  {
    var v :- SplitEnum(j);
    match v.tag
    case "BootstrapSuccess" => var _ :- UnitContent(v); Success(BootstrapSuccess)
    case "FetchEntryResult" => var d :- PayloadContent(v, c); Success(FetchEntryResult(d))
    case "JoinSpaceResult" => var _ :- UnitContent(v); Success(JoinSpaceResult)
    case "LeaveSpaceResult" => var _ :- UnitContent(v); Success(LeaveSpaceResult)
    case "QueryEntryResult" => var d :- PayloadContent(v, c); Success(QueryEntryResult(d))
    case "SendDirectMessageResult" => var d :- PayloadContent(v, c); Success(ClientToLib3hResponse.SendDirectMessageResult(d))
    case _ => Failure(UnknownVariant(v.tag, ClientToLib3hResponseTags))
  }

  lemma ClientToLib3hResponseRoundTrip<P(!new)>(x: ClientToLib3hResponse<P>, c: PayloadCodec<P>)
    requires Lawful(c)
    ensures ClientToLib3hResponseFromJson(ClientToLib3hResponseToJson(x, c), c) == Success(x)
  {
    if x.FetchEntryResult? || x.QueryEntryResult? || x.SendDirectMessageResult? {
      assert c.dec(c.enc(x.data)) == Success(x.data);
    }
  }

  const Lib3hToClientTags: seq<string> :=
    ["Connected", "HandleDropEntry", "HandleFetchEntry", "HandleGetAuthoringEntryList",
     "HandleGetGossipingEntryList", "HandleQueryEntry", "HandleSendDirectMessage",
     "HandleStoreEntryAspect", "SendDirectMessageResult", "Unbound"]

  lemma Lib3hToClientTagsListed<P>(x: Lib3hToClient<P>, j: Json, c: PayloadCodec<P>)
    ensures x.Tag() in Lib3hToClientTags
    ensures Lib3hToClientFromJson(j, c).Success? ==>
      SplitEnum(j).Success? && SplitEnum(j).value.tag in Lib3hToClientTags
  {
  }

  function Lib3hToClientToJson<P>(x: Lib3hToClient<P>, c: PayloadCodec<P>): Json
  {
    NewtypeVariant(x.Tag(), c.enc(x.data))
  }

  function Lib3hToClientFromJson<P>(j: Json, c: PayloadCodec<P>): Result<Lib3hToClient<P>, string>
  {
    var v :- SplitEnum(j);
    match v.tag
    case "Connected" => var d :- PayloadContent(v, c); Success(Connected(d))
    case "HandleDropEntry" => var d :- PayloadContent(v, c); Success(HandleDropEntry(d))
    case "HandleFetchEntry" => var d :- PayloadContent(v, c); Success(HandleFetchEntry(d))
    case "HandleGetAuthoringEntryList" => var d :- PayloadContent(v, c); Success(HandleGetAuthoringEntryList(d))
    case "HandleGetGossipingEntryList" => var d :- PayloadContent(v, c); Success(HandleGetGossipingEntryList(d))
    case "HandleQueryEntry" => var d :- PayloadContent(v, c); Success(HandleQueryEntry(d))
    case "HandleSendDirectMessage" => var d :- PayloadContent(v, c); Success(HandleSendDirectMessage(d))
    case "HandleStoreEntryAspect" => var d :- PayloadContent(v, c); Success(HandleStoreEntryAspect(d))
    case "SendDirectMessageResult" => var d :- PayloadContent(v, c); Success(Lib3hToClient.SendDirectMessageResult(d))
    case "Unbound" => var d :- PayloadContent(v, c); Success(Unbound(d))
    case _ => Failure(UnknownVariant(v.tag, Lib3hToClientTags))
  }

  lemma Lib3hToClientRoundTrip<P(!new)>(x: Lib3hToClient<P>, c: PayloadCodec<P>)
    requires Lawful(c)
    ensures Lib3hToClientFromJson(Lib3hToClientToJson(x, c), c) == Success(x)
  {
    assert c.dec(c.enc(x.data)) == Success(x.data);
  }

  const Lib3hToClientResponseTags: seq<string> :=
    ["HandleDropEntryResult", "HandleFetchEntryResult", "HandleGetAuthoringEntryListResult",
     "HandleGetGossipingEntryListResult", "HandleQueryEntryResult",
     "HandleSendDirectMessageResult", "HandleStoreEntryAspectResult"]

  lemma Lib3hToClientResponseTagsListed<P>(x: Lib3hToClientResponse<P>, j: Json, c: PayloadCodec<P>)
    ensures x.Tag() in Lib3hToClientResponseTags
    ensures Lib3hToClientResponseFromJson(j, c).Success? ==>
      SplitEnum(j).Success? && SplitEnum(j).value.tag in Lib3hToClientResponseTags
  {
  }

  function Lib3hToClientResponseToJson<P>(x: Lib3hToClientResponse<P>, c: PayloadCodec<P>): Json
  {
    match x
    case HandleDropEntryResult => UnitVariant(x.Tag())
    case HandleStoreEntryAspectResult => UnitVariant(x.Tag())
    case _ => NewtypeVariant(x.Tag(), c.enc(x.data))
  }

  function Lib3hToClientResponseFromJson<P>(j: Json, c: PayloadCodec<P>): Result<Lib3hToClientResponse<P>, string>
  {
    var v :- SplitEnum(j);
    match v.tag
    case "HandleDropEntryResult" => var _ :- UnitContent(v); Success(HandleDropEntryResult)
    case "HandleFetchEntryResult" => var d :- PayloadContent(v, c); Success(HandleFetchEntryResult(d))
    case "HandleGetAuthoringEntryListResult" => var d :- PayloadContent(v, c); Success(HandleGetAuthoringEntryListResult(d))
    case "HandleGetGossipingEntryListResult" => var d :- PayloadContent(v, c); Success(HandleGetGossipingEntryListResult(d))
    case "HandleQueryEntryResult" => var d :- PayloadContent(v, c); Success(HandleQueryEntryResult(d))
    case "HandleSendDirectMessageResult" => var d :- PayloadContent(v, c); Success(HandleSendDirectMessageResult(d))
    case "HandleStoreEntryAspectResult" => var _ :- UnitContent(v); Success(HandleStoreEntryAspectResult)
    case _ => Failure(UnknownVariant(v.tag, Lib3hToClientResponseTags))
  }

  lemma Lib3hToClientResponseRoundTrip<P(!new)>(x: Lib3hToClientResponse<P>, c: PayloadCodec<P>)
    requires Lawful(c)
    ensures Lib3hToClientResponseFromJson(Lib3hToClientResponseToJson(x, c), c) == Success(x)
  {
    if !x.HandleDropEntryResult? && !x.HandleStoreEntryAspectResult? {
      assert c.dec(c.enc(x.data)) == Success(x.data);
    }
  }

  // =======================================================================================
  // WireError and StatusData

  const WireErrorTags: seq<string> := ["MessageWhileInLimbo", "Other"]

  function WireErrorToJson(e: WireError): Json
  {
    match e
    case MessageWhileInLimbo => UnitVariant("MessageWhileInLimbo")
    case Other(t) => NewtypeVariant("Other", JStr(t))
  }

  function WireErrorFromJson(j: Json): Result<WireError, string>
  {
    var v :- SplitEnum(j);
    match v.tag
    case "MessageWhileInLimbo" => var _ :- UnitContent(v); Success(MessageWhileInLimbo)
    case "Other" =>
      var x :- Content(v);
      if x.JStr? then Success(Other(x.s)) else Failure(InvalidType(x, "a string"))
    case _ => Failure(UnknownVariant(v.tag, WireErrorTags))
  }

  lemma WireErrorRoundTrip(e: WireError)
    ensures WireErrorFromJson(WireErrorToJson(e)) == Success(e)
  {
  }

  const USIZE_LIMIT: nat := 0x1_0000_0000_0000_0000
  const U64_LIMIT: nat := 0x1_0000_0000_0000_0000
  const U32_LIMIT: nat := 0x1_0000_0000

  /** The values given for `key` among an object's members, in order. */
  function Values(ms: seq<Member>, key: string): (r: seq<Json>)
    ensures |r| <= |ms|
  {
    if ms == [] then []
    else if ms[0].key == key then [ms[0].value] + Values(ms[1..], key)
    else Values(ms[1..], key)
  }

  /** An unsigned integer field of a struct, read from an object: it must occur exactly once
      and fit the field's Rust type. */
  function UnsignedField(ms: seq<Member>, key: string, limit: nat, rustType: string): (r: Result<nat, string>)
    ensures r.Success? <==> |Values(ms, key)| == 1 && Values(ms, key)[0].JNum? && Values(ms, key)[0].n < limit
    ensures r.Success? ==> Values(ms, key)[0] == JNum(r.value)
  {
    var vs := Values(ms, key);
    if vs == [] then Failure("missing field `" + key + "`")
    else if |vs| > 1 then Failure("duplicate field `" + key + "`")
    else match vs[0]
      case JNum(n) =>
        if n < limit then Success(n)
        else Failure("invalid value: integer `" + NatToString(n) + "`, expected " + rustType)
      case other => Failure(InvalidType(other, rustType))
  }

  function StatusDataToJson(s: StatusData): Json
  {
    JObj([
      Member("spaces", JNum(s.spaces)),
      Member("connections", JNum(s.connections)),
      Member("redundant_count", JNum(s.redundantCount)),
      Member("version", JNum(s.version))
    ])
  }

  function StatusDataFromJson(j: Json): (r: Result<StatusData, string>)
  {
    match j
    case JObj(ms) =>
      var spaces :- UnsignedField(ms, "spaces", USIZE_LIMIT, "usize");
      var connections :- UnsignedField(ms, "connections", USIZE_LIMIT, "usize");
      var redundantCount :- UnsignedField(ms, "redundant_count", U64_LIMIT, "u64");
      var version :- UnsignedField(ms, "version", U32_LIMIT, "u32");
      Success(StatusData(spaces, connections, redundantCount, version))
    case _ => Failure(InvalidType(j, "struct StatusData"))
  }

  lemma ValuesStep(m: Member, ms: seq<Member>, key: string)
    ensures Values([m] + ms, key) == Own(m, key) + Values(ms, key)
  {
    assert ([m] + ms)[1..] == ms;
  }

  /** The values a member gives for `key`: its own value when the key matches. */
  function Own(m: Member, key: string): seq<Json>
  {
    if m.key == key then [m.value] else []
  }

  /** Looking a key up among four members. */
  lemma ValuesOfFour(a: Member, b: Member, c: Member, d: Member, key: string)
    ensures Values([a, b, c, d], key) == Own(a, key) + Own(b, key) + Own(c, key) + Own(d, key)
  {
    var vd := Values([d], key);
    assert vd == Own(d, key) by {
      assert [d] == [d] + [];
      ValuesStep(d, [], key);
    }
    var vc := Values([c, d], key);
    assert vc == Own(c, key) + vd by {
      assert [c, d] == [c] + [d];
      ValuesStep(c, [d], key);
    }
    var vb := Values([b, c, d], key);
    assert vb == Own(b, key) + vc by {
      assert [b, c, d] == [b] + [c, d];
      ValuesStep(b, [c, d], key);
    }
    assert Values([a, b, c, d], key) == Own(a, key) + vb by {
      assert [a, b, c, d] == [a] + [b, c, d];
      ValuesStep(a, [b, c, d], key);
    }
    assert Own(a, key) + (Own(b, key) + (Own(c, key) + Own(d, key)))
        == Own(a, key) + Own(b, key) + Own(c, key) + Own(d, key);
  }

  lemma StatusDataRoundTrip(s: StatusData)
    ensures StatusDataFromJson(StatusDataToJson(s)) == Success(s)
  {
    var ms := StatusDataToJson(s).members;
    ValuesOfFour(ms[0], ms[1], ms[2], ms[3], "spaces");
    ValuesOfFour(ms[0], ms[1], ms[2], ms[3], "connections");
    ValuesOfFour(ms[0], ms[1], ms[2], ms[3], "redundant_count");
    ValuesOfFour(ms[0], ms[1], ms[2], ms[3], "version");
  }

  // =======================================================================================
  // WireMessage

  const WireMessageTags: seq<string> :=
    ["ClientToLib3hResponse", "Lib3hToClientResponse", "ClientToLib3h", "Lib3hToClient",
     "Ping", "Pong", "Err", "Status", "StatusResponse"]

  lemma WireMessageTagsListed<P>(m: WireMessage<P>, j: Json, c: PayloadCodec<P>)
    ensures Tag(m) in WireMessageTags
    ensures FromJson(j, c).Success? ==>
      SplitEnum(j).Success? && SplitEnum(j).value.tag in WireMessageTags
  {
  }

  function ToJson<P>(m: WireMessage<P>, c: PayloadCodec<P>): Json
  {
    match m
    case ClientToLib3hResponse(x) => NewtypeVariant(Tag(m), ClientToLib3hResponseToJson(x, c))
    case Lib3hToClientResponse(x) => NewtypeVariant(Tag(m), Lib3hToClientResponseToJson(x, c))
    case ClientToLib3h(x) => NewtypeVariant(Tag(m), ClientToLib3hToJson(x, c))
    case Lib3hToClient(x) => NewtypeVariant(Tag(m), Lib3hToClientToJson(x, c))
    case Err(e) => NewtypeVariant(Tag(m), WireErrorToJson(e))
    case StatusResponse(s) => NewtypeVariant(Tag(m), StatusDataToJson(s))
    case _ => UnitVariant(Tag(m))
  }

  function FromJson<P>(j: Json, c: PayloadCodec<P>): Result<WireMessage<P>, string>
  {
    var v :- SplitEnum(j);
    match v.tag
    case "ClientToLib3hResponse" =>
      var x :- Content(v);
      var y :- ClientToLib3hResponseFromJson(x, c);
      Success(ClientToLib3hResponse(y))
    case "Lib3hToClientResponse" =>
      var x :- Content(v);
      var y :- Lib3hToClientResponseFromJson(x, c);
      Success(Lib3hToClientResponse(y))
    case "ClientToLib3h" =>
      var x :- Content(v);
      var y :- ClientToLib3hFromJson(x, c);
      Success(ClientToLib3h(y))
    case "Lib3hToClient" =>
      var x :- Content(v);
      var y :- Lib3hToClientFromJson(x, c);
      Success(Lib3hToClient(y))
    case "Ping" => var _ :- UnitContent(v); Success(Ping)
    case "Pong" => var _ :- UnitContent(v); Success(Pong)
    case "Err" =>
      var x :- Content(v);
      var e :- WireErrorFromJson(x);
      Success(Err(e))
    case "Status" => var _ :- UnitContent(v); Success(Status)
    case "StatusResponse" =>
      var x :- Content(v);
      var s :- StatusDataFromJson(x);
      Success(StatusResponse(s))
    case _ => Failure(UnknownVariant(v.tag, WireMessageTags))
  }

  lemma FromJsonOfToJson<P(!new)>(m: WireMessage<P>, c: PayloadCodec<P>)
    requires Lawful(c)
    ensures FromJson(ToJson(m, c), c) == Success(m)
  {
    if m.ClientToLib3hResponse? || m.Lib3hToClientResponse? || m.ClientToLib3h? || m.Lib3hToClient? {
      FromJsonOfToJsonLib3h(m, c);
    } else {
      FromJsonOfToJsonEnvelope(m, c);
    }
  }

  lemma FromJsonOfToJsonLib3h<P(!new)>(m: WireMessage<P>, c: PayloadCodec<P>)
    requires Lawful(c)
    requires m.ClientToLib3hResponse? || m.Lib3hToClientResponse? || m.ClientToLib3h? || m.Lib3hToClient?
    ensures FromJson(ToJson(m, c), c) == Success(m)
  {
    match m
    case ClientToLib3hResponse(x) => ClientToLib3hResponseRoundTrip(x, c);
    case Lib3hToClientResponse(x) => Lib3hToClientResponseRoundTrip(x, c);
    case ClientToLib3h(x) => ClientToLib3hRoundTrip(x, c);
    case Lib3hToClient(x) => Lib3hToClientRoundTrip(x, c);
  }

  lemma FromJsonOfToJsonEnvelope<P>(m: WireMessage<P>, c: PayloadCodec<P>)
    requires !(m.ClientToLib3hResponse? || m.Lib3hToClientResponse? || m.ClientToLib3h? || m.Lib3hToClient?)
    ensures FromJson(ToJson(m, c), c) == Success(m)
  {
    match m
    case Err(e) => FromJsonOfErr(e, c);
    case StatusResponse(s) => FromJsonOfStatusResponse(s, c);
    case _ =>
  }

  lemma FromJsonOfErr<P>(e: WireError, c: PayloadCodec<P>)
    ensures FromJson(ToJson(Err(e), c), c) == Success(Err(e))
  {
    WireErrorRoundTrip(e);
    assert SplitEnum(ToJson(Err(e), c)) == Success(Variant("Err", Some(WireErrorToJson(e))));
  }

  lemma FromJsonOfStatusResponse<P>(s: StatusData, c: PayloadCodec<P>)
    ensures FromJson(ToJson(StatusResponse(s), c), c) == Success(StatusResponse(s))
  {
    StatusDataRoundTrip(s);
    assert SplitEnum(ToJson(StatusResponse(s), c)) == Success(Variant("StatusResponse", Some(StatusDataToJson(s))));
  }

  // =======================================================================================
  // Conversions to and from wire text

  /** `String::from(WireMessage)` and `Opaque::from(WireMessage)`: `serde_json::to_string`. */
  function Encode<P>(m: WireMessage<P>, c: PayloadCodec<P>): string
  {
    Print(ToJson(m, c))
  }

  /** `WireMessage::try_from(Opaque)`: `serde_json::from_str`, with the `Debug` text of a
      failure wrapped as `WireError::Other` through `WireError::from(String)`. */
  function Decode<P>(text: string, c: PayloadCodec<P>): (r: Result<WireMessage<P>, WireError>)
    ensures r.Failure? ==> r.error.Other? && |r.error.text| > 0
  {
    match Parse(text)
    case Failure(e) => Failure(WireError.FromString(DebugParseError(e, text)))
    case Success(j) =>
      match FromJson(j, c)
      case Failure(msg) => Failure(WireError.FromString(DebugError(msg, text)))
      case Success(m) => Success(m)
  }

  /** A message read back from its own wire text is the message written. */
  lemma DecodeEncode<P(!new)>(m: WireMessage<P>, c: PayloadCodec<P>)
    requires Lawful(c)
    ensures Decode(Encode(m, c), c) == Success(m)
  {
    ParsePrint(ToJson(m, c));
    FromJsonOfToJson(m, c);
  }

  /** Distinct messages have distinct wire texts. */
  lemma EncodeInjective<P(!new)>(a: WireMessage<P>, b: WireMessage<P>, c: PayloadCodec<P>)
    requires Lawful(c)
    ensures Encode(a, c) == Encode(b, c) <==> a == b
  {
    DecodeEncode(a, c);
    DecodeEncode(b, c);
  }

  // =======================================================================================
  // Worked examples

  /** Messages that carry no lib3h payload read back from their wire text whatever the payload
      codec, as the crate's test does with `Err`. */
  lemma DecodeEncodeEnvelope<P>(m: WireMessage<P>, c: PayloadCodec<P>)
    requires !(m.ClientToLib3hResponse? || m.Lib3hToClientResponse? || m.ClientToLib3h? || m.Lib3hToClient?)
    ensures Decode(Encode(m, c), c) == Success(m)
  {
    ParsePrint(ToJson(m, c));
    FromJsonOfToJsonEnvelope(m, c);
  }

  /** Reading an empty text fails with serde_json's end-of-input error, reported at line 1,
      column 0. */
  lemma DecodeEmpty<P>(c: PayloadCodec<P>)
    ensures Decode("", c) == Failure(Other(DebugError("EOF while parsing a value", "")))
    ensures Position("") == (1, 0)
  {
    assert Parse("") == Failure(JsonError(EofWhileParsingValue, 0));
  }
}
