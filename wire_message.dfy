/** The sim2h wire-message envelope (crates/sim2h/src/wire_message.rs): the closed set of
    messages a sim2h hub and its clients exchange, the priority order between them, the label
    each kind of message is logged under, and the two `WireError` conversions. The wire text
    is in module WireCodec.

    The lib3h request and response enums the envelope wraps are modelled by their variants;
    what each variant carries is an opaque payload of type `P`. */
module Wire {
  import opened Wrappers
  import DebugFormat

  /** The protocol revision a hub reports in its status. */
  const WIRE_VERSION: nat := 1

  type U32 = n: nat | n < 0x1_0000_0000
  type U64 = n: nat | n < 0x1_0000_0000_0000_0000
  /** `usize` on the 64-bit targets sim2h runs on. */
  type USize = U64

  // =======================================================================================
  // Data model

  datatype WireError =
    | MessageWhileInLimbo
    | Other(text: string)
  {
    /** `WireError::from(&str)`: wraps the Debug rendering of the text, quotes included. */
    static function FromStr(s: string): (e: WireError)
      ensures e == Other(DebugFormat.DebugStr(s))
      ensures DebugFormat.UndebugStr(e.text) == Some(s)
    {
      DebugFormat.DebugStrRoundTrip(s);
      Other(DebugFormat.DebugStr(s))
    }

    /** `WireError::from(String)`: wraps the text unchanged. */
    static function FromString(s: string): (e: WireError)
      ensures e.Other? && e.text == s
    {
      Other(s)
    }
  }

  /** The two conversions never agree: the `&str` one always adds the surrounding quotes. */
  lemma FromStrIsNotFromString(s: string)
    ensures WireError.FromStr(s) != WireError.FromString(s)
  {
    assert |WireError.FromStr(s).text| >= |s| + 2;
  }

  /** The error of the encoding test: `"fake_error"` converts to itself between quotes,
      with nothing escaped. */
  lemma FromStrOfTestText()
    ensures WireError.FromStr("fake_error").text == "\"" + "fake_error" + "\""
  {
    var s := "fake_error";
    assert forall i :: 0 <= i < |s| ==> s[i] !in "\"\\\0\t\r\n";
    DebugFormat.EscapeDebugPlain(s);
  }

  datatype StatusData = StatusData(spaces: USize, connections: USize, redundantCount: U64, version: U32)

  /** Requests a client sends to lib3h. */
  datatype ClientToLib3h<P> =
    | Bootstrap(data: P)
    | FetchEntry(data: P)
    | JoinSpace(data: P)
    | LeaveSpace(data: P)
    | PublishEntry(data: P)
    | QueryEntry(data: P)
    | SendDirectMessage(data: P)
  {
    /** The variant's name, which is also its serde tag. */
    function Tag(): string
    {
      match this
      case Bootstrap(_) => "Bootstrap"
      case FetchEntry(_) => "FetchEntry"
      case JoinSpace(_) => "JoinSpace"
      case LeaveSpace(_) => "LeaveSpace"
      case PublishEntry(_) => "PublishEntry"
      case QueryEntry(_) => "QueryEntry"
      case SendDirectMessage(_) => "SendDirectMessage"
    }
  }

  /** lib3h's responses to a client's requests. */
  datatype ClientToLib3hResponse<P> =
    | BootstrapSuccess
    | FetchEntryResult(data: P)
    | JoinSpaceResult
    | LeaveSpaceResult
    | QueryEntryResult(data: P)
    | SendDirectMessageResult(data: P)
  {
    function Tag(): string
    {
      match this
      case BootstrapSuccess => "BootstrapSuccess"
      case FetchEntryResult(_) => "FetchEntryResult"
      case JoinSpaceResult => "JoinSpaceResult"
      case LeaveSpaceResult => "LeaveSpaceResult"
      case QueryEntryResult(_) => "QueryEntryResult"
      case SendDirectMessageResult(_) => "SendDirectMessageResult"
    }
  }

  /** Requests lib3h sends to a client. */
  datatype Lib3hToClient<P> =
    | Connected(data: P)
    | HandleDropEntry(data: P)
    | HandleFetchEntry(data: P)
    | HandleGetAuthoringEntryList(data: P)
    | HandleGetGossipingEntryList(data: P)
    | HandleQueryEntry(data: P)
    | HandleSendDirectMessage(data: P)
    | HandleStoreEntryAspect(data: P)
    | SendDirectMessageResult(data: P)
    | Unbound(data: P)
  {
    function Tag(): string
    {
      match this
      case Connected(_) => "Connected"
      case HandleDropEntry(_) => "HandleDropEntry"
      case HandleFetchEntry(_) => "HandleFetchEntry"
      case HandleGetAuthoringEntryList(_) => "HandleGetAuthoringEntryList"
      case HandleGetGossipingEntryList(_) => "HandleGetGossipingEntryList"
      case HandleQueryEntry(_) => "HandleQueryEntry"
      case HandleSendDirectMessage(_) => "HandleSendDirectMessage"
      case HandleStoreEntryAspect(_) => "HandleStoreEntryAspect"
      case SendDirectMessageResult(_) => "SendDirectMessageResult"
      case Unbound(_) => "Unbound"
    }
  }

  /** A client's responses to lib3h's requests. */
  datatype Lib3hToClientResponse<P> =
    | HandleDropEntryResult
    | HandleFetchEntryResult(data: P)
    | HandleGetAuthoringEntryListResult(data: P)
    | HandleGetGossipingEntryListResult(data: P)
    | HandleQueryEntryResult(data: P)
    | HandleSendDirectMessageResult(data: P)
    | HandleStoreEntryAspectResult
  {
    function Tag(): string
    {
      match this
      case HandleDropEntryResult => "HandleDropEntryResult"
      case HandleFetchEntryResult(_) => "HandleFetchEntryResult"
      case HandleGetAuthoringEntryListResult(_) => "HandleGetAuthoringEntryListResult"
      case HandleGetGossipingEntryListResult(_) => "HandleGetGossipingEntryListResult"
      case HandleQueryEntryResult(_) => "HandleQueryEntryResult"
      case HandleSendDirectMessageResult(_) => "HandleSendDirectMessageResult"
      case HandleStoreEntryAspectResult => "HandleStoreEntryAspectResult"
    }
  }

  datatype WireMessage<P> =
    | ClientToLib3hResponse(c2lResponse: ClientToLib3hResponse<P>)
    | Lib3hToClientResponse(l2cResponse: Lib3hToClientResponse<P>)
    | ClientToLib3h(c2l: ClientToLib3h<P>)
    | Lib3hToClient(l2c: Lib3hToClient<P>)
    | Ping
    | Pong
    | Err(error: WireError)
    | Status
    | StatusResponse(status: StatusData)

  /** The variant's name, which is also its serde tag. */
  function Tag<P>(m: WireMessage<P>): string
  {
    match m
    case ClientToLib3hResponse(_) => "ClientToLib3hResponse"
    case Lib3hToClientResponse(_) => "Lib3hToClientResponse"
    case ClientToLib3h(_) => "ClientToLib3h"
    case Lib3hToClient(_) => "Lib3hToClient"
    case Ping => "Ping"
    case Pong => "Pong"
    case Err(_) => "Err"
    case Status => "Status"
    case StatusResponse(_) => "StatusResponse"
  }

  // =======================================================================================
  // Priority order (`impl Ord for WireMessage`, `impl PartialOrd for WireMessage`)

  datatype Ordering = Less | Equal | Greater
  {
    /** `Ordering::reverse`. */
    function Reverse(): Ordering
    {
      match this
      case Less => Greater
      case Equal => Equal
      case Greater => Less
    }
  }

  predicate IsResponse<P>(m: WireMessage<P>)
  {
    m.ClientToLib3hResponse? || m.Lib3hToClientResponse?
  }

  /** The tier a message sorts in: responses above everything else. */
  function Rank<P>(m: WireMessage<P>): nat
  {
    if IsResponse(m) then 1 else 0
  }

  function CompareNat(x: nat, y: nat): Ordering
  {
    if x < y then Less else if x == y then Equal else Greater
  }

  /** `WireMessage::cmp`, the nested match as written. */
  function Cmp<P>(a: WireMessage<P>, b: WireMessage<P>): (r: Ordering)
    ensures r == CompareNat(Rank(a), Rank(b))
  {
    match a
    case ClientToLib3hResponse(_) =>
      (match b
       case ClientToLib3hResponse(_) => Equal
       case Lib3hToClientResponse(_) => Equal
       case _ => Greater)
    case Lib3hToClientResponse(_) =>
      (match b
       case ClientToLib3hResponse(_) => Equal
       case Lib3hToClientResponse(_) => Equal
       case _ => Greater)
    case _ =>
      (match b
       case ClientToLib3hResponse(_) => Less
       case Lib3hToClientResponse(_) => Less
       case _ => Equal)
  }

  /** `WireMessage::partial_cmp`: always defined, and agrees with the tiers. */
  function PartialCmp<P>(a: WireMessage<P>, b: WireMessage<P>): (r: Option<Ordering>)
    ensures r.Some? && r.value == CompareNat(Rank(a), Rank(b))
  {
    Some(Cmp(a, b))
  }

  /** A response compares Equal to either response and Greater than anything else. */
  lemma ResponseCompares<P>(a: WireMessage<P>, b: WireMessage<P>)
    requires IsResponse(a)
    ensures Cmp(a, b) == (if IsResponse(b) then Equal else Greater)
  {
  }

  /** A non-response compares Less than either response and Equal to any other non-response. */
  lemma NonResponseCompares<P>(a: WireMessage<P>, b: WireMessage<P>)
    requires !IsResponse(a)
    ensures Cmp(a, b) == (if IsResponse(b) then Less else Equal)
  {
  }

  lemma CmpReflexive<P>(a: WireMessage<P>)
    ensures Cmp(a, a) == Equal
  {
  }

  lemma CmpAntisymmetric<P>(a: WireMessage<P>, b: WireMessage<P>)
    ensures Cmp(b, a) == Cmp(a, b).Reverse()
  {
  }

  lemma CmpTransitive<P>(a: WireMessage<P>, b: WireMessage<P>, c: WireMessage<P>)
    ensures Cmp(a, b) != Greater && Cmp(b, c) != Greater ==> Cmp(a, c) != Greater
    ensures Cmp(a, b) == Less && Cmp(b, c) != Greater ==> Cmp(a, c) == Less
    ensures Cmp(a, b) == Equal && Cmp(b, c) == Equal ==> Cmp(a, c) == Equal
  {
  }

  /** Equal messages compare Equal, but the order is coarser than equality: Ping and Pong
      compare Equal although they differ. */
  lemma CmpCoarserThanEquality<P>(a: WireMessage<P>, b: WireMessage<P>)
    ensures a == b ==> Cmp(a, b) == Equal
    ensures Cmp<P>(Ping, Pong) == Equal && WireMessage<P>.Ping != WireMessage<P>.Pong
  {
  }

  // Sorting by Cmp groups non-responses ahead of responses.

  ghost predicate SortedByCmp<P>(s: seq<WireMessage<P>>)
  {
    forall i, j :: 0 <= i < j < |s| ==> Cmp(s[i], s[j]) != Greater
  }

  /** The index of the first response in `s`, or |s| when there is none. */
  function FirstResponse<P>(s: seq<WireMessage<P>>): (k: nat)
    ensures k <= |s|
    ensures forall i :: 0 <= i < k ==> !IsResponse(s[i])
    ensures k < |s| ==> IsResponse(s[k])
  {
    if s == [] then 0
    else if IsResponse(s[0]) then 0
    else 1 + FirstResponse(s[1..])
  }

  lemma SortedGroupsResponsesLast<P>(s: seq<WireMessage<P>>)
    requires SortedByCmp(s)
    ensures forall i :: FirstResponse(s) <= i < |s| ==> IsResponse(s[i])
  {
    var k := FirstResponse(s);
    forall i | k <= i < |s|
      ensures IsResponse(s[i])
    {
      if i > k {
        assert Cmp(s[k], s[i]) != Greater;
      }
    }
  }

  // =======================================================================================
  // Classification (`WireMessage::message_type`)

  /** The label a message is logged under, spelled as in the source. */
  function MessageType<P>(m: WireMessage<P>): string
  {
    match m
    case Ping => "Ping"
    case Pong => "Pong"
    case Status => "Status"
    case StatusResponse(_) => "StatusResponse"
    case ClientToLib3h(x) => ClientToLib3hLabel(x)
    case ClientToLib3hResponse(x) => ClientToLib3hResponseLabel(x)
    case Lib3hToClient(x) => Lib3hToClientLabel(x)
    case Lib3hToClientResponse(x) => Lib3hToClientResponseLabel(x)
    case Err(_) => "[Error] {:?}"
  }

  function ClientToLib3hLabel<P>(x: ClientToLib3h<P>): string
  {
    "[C>L]" + ClientToLib3hName(x)
  }

  function ClientToLib3hName<P>(x: ClientToLib3h<P>): string
  {
    match x
    case Bootstrap(_) => "Bootstrap"
    case FetchEntry(_) => "FetchEntry"
    case JoinSpace(_) => "JoinSpace"
    case LeaveSpace(_) => "LeaveSpace"
    case PublishEntry(_) => "PublishEntry"
    case QueryEntry(_) => "QueryEntry"
    case SendDirectMessage(_) => "SendDirectmessage"
  }

  function ClientToLib3hResponseLabel<P>(x: ClientToLib3hResponse<P>): string
  {
    "[C<L]" + ClientToLib3hResponseName(x)
  }

  function ClientToLib3hResponseName<P>(x: ClientToLib3hResponse<P>): string
  {
    match x
    case BootstrapSuccess => "BootsrapSuccess"
    case FetchEntryResult(_) => "FetchEntryResult"
    case JoinSpaceResult => "JoinSpaceResult"
    case LeaveSpaceResult => "LeaveSpaceResult"
    case QueryEntryResult(_) => "QueryEntryResult"
    case SendDirectMessageResult(_) => "SendDirectMessageResult"
  }

  function Lib3hToClientLabel<P>(x: Lib3hToClient<P>): string
  {
    "[L>C]" + Lib3hToClientName(x)
  }

  function Lib3hToClientName<P>(x: Lib3hToClient<P>): string
  {
    match x
    case Connected(_) => "Connected"
    case HandleDropEntry(_) => "HandleDropEntry"
    case HandleFetchEntry(_) => "HandleFetchEntry"
    case HandleGetAuthoringEntryList(_) => "HandleGetAuthoringList"
    case HandleGetGossipingEntryList(_) => "HandleGetGossipingEntryList"
    case HandleQueryEntry(_) => "HandleQueryEntry"
    case HandleSendDirectMessage(_) => "HandleSendDirectMessage"
    case HandleStoreEntryAspect(_) => "HandleStoreEntryAspect"
    case SendDirectMessageResult(_) => "SendDirectMessageResult"
    case Unbound(_) => "Unbound"
  }

  function Lib3hToClientResponseLabel<P>(x: Lib3hToClientResponse<P>): string
  {
    "[L<C]" + Lib3hToClientResponseName(x)
  }

  function Lib3hToClientResponseName<P>(x: Lib3hToClientResponse<P>): string
  {
    match x
    case HandleDropEntryResult => "HandleDropEntryResult"
    case HandleFetchEntryResult(_) => "HandleFetchEntryResult"
    case HandleGetAuthoringEntryListResult(_) => "HandleGetAuthoringEntryListResult"
    case HandleGetGossipingEntryListResult(_) => "HandleGetGossipingEntryListResult"
    case HandleQueryEntryResult(_) => "HandleQueryEntryResult"
    case HandleSendDirectMessageResult(_) => "HandleSendDirectMessageResult"
    case HandleStoreEntryAspectResult => "HandleStoreEntryAspectResult"
  }

  /** What a label tells apart: the envelope variant and, for the four lib3h wrappers, the
      wrapped variant; payloads and the error carried by `Err` are not part of it. */
  function Kind<P>(m: WireMessage<P>): (string, string)
  {
    match m
    case ClientToLib3hResponse(x) => (Tag(m), x.Tag())
    case Lib3hToClientResponse(x) => (Tag(m), x.Tag())
    case ClientToLib3h(x) => (Tag(m), x.Tag())
    case Lib3hToClient(x) => (Tag(m), x.Tag())
    case _ => (Tag(m), "")
  }

  predicate StartsWith(s: string, prefix: string)
  {
    |prefix| <= |s| && s[..|prefix|] == prefix
  }

  lemma ClientToLib3hLabels<P>(x: ClientToLib3h<P>)
    ensures StartsWith(MessageType(ClientToLib3h(x)), "[C>L]")
  {
    var t := ClientToLib3hLabel(x);
    assert |t| >= 5 && t[0] == '[' && t[1] == 'C' && t[2] == '>' && t[3] == 'L' && t[4] == ']';
    assert t[..5] == "[C>L]";
  }

  lemma ClientToLib3hResponseLabels<P>(x: ClientToLib3hResponse<P>)
    ensures StartsWith(MessageType(ClientToLib3hResponse(x)), "[C<L]")
  {
    var t := ClientToLib3hResponseLabel(x);
    assert |t| >= 5 && t[0] == '[' && t[1] == 'C' && t[2] == '<' && t[3] == 'L' && t[4] == ']';
    assert t[..5] == "[C<L]";
  }

  lemma Lib3hToClientLabels<P>(x: Lib3hToClient<P>)
    ensures StartsWith(MessageType(Lib3hToClient(x)), "[L>C]")
  {
    var t := Lib3hToClientLabel(x);
    assert |t| >= 5 && t[0] == '[' && t[1] == 'L' && t[2] == '>' && t[3] == 'C' && t[4] == ']';
    assert t[..5] == "[L>C]";
  }

  lemma Lib3hToClientResponseLabels<P>(x: Lib3hToClientResponse<P>)
    ensures StartsWith(MessageType(Lib3hToClientResponse(x)), "[L<C]")
  {
    var t := Lib3hToClientResponseLabel(x);
    assert |t| >= 5 && t[0] == '[' && t[1] == 'L' && t[2] == '<' && t[3] == 'C' && t[4] == ']';
    assert t[..5] == "[L<C]";
  }

  /** A label starts with a direction marker exactly when the message is a wrapped lib3h
      message, and the marker names its direction and whether it is a request or a response. */
  lemma MessageTypeDirection<P>(m: WireMessage<P>)
    ensures StartsWith(MessageType(m), "[C>L]") <==> m.ClientToLib3h?
    ensures StartsWith(MessageType(m), "[C<L]") <==> m.ClientToLib3hResponse?
    ensures StartsWith(MessageType(m), "[L>C]") <==> m.Lib3hToClient?
    ensures StartsWith(MessageType(m), "[L<C]") <==> m.Lib3hToClientResponse?
  {
    var t := MessageType(m);
    match m
    case ClientToLib3h(x) => ClientToLib3hLabels(x);
    case ClientToLib3hResponse(x) => ClientToLib3hResponseLabels(x);
    case Lib3hToClient(x) => Lib3hToClientLabels(x);
    case Lib3hToClientResponse(x) => Lib3hToClientResponseLabels(x);
    case Ping =>
    case Pong =>
    case Status =>
      assert t[..5][0] != '[';
    case StatusResponse(_) =>
      assert t[..5][0] != '[';
    case Err(_) =>
      assert t[..5][4] != ']';
  }

  /** The character at `i`, or a space past the end. */
  function At(t: string, i: nat): char
  {
    if i < |t| then t[i] else ' '
  }

  /** The length and a few characters of a name, counted from `offset`. They differ between
      any two variant names of one enum, so comparing them refutes the equality of two names
      without comparing whole strings. */
  function Fingerprint(t: string, offset: nat): (nat, char, char, char, char, char)
  {
    (|t|, At(t, offset), At(t, offset + 1), At(t, offset + 6), At(t, offset + 7), At(t, offset + 9))
  }

  /** Labels that share a direction marker are equal exactly when the names after it are. */
  lemma MarkerCancels(marker: string, a: string, b: string)
    ensures marker + a == marker + b <==> a == b
  {
    if marker + a == marker + b {
      assert a == (marker + a)[|marker|..];
      assert b == (marker + b)[|marker|..];
    }
  }

  /** Within each lib3h enum, labels tell the variants apart. */
  lemma ClientToLib3hLabelsDistinct<P>(x: ClientToLib3h<P>, y: ClientToLib3h<P>)
    ensures MessageType(ClientToLib3h(x)) == MessageType(ClientToLib3h(y)) <==> x.Tag() == y.Tag()
  {
    MarkerCancels("[C>L]", ClientToLib3hName(x), ClientToLib3hName(y));
    if ClientToLib3hName(x) == ClientToLib3hName(y) {
      assert Fingerprint(ClientToLib3hName(x), 0) == Fingerprint(ClientToLib3hName(y), 0);
    }
    if x.Tag() == y.Tag() {
      assert Fingerprint(x.Tag(), 0) == Fingerprint(y.Tag(), 0);
    }
  }

  lemma ClientToLib3hResponseLabelsDistinct<P>(x: ClientToLib3hResponse<P>, y: ClientToLib3hResponse<P>)
    ensures MessageType(ClientToLib3hResponse(x)) == MessageType(ClientToLib3hResponse(y)) <==> x.Tag() == y.Tag()
  {
    MarkerCancels("[C<L]", ClientToLib3hResponseName(x), ClientToLib3hResponseName(y));
    if ClientToLib3hResponseName(x) == ClientToLib3hResponseName(y) {
      assert Fingerprint(ClientToLib3hResponseName(x), 0) == Fingerprint(ClientToLib3hResponseName(y), 0);
    }
    if x.Tag() == y.Tag() {
      assert Fingerprint(x.Tag(), 0) == Fingerprint(y.Tag(), 0);
    }
  }

  lemma Lib3hToClientLabelsDistinct<P>(x: Lib3hToClient<P>, y: Lib3hToClient<P>)
    ensures MessageType(Lib3hToClient(x)) == MessageType(Lib3hToClient(y)) <==> x.Tag() == y.Tag()
  {
    MarkerCancels("[L>C]", Lib3hToClientName(x), Lib3hToClientName(y));
    if Lib3hToClientName(x) == Lib3hToClientName(y) {
      assert Fingerprint(Lib3hToClientName(x), 0) == Fingerprint(Lib3hToClientName(y), 0);
    }
    if x.Tag() == y.Tag() {
      assert Fingerprint(x.Tag(), 0) == Fingerprint(y.Tag(), 0);
    }
  }

  lemma Lib3hToClientResponseLabelsDistinct<P>(x: Lib3hToClientResponse<P>, y: Lib3hToClientResponse<P>)
    ensures MessageType(Lib3hToClientResponse(x)) == MessageType(Lib3hToClientResponse(y)) <==> x.Tag() == y.Tag()
  {
    MarkerCancels("[L<C]", Lib3hToClientResponseName(x), Lib3hToClientResponseName(y));
    if Lib3hToClientResponseName(x) == Lib3hToClientResponseName(y) {
      assert Fingerprint(Lib3hToClientResponseName(x), 0) == Fingerprint(Lib3hToClientResponseName(y), 0);
    }
    if x.Tag() == y.Tag() {
      assert Fingerprint(x.Tag(), 0) == Fingerprint(y.Tag(), 0);
    }
  }

  /** After the marker, a label spells the wrapped variant's name, except for three
      misspellings kept from the source: `SendDirectmessage`, `BootsrapSuccess` and
      `HandleGetAuthoringList`. */
  lemma ClientToLib3hNames<P>(x: ClientToLib3h<P>)
    ensures ClientToLib3hName(x) == x.Tag() <==> !x.SendDirectMessage?
    ensures x.SendDirectMessage? ==> ClientToLib3hName(x) == "SendDirectmessage"
  {
    if x.SendDirectMessage? {
      assert ClientToLib3hName(x)[10] != x.Tag()[10];
    }
  }

  lemma ClientToLib3hResponseNames<P>(x: ClientToLib3hResponse<P>)
    ensures ClientToLib3hResponseName(x) == x.Tag() <==> !x.BootstrapSuccess?
    ensures x.BootstrapSuccess? ==> ClientToLib3hResponseName(x) == "BootsrapSuccess"
  {
  }

  lemma Lib3hToClientNames<P>(x: Lib3hToClient<P>)
    ensures Lib3hToClientName(x) == x.Tag() <==> !x.HandleGetAuthoringEntryList?
    ensures x.HandleGetAuthoringEntryList? ==> Lib3hToClientName(x) == "HandleGetAuthoringList"
  {
  }

  lemma Lib3hToClientResponseNames<P>(x: Lib3hToClientResponse<P>)
    ensures Lib3hToClientResponseName(x) == x.Tag()
  {
  }

  /** Two messages get the same label exactly when they are of the same kind. */
  lemma MessageTypeDistinguishesKinds<P>(a: WireMessage<P>, b: WireMessage<P>)
    ensures MessageType(a) == MessageType(b) <==> Kind(a) == Kind(b)
  {
    MessageTypeDirection(a);
    MessageTypeDirection(b);
    match a
    case ClientToLib3h(x) =>
      if b.ClientToLib3h? { ClientToLib3hLabelsDistinct(x, b.c2l); }
    case ClientToLib3hResponse(x) =>
      if b.ClientToLib3hResponse? { ClientToLib3hResponseLabelsDistinct(x, b.c2lResponse); }
    case Lib3hToClient(x) =>
      if b.Lib3hToClient? { Lib3hToClientLabelsDistinct(x, b.l2c); }
    case Lib3hToClientResponse(x) =>
      if b.Lib3hToClientResponse? { Lib3hToClientResponseLabelsDistinct(x, b.l2cResponse); }
    case _ =>
  }

  /** The label of `Err` is the same fixed text whatever error it carries. */
  lemma ErrorLabelIgnoresError<P>(e1: WireError, e2: WireError)
    ensures MessageType<P>(Err(e1)) == MessageType<P>(Err(e2)) == "[Error] {:?}"
  {
  }
}
