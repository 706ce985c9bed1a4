/** The send and receive handlers as protocol steps.

A handler drives a PeerConnection and the remote SDP. Every call into libwebrtc or into the
application's OnConnect callback may throw; which one does is a parameter of the step, so a step
says what state each failure leaves behind. One type serves both handlers: a SendHandler uses
Send, StopSending and SendDataChannel, a RecvHandler the others.
*/
module HandlerSteps {

  import opened Common
  import opened Text
  import opened SdpTable
  import opened SdpRuns

  // The first call that throws, if any. BuildSection is the constructor of an offer section, which
  // throws for example on an encoding without SSRC; ReadMimeType is the access to the codec to send;
  // ExtractDtls finds no DTLS parameters in the local description.
  datatype Failure =
    | NoFailure
    | BuildSection
    | AddTransceiver | CreateDataChannel | CreateOffer | CreateAnswer
    | ReadMimeType | SetLocalDescription | SetRemoteDescription
    | FindMedia | FindTransceiver | ExtractDtls | OnConnect

  // One invocation of the OnConnect callback: the local DTLS role given to it and whether it returned.
  datatype Connect = Connect(localRole: Role, returned: bool)

  // transceivers maps a MID to the MID of the transceiver stored under it.
  datatype Handler = Handler(
    table: Table, transceivers: map<string, string>, ready: bool, forcedRole: Option<Role>,
    hasData: bool, nextStream: nat, connects: seq<Connect>)

  const SCTP_STREAMS := 1024

  // The role forced on the local side by the role the server declares, if any.
  function ForcedRole(declared: Role): (role: Option<Role>) {
    if declared == Auto then None else if declared == Server then Some(Client) else Some(Server)
  }

  function Opposite(role: Role): (r: Role) {
    if role == Client then Server else Client
  }

  function NewHandler(ice: IceParameters, declaredRole: Role): (h: Handler) {
    Handler(Empty(ice, declaredRole), map[], false, ForcedRole(declaredRole), false, 0, [])
  }

  // SetupTransport.
  function SetUp(h: Handler, localRole: Role, failure: Failure): (h': Handler) {
    var returned := failure != OnConnect;
    if failure == ExtractDtls then h
    else
      h.(table := UpdateRole(h.table, Opposite(localRole)),
         connects := h.connects + [Connect(localRole, returned)],
         ready := h.ready || returned)
  }

  function Ensured(h: Handler, defaultRole: Role, failure: Failure): (h': Handler) {
    if h.ready then h else SetUp(h, if h.forcedRole.Some? then h.forcedRole.value else defaultRole, failure)
  }

  // Whether the transport is set up after this; otherwise setting it up has thrown.
  predicate Connected(h: Handler, failure: Failure) {
    h.ready || (failure != OnConnect && failure != ExtractDtls)
  }

  function Described(h: Handler): (h': Handler) {
    h.(table := NextVersion(h.table))
  }

  // Placing a section and asking for the new SDP.
  function Placed(h: Handler, step: Step): (h': Handler)
    requires Places(step)
  {
    Described(h.(table := Apply(h.table, step)))
  }

  function Stored(h: Handler, mid: string): (h': Handler) {
    h.(transceivers := h.transceivers[mid := mid])
  }

  /* RecvHandler */

  // The MID of a new consumer: the one supplied, or else the number of transceivers so far.
  function LocalId(h: Handler, mid: Option<string>): (id: string) {
    if mid.Some? && mid.value != "" then mid.value else Decimal(|h.transceivers|)
  }

  function ReceiveStep(h: Handler, mid: Option<string>, kind: Kind, attributes: Attributes): (s: Step) {
    Step.Receive(Description(LocalId(h, mid), kind, attributes))
  }

  function Received(h: Handler, mid: Option<string>, kind: Kind, attributes: Attributes, failure: Failure)
    : (r: (Handler, Result<string>))
  {
    if failure == BuildSection then (h, Throws)
    else Accepted(Placed(h, ReceiveStep(h, mid, kind, attributes)), LocalId(h, mid), failure)
  }

  // The part after the remote SDP has the new section.
  function Accepted(h: Handler, localId: string, failure: Failure): (r: (Handler, Result<string>)) {
    if failure == SetRemoteDescription || failure == CreateAnswer then (h, Throws)
    else
      var h' := Ensured(h, Client, failure);
      if !Connected(h, failure) || failure == SetLocalDescription || failure == FindTransceiver then (h', Throws)
      else (Stored(h', localId), Ok(localId))
  }

  // Of the three calls that answer a remote offer.
  predicate AnsweringFails(failure: Failure) {
    failure == SetRemoteDescription || failure == CreateAnswer || failure == SetLocalDescription
  }

  function StoppedReceiving(h: Handler, localId: string, failure: Failure): (r: (Handler, Result<()>))
    requires localId in h.transceivers ==> CanClose(h.table, h.transceivers[localId])
  {
    if localId !in h.transceivers then (h, Throws)
    else
      var h' := Described(h.(table := Close(h.table, h.transceivers[localId])));
      (h', if AnsweringFails(failure) then Throws else Ok(()))
  }

  function ReceivedData(h: Handler, failure: Failure): (r: (Handler, Result<()>)) {
    if failure == CreateDataChannel then (h, Throws)
    else if h.hasData then (h, Ok(()))
    else
      var h1 := Placed(h, RecvSctpAssociation);
      if failure == SetRemoteDescription || failure == CreateAnswer then (h1, Throws)
      else
        var h2 := Ensured(h1, Client, failure);
        if !Connected(h1, failure) || failure == SetLocalDescription then (h2, Throws)
        else (h2.(hasData := true), Ok(()))
  }

  // RestartIce on either side: the offerer describes itself only after its local description is set.
  function RestartedIce(h: Handler, ice: IceParameters, sending: bool, failure: Failure): (r: (Handler, Result<()>)) {
    var h1 := h.(table := UpdateIce(h.table, ice));
    if !h.ready then (h1, Ok(()))
    else if sending then
      if failure == CreateOffer || failure == SetLocalDescription then (h1, Throws)
      else (Described(h1), if failure == SetRemoteDescription then Throws else Ok(()))
    else
      (Described(h1), if AnsweringFails(failure) then Throws else Ok(()))
  }

  /* SendHandler */

  // The MID of the offer is taken to be the one libwebrtc gives the new transceiver.
  function Sent(h: Handler, offer: Description, failure: Failure): (r: (Handler, Result<string>))
  {
    if failure == AddTransceiver || failure == CreateOffer then (h, Throws)
    else if !Connected(h, failure) || failure in {ReadMimeType, SetLocalDescription, FindMedia} then
      (Ensured(h, Server, failure), Throws)
    else Answered(Ensured(h, Server, failure), offer, failure)
  }

  function Answered(h: Handler, offer: Description, failure: Failure): (r: (Handler, Result<string>))
  {
    var h' := Placed(h, Step.Send(offer));
    if failure == SetRemoteDescription then (h', Throws) else (Stored(h', offer.mid), Ok(offer.mid))
  }

  function StoppedSending(h: Handler, localId: string, failure: Failure): (r: (Handler, Result<()>))
    requires localId in h.transceivers ==> CanClose(h.table, h.transceivers[localId])
  {
    if localId !in h.transceivers then (h, Throws)
    else
      var h1 := h.(table := Close(h.table, h.transceivers[localId]));
      if failure == CreateOffer || failure == SetLocalDescription then (h1, Throws)
      else (Described(h1), if failure == SetRemoteDescription then Throws else Ok(()))
  }

  // The result is the SCTP stream id. `valid` says whether the stream parameters validate.
  function SentData(h: Handler, offer: Description, valid: bool, failure: Failure): (r: (Handler, Result<nat>)) {
    if !valid || failure == CreateDataChannel then (h, Throws)
    else
      var h1 := h.(nextStream := (h.nextStream + 1) % SCTP_STREAMS);
      if h.hasData then (h1, Ok(h.nextStream)) else NegotiatedData(h1, offer, h.nextStream, failure)
  }

  function NegotiatedData(h: Handler, offer: Description, stream: nat, failure: Failure): (r: (Handler, Result<nat>)) {
    if failure == CreateOffer || failure == FindMedia then (h, Throws)
    else if !Connected(h, failure) || failure == SetLocalDescription then (Ensured(h, Server, failure), Throws)
    else AnsweredData(Ensured(h, Server, failure), offer, stream, failure)
  }

  function AnsweredData(h: Handler, offer: Description, stream: nat, failure: Failure): (r: (Handler, Result<nat>)) {
    var h' := Placed(h, SendSctpAssociation(offer));
    if failure == SetRemoteDescription then (h', Throws) else (h'.(hasData := true), Ok(stream))
  }

  /* Invariant */

  // The setup attribute of every section: actpass on offers; on answers the one that fits the
  // remote role once the transport is set up, and there are no answers before.
  ghost predicate SetupFits(h: Handler, s: Section) {
    if s.answer then h.ready && s.mediaObject.setup == (if h.table.role == Client then Active else Passive)
    else s.mediaObject.setup == ActPass
  }

  // The last OnConnect returned, and the remote side has the role opposite to the one it was given.
  ghost predicate LastConnectFits(h: Handler) {
    && h.connects != []
    && var last := h.connects[|h.connects| - 1];
       && last.returned
       && h.table.role == Opposite(last.localRole)
       && (h.forcedRole.Some? ==> last.localRole == h.forcedRole.value)
  }

  ghost predicate RolesAgree(h: Handler) {
    && (forall i :: 0 <= i < |h.connects| && h.connects[i].returned ==> h.ready && i == |h.connects| - 1)
    && (h.ready ==> LastConnectFits(h))
    && forall i :: 0 <= i < |h.table.sections| ==> SetupFits(h, h.table.sections[i])
  }

  ghost predicate HandlerInv(h: Handler) {
    && Inv(h.table)
    && RolesAgree(h)
    && (forall mid :: mid in h.transceivers ==> h.transceivers[mid] == mid)
    && h.nextStream < SCTP_STREAMS
  }

  lemma NewHandlerInv(ice: IceParameters, declaredRole: Role)
    ensures HandlerInv(NewHandler(ice, declaredRole))
  {
  }

  /* A section is live while it is open and not disabled. */

  ghost predicate Live(h: Handler, mid: string) {
    && mid in h.transceivers && mid in h.table.midToIndex
    && var i := h.table.midToIndex[mid];
       && i < |h.table.sections| && !h.table.sections[i].IsClosed()
       && h.table.sections[i].mediaObject.direction != Inactive
  }

  ghost predicate AllLive(h: Handler, mids: set<string>) {
    forall mid :: mid in mids ==> Live(h, mid)
  }

  // Only the section with this MID differs, and it is inactive now.
  ghost predicate OwnSectionStopped(t: Table, t': Table, mid: string) {
    && mid in t.midToIndex && t.midToIndex[mid] < |t.sections| == |t'.sections|
    && t.sections[t.midToIndex[mid]].Mid() == mid
    && t'.sections[t.midToIndex[mid]].mediaObject.direction == Inactive
    && forall k :: 0 <= k < |t.sections| && k != t.midToIndex[mid] ==> t'.sections[k] == t.sections[k]
  }

  // Both facts a caller relies on: the invariant, and other users' sections staying live.
  ghost predicate Keeps(h: Handler, h': Handler, mid: string) {
    HandlerInv(h') && h'.forcedRole == h.forcedRole && (Live(h, mid) ==> Live(h', mid))
  }

  lemma DescribedKeeps(h: Handler, mid: string)
    requires HandlerInv(h)
    ensures Keeps(h, Described(h), mid)
  {
  }

  lemma SetupKeeps(h: Handler, localRole: Role, failure: Failure, mid: string)
    requires HandlerInv(h) && !h.ready
    requires h.forcedRole.Some? ==> localRole == h.forcedRole.value
    ensures Keeps(h, SetUp(h, localRole, failure), mid)
  {
    hide Inv;
    UpdateRoleKeepsInv(h.table, Opposite(localRole));
  }

  lemma EnsuredKeeps(h: Handler, defaultRole: Role, failure: Failure, mid: string)
    requires HandlerInv(h)
    ensures Keeps(h, Ensured(h, defaultRole, failure), mid)
    ensures Ensured(h, defaultRole, failure).ready <==> Connected(h, failure)
    ensures SameShape(h.table.sections, Ensured(h, defaultRole, failure).table.sections)
    ensures Ensured(h, defaultRole, failure).transceivers == h.transceivers
  {
    hide Inv, Live, RolesAgree;
    if !h.ready {
      SetupKeeps(h, if h.forcedRole.Some? then h.forcedRole.value else defaultRole, failure, mid);
      UpdateRoleKeepsInv(h.table, Opposite(if h.forcedRole.Some? then h.forcedRole.value else defaultRole));
    }
  }

  // Placing a section touches one slot, which was closed or did not exist.
  lemma PlaceKeepsRoles(h: Handler, step: Step)
    requires HandlerInv(h) && Places(step) && Allowed(h.table, step)
    requires NewSection(h.table, step).answer ==> h.ready
    ensures Defined(h.table, step) && RolesAgree(h.(table := Apply(h.table, step)))
  {
    PlacedAtSlot(h.table, step);
    var t, t', i, s := h.table, Apply(h.table, step), SlotFor(h.table, step), NewSection(h.table, step);
    assert SetupFits(h, s);
    assert t'.role == t.role;
    forall k | 0 <= k < |t'.sections| ensures SetupFits(h.(table := t'), t'.sections[k]) {
      assert t'.sections[k] == if k == i then s else t.sections[k];
    }
  }

  lemma PlaceKeepsLive(h: Handler, step: Step, mid: string)
    requires Inv(h.table) && Places(step) && Allowed(h.table, step) && Live(h, mid)
    requires Defined(h.table, step) && Inv(Apply(h.table, step))
    ensures Live(h.(table := Apply(h.table, step)), mid)
  {
  }

  lemma PlacedKeeps(h: Handler, step: Step, mid: string)
    requires HandlerInv(h) && Places(step) && Allowed(h.table, step)
    requires NewSection(h.table, step).answer ==> h.ready
    ensures Defined(h.table, step)
    ensures Keeps(h, Placed(h, step), mid)
  {
    StepKeepsInv(h.table, step);
    PlaceKeepsRoles(h, step);
    if Live(h, mid) {
      PlaceKeepsLive(h, step, mid);
    }
    DescribedKeeps(h.(table := Apply(h.table, step)), mid);
  }

  // A new section with media is live once its transceiver is stored.
  lemma PlacedIsLive(h: Handler, step: Step)
    requires Inv(h.table) && (step.Receive? || step.Send?) && Allowed(h.table, step)
    ensures Defined(h.table, step)
    ensures var mid := NewSection(h.table, step).Mid(); Live(Stored(Placed(h, step), mid), mid)
  {
    hide Inv;
  }

  lemma StoredKeeps(h: Handler, mid: string, other: string)
    requires HandlerInv(h)
    ensures Keeps(h, Stored(h, mid), other)
  {
  }

  // Setting the transport up and storing the transceiver.
  lemma FinishKeeps(h: Handler, defaultRole: Role, failure: Failure, mid: string, other: string)
    requires HandlerInv(h) && Live(Stored(h, mid), mid)
    ensures var h' := Ensured(h, defaultRole, failure);
      && Keeps(h, h', other) && Keeps(h, Stored(h', mid), other)
      && Live(Stored(h', mid), mid)
  {
    EnsuredKeeps(h, defaultRole, failure, other);
    StoredKeeps(Ensured(h, defaultRole, failure), mid, other);
    EnsuredKeepsLive(Stored(h, mid), defaultRole, failure, mid);
  }

  lemma EnsuredKeepsLive(h: Handler, defaultRole: Role, failure: Failure, mid: string)
    requires Live(h, mid)
    ensures Live(Ensured(h, defaultRole, failure), mid)
  {
  }

  lemma SameShapeAllows(t: Table, t': Table, step: Step)
    requires SameShape(t.sections, t'.sections) && Places(step) && Allowed(t, step)
    ensures Allowed(t', step)
  {
  }

  // Receiving, however it ends, keeps the invariant and every live section; if it succeeds the new
  // section is live under the MID returned.
  lemma ReceivedKeeps(h: Handler, mid: Option<string>, kind: Kind, attributes: Attributes, failure: Failure,
                      other: string)
    requires HandlerInv(h) && Allowed(h.table, ReceiveStep(h, mid, kind, attributes))
    ensures var r := Received(h, mid, kind, attributes, failure);
      && Keeps(h, r.0, other)
      && (r.1.Ok? ==> r.1.value == LocalId(h, mid) && Live(r.0, r.1.value))
  {
    hide Inv, RolesAgree, Live, Placed, Ensured, Stored, Allowed;
    var step := ReceiveStep(h, mid, kind, attributes);
    PlacedKeeps(h, step, other);
    PlacedIsLive(h, step);
    var h1, r := Placed(h, step), Received(h, mid, kind, attributes, failure);
    FinishKeeps(h1, Client, failure, LocalId(h, mid), other);
    var h2 := Ensured(h1, Client, failure);
    assert || r == (h, Throws) || r == (h1, Throws) || r == (h2, Throws)
           || r == (Stored(h2, LocalId(h, mid)), Ok(LocalId(h, mid)));
  }

  lemma ReceivedInv(h: Handler, mid: Option<string>, kind: Kind, attributes: Attributes, failure: Failure)
    requires HandlerInv(h) && Allowed(h.table, ReceiveStep(h, mid, kind, attributes))
    ensures HandlerInv(Received(h, mid, kind, attributes, failure).0)
  {
    ReceivedKeeps(h, mid, kind, attributes, failure, "");
  }

  // A MID a new section may take belongs to no live section.
  lemma FreshIsNotLive(h: Handler, step: Step)
    requires Inv(h.table) && Allowed(h.table, step) && Places(step)
    ensures !Live(h, NewSection(h.table, step).Mid())
  {
  }

  lemma CloseKeepsRoles(h: Handler, mid: string)
    requires HandlerInv(h) && mid in h.table.midToIndex && CanClose(h.table, mid)
    ensures RolesAgree(h.(table := Close(h.table, mid)))
  {
  }

  // Closing under a live MID acts on that section alone.
  lemma CloseKeeps(h: Handler, mid: string, other: string)
    requires HandlerInv(h) && mid in h.table.midToIndex
    ensures CanClose(h.table, mid)
    ensures var h' := h.(table := Close(h.table, mid));
      HandlerInv(h') && (other != mid && Live(h, other) ==> Live(h', other)) && !Live(h', mid)
  {
    CloseKeepsInv(h.table, mid);
    CloseKeepsRoles(h, mid);
    CloseTouchesOne(h.table, mid);
  }

  lemma StoppedReceivingKeeps(h: Handler, localId: string, failure: Failure, other: string)
    requires HandlerInv(h) && (localId in h.transceivers ==> localId in h.table.midToIndex)
    ensures localId in h.transceivers ==> CanClose(h.table, h.transceivers[localId])
    ensures var h' := StoppedReceiving(h, localId, failure).0;
      && HandlerInv(h') && h'.forcedRole == h.forcedRole
      && (other != localId && Live(h, other) ==> Live(h', other)) && !Live(h', localId)
  {
    if localId in h.transceivers {
      CloseKeeps(h, localId, other);
      DescribedKeeps(h.(table := Close(h.table, localId)), other);
    }
  }

  lemma StoppedSendingKeeps(h: Handler, localId: string, failure: Failure, other: string)
    requires HandlerInv(h) && (localId in h.transceivers ==> localId in h.table.midToIndex)
    ensures localId in h.transceivers ==> CanClose(h.table, h.transceivers[localId])
    ensures var h' := StoppedSending(h, localId, failure).0;
      && HandlerInv(h') && h'.forcedRole == h.forcedRole
      && (other != localId && Live(h, other) ==> Live(h', other)) && !Live(h', localId)
  {
    if localId in h.transceivers {
      CloseKeeps(h, localId, other);
      DescribedKeeps(h.(table := Close(h.table, localId)), other);
    }
  }

  lemma SentKeeps(h: Handler, offer: Description, failure: Failure, other: string)
    requires HandlerInv(h) && Allowed(h.table, Step.Send(offer))
    ensures var r := Sent(h, offer, failure);
      && Keeps(h, r.0, other)
      && (r.1.Ok? ==> r.1.value == offer.mid && Live(r.0, offer.mid))
  {
    EnsuredKeeps(h, Server, failure, other);
    var h1, r := Ensured(h, Server, failure), Sent(h, offer, failure);
    if r != (h, Throws) && r != (h1, Throws) {
      assert r == Answered(h1, offer, failure);
      SameShapeAllows(h.table, h1.table, Step.Send(offer));
      AnsweredKeeps(h1, offer, failure, other);
    }
  }

  lemma AnsweredKeeps(h: Handler, offer: Description, failure: Failure, other: string)
    requires HandlerInv(h) && h.ready && Allowed(h.table, Step.Send(offer))
    ensures var r := Answered(h, offer, failure);
      Keeps(h, r.0, other) && (r.1.Ok? ==> r.1.value == offer.mid && Live(r.0, offer.mid))
  {
    PlacedKeeps(h, Step.Send(offer), other);
    PlacedIsLive(h, Step.Send(offer));
    StoredKeeps(Placed(h, Step.Send(offer)), offer.mid, other);
  }

  lemma FlagsKeep(h: Handler, h': Handler, other: string)
    requires HandlerInv(h) && h' == h.(hasData := h'.hasData, nextStream := h'.nextStream)
    requires h'.nextStream < SCTP_STREAMS
    ensures Keeps(h, h', other)
  {
  }

  lemma ReceivedDataKeeps(h: Handler, failure: Failure, other: string)
    requires HandlerInv(h) && (!h.hasData ==> Allowed(h.table, RecvSctpAssociation))
    ensures Keeps(h, ReceivedData(h, failure).0, other)
  {
    if failure != CreateDataChannel && !h.hasData {
      PlacedKeeps(h, RecvSctpAssociation, other);
      var h1 := Placed(h, RecvSctpAssociation);
      EnsuredKeeps(h1, Client, failure, other);
      var h2, r := Ensured(h1, Client, failure), ReceivedData(h, failure);
      FlagsKeep(h2, h2.(hasData := true), other);
      assert r == (h1, Throws) || r == (h2, Throws) || r == (h2.(hasData := true), Ok(()));
    }
  }

  // The data section is built before the flag that says so is set: after a failure the call can be repeated
  // exactly if it was the creation of the channel that failed. Otherwise a second data section would clash
  // with the one left behind.
  lemma DataCanBeRetried(h: Handler, failure: Failure)
    requires HandlerInv(h) && !h.hasData && Allowed(h.table, RecvSctpAssociation)
    ensures var (h', r) := ReceivedData(h, failure);
      && (h'.hasData <==> r.Ok?)
      && (r.Throws? ==> (Allowed(h'.table, RecvSctpAssociation) <==> failure == CreateDataChannel))
  {
    hide Inv, RolesAgree, Allowed;
    if failure != CreateDataChannel {
      var h1, h', i := Placed(h, RecvSctpAssociation), ReceivedData(h, failure).0, |h.table.sections|;
      PlacedAtSlot(h.table, RecvSctpAssociation);
      assert h'.table == h1.table || h'.table == Ensured(h1, Client, failure).table;
      HeldDataMid(h'.table, i);
    }
  }

  lemma HeldDataMid(t: Table, i: nat)
    requires i < |t.sections| && t.sections[i].Mid() == DATA_CHANNEL.mid
    ensures !Allowed(t, RecvSctpAssociation)
  {
  }

  lemma SentDataKeeps(h: Handler, offer: Description, valid: bool, failure: Failure, other: string)
    requires HandlerInv(h) && (!h.hasData ==> Allowed(h.table, SendSctpAssociation(offer)))
    ensures Keeps(h, SentData(h, offer, valid, failure).0, other)
  {
    var h1 := h.(nextStream := (h.nextStream + 1) % SCTP_STREAMS);
    FlagsKeep(h, h1, other);
    if !h.hasData {
      NegotiatedDataKeeps(h1, offer, h.nextStream, failure, other);
    }
    var r := SentData(h, offer, valid, failure);
    assert || r == (h, Throws) || r == (h1, Ok(h.nextStream))
           || (!h.hasData && r == NegotiatedData(h1, offer, h.nextStream, failure));
  }

  lemma NegotiatedDataKeeps(h: Handler, offer: Description, stream: nat, failure: Failure, other: string)
    requires HandlerInv(h) && Allowed(h.table, SendSctpAssociation(offer))
    ensures Keeps(h, NegotiatedData(h, offer, stream, failure).0, other)
  {
    hide HandlerInv, Live, Ensured, AnsweredData, Allowed, SameShape;
    EnsuredKeeps(h, Server, failure, other);
    if Connected(h, failure) {
      var h1, r := Ensured(h, Server, failure), NegotiatedData(h, offer, stream, failure);
      SameShapeAllows(h.table, h1.table, SendSctpAssociation(offer));
      AnsweredDataKeeps(h1, offer, stream, failure, other);
      assert r == (h, Throws) || r == (h1, Throws) || r == AnsweredData(h1, offer, stream, failure);
    }
  }

  lemma AnsweredDataKeeps(h: Handler, offer: Description, stream: nat, failure: Failure, other: string)
    requires HandlerInv(h) && h.ready && Allowed(h.table, SendSctpAssociation(offer))
    ensures Keeps(h, AnsweredData(h, offer, stream, failure).0, other)
  {
    PlacedKeeps(h, SendSctpAssociation(offer), other);
    var h' := Placed(h, SendSctpAssociation(offer));
    FlagsKeep(h', h'.(hasData := true), other);
  }

  lemma IceUpdateKeeps(h: Handler, ice: IceParameters, other: string)
    requires HandlerInv(h)
    ensures Keeps(h, h.(table := UpdateIce(h.table, ice)), other)
  {
    hide Inv;
    UpdateIceKeepsInv(h.table, ice);
    var h1 := h.(table := UpdateIce(h.table, ice));
    forall k | 0 <= k < |h1.table.sections| ensures SetupFits(h1, h1.table.sections[k]) {
      assert SetupFits(h, h.table.sections[k]);
    }
  }

  lemma RestartedIceKeeps(h: Handler, ice: IceParameters, sending: bool, failure: Failure, other: string)
    requires HandlerInv(h)
    ensures Keeps(h, RestartedIce(h, ice, sending, failure).0, other)
  {
    IceUpdateKeeps(h, ice, other);
    DescribedKeeps(h.(table := UpdateIce(h.table, ice)), other);
  }

  /* Runs */

  datatype Call =
    | Receive(mid: Option<string>, kind: Kind, attributes: Attributes, failure: Failure)
    | StopReceiving(localId: string, failure: Failure)
    | ReceiveDataChannel(failure: Failure)
    | Send(offer: Description, failure: Failure)
    | StopSending(localId: string, failure: Failure)
    | SendDataChannel(offer: Description, valid: bool, failure: Failure)
    | RestartIce(ice: IceParameters, sending: bool, failure: Failure)

  // What callers keep to: fresh MIDs, and stopping only what has not been recycled.
  ghost predicate Obeys(h: Handler, call: Call) {
    match call
    case Receive(mid, kind, attributes, _) => Allowed(h.table, ReceiveStep(h, mid, kind, attributes))
    case StopReceiving(localId, _) => localId in h.transceivers ==> localId in h.table.midToIndex
    case ReceiveDataChannel(_) => !h.hasData ==> Allowed(h.table, RecvSctpAssociation)
    case Send(offer, _) => Allowed(h.table, Step.Send(offer))
    case StopSending(localId, _) => localId in h.transceivers ==> localId in h.table.midToIndex
    case SendDataChannel(offer, _, _) => !h.hasData ==> Allowed(h.table, SendSctpAssociation(offer))
    case RestartIce(_, _, _) => true
  }

  // Closing indexes a slot that exists.
  predicate Stoppable(h: Handler, call: Call) {
    (call.StopReceiving? || call.StopSending?) && call.localId in h.transceivers ==>
      CanClose(h.table, h.transceivers[call.localId])
  }

  function Perform(h: Handler, call: Call): (h': Handler)
    requires Stoppable(h, call)
  {
    match call
    case Receive(mid, kind, attributes, failure) => Received(h, mid, kind, attributes, failure).0
    case StopReceiving(localId, failure) => StoppedReceiving(h, localId, failure).0
    case ReceiveDataChannel(failure) => ReceivedData(h, failure).0
    case Send(offer, failure) => Sent(h, offer, failure).0
    case StopSending(localId, failure) => StoppedSending(h, localId, failure).0
    case SendDataChannel(offer, valid, failure) => SentData(h, offer, valid, failure).0
    case RestartIce(ice, sending, failure) => RestartedIce(h, ice, sending, failure).0
  }

  lemma CallKeeps(h: Handler, call: Call)
    requires HandlerInv(h) && Obeys(h, call)
    ensures Stoppable(h, call) && HandlerInv(Perform(h, call)) && Perform(h, call).forcedRole == h.forcedRole
  {
    match call
    case Receive(mid, kind, attributes, failure) => ReceivedKeeps(h, mid, kind, attributes, failure, "");
    case StopReceiving(localId, failure) => StoppedReceivingKeeps(h, localId, failure, "");
    case ReceiveDataChannel(failure) => ReceivedDataKeeps(h, failure, "");
    case Send(offer, failure) => SentKeeps(h, offer, failure, "");
    case StopSending(localId, failure) => StoppedSendingKeeps(h, localId, failure, "");
    case SendDataChannel(offer, valid, failure) => SentDataKeeps(h, offer, valid, failure, "");
    case RestartIce(ice, sending, failure) => RestartedIceKeeps(h, ice, sending, failure, "");
  }

  // The state after the first n calls of a run; None if one of them was not obedient.
  ghost function Run(ice: IceParameters, declaredRole: Role, calls: seq<Call>, n: nat): (r: Option<Handler>)
    requires n <= |calls|
  {
    if n == 0 then Some(NewHandler(ice, declaredRole)) else Next(Run(ice, declaredRole, calls, n - 1), calls[n - 1])
  }

  ghost function Next(before: Option<Handler>, call: Call): (r: Option<Handler>) {
    if before.Some? && Obeys(before.value, call) && Stoppable(before.value, call) then Some(Perform(before.value, call))
    else None
  }

  ghost predicate InvAfter(r: Option<Handler>, declaredRole: Role) {
    match r
    case None => true
    case Some(h) => HandlerInv(h) && h.forcedRole == ForcedRole(declaredRole)
  }

  lemma NextKeepsInv(before: Option<Handler>, call: Call, declaredRole: Role)
    requires InvAfter(before, declaredRole)
    ensures InvAfter(Next(before, call), declaredRole)
  {
    if Next(before, call).Some? {
      CallKeeps(before.value, call);
    }
  }

  lemma {:induction false} RunKeepsInv(ice: IceParameters, declaredRole: Role, calls: seq<Call>, n: nat)
    requires n <= |calls|
    ensures InvAfter(Run(ice, declaredRole, calls, n), declaredRole)
  {
    hide Next;
    if n == 0 {
      NewHandlerInv(ice, declaredRole);
    } else {
      RunKeepsInv(ice, declaredRole, calls, n - 1);
      NextKeepsInv(Run(ice, declaredRole, calls, n - 1), calls[n - 1], declaredRole);
    }
  }

  // Fresh MIDs and stopping only what has not been recycled are all that callers owe.
  lemma RunContinues(ice: IceParameters, declaredRole: Role, calls: seq<Call>, n: nat)
    requires n < |calls| && Run(ice, declaredRole, calls, n).Some?
    requires Obeys(Run(ice, declaredRole, calls, n).value, calls[n])
    ensures Run(ice, declaredRole, calls, n + 1).Some?
  {
    RunKeepsInv(ice, declaredRole, calls, n);
    CallKeeps(Run(ice, declaredRole, calls, n).value, calls[n]);
  }

  /* SCTP stream ids */

  // Whether a call creates a data channel; negotiation may still fail after that.
  predicate CreatesChannel(call: Call) {
    call.SendDataChannel? && call.valid && call.failure != CreateDataChannel
  }

  // The number of channels the first n calls create.
  function Channels(calls: seq<Call>, n: nat): (k: nat)
    requires n <= |calls|
  {
    if n == 0 then 0 else Channels(calls, n - 1) + (if CreatesChannel(calls[n - 1]) then 1 else 0)
  }

  lemma CallMovesStream(h: Handler, call: Call)
    requires Stoppable(h, call)
    ensures Perform(h, call).nextStream ==
            if CreatesChannel(call) then (h.nextStream + 1) % SCTP_STREAMS else h.nextStream
  {
    hide Apply, UpdateRole, Close, NextVersion, UpdateIce;
  }

  // The next stream id is the number of channels created so far, modulo 1024.
  ghost predicate Counts(r: Option<Handler>, channels: nat) {
    match r
    case None => true
    case Some(h) => h.nextStream == channels % SCTP_STREAMS
  }

  lemma CountsOn(before: Option<Handler>, call: Call, channels: nat)
    requires Counts(before, channels)
    ensures Counts(Next(before, call), channels + if CreatesChannel(call) then 1 else 0)
  {
    hide Perform, Obeys;
    if Next(before, call).Some? {
      CallMovesStream(before.value, call);
    }
  }

  lemma {:induction false} StreamIdsCount(ice: IceParameters, declaredRole: Role, calls: seq<Call>, n: nat)
    requires n <= |calls|
    ensures Counts(Run(ice, declaredRole, calls, n), Channels(calls, n))
  {
    hide Next;
    if n > 0 {
      StreamIdsCount(ice, declaredRole, calls, n - 1);
      CountsOn(Run(ice, declaredRole, calls, n - 1), calls[n - 1], Channels(calls, n - 1));
    }
  }

  // The stream id call n of a run returns.
  ghost function StreamId(ice: IceParameters, declaredRole: Role, calls: seq<Call>, n: nat): (r: Result<nat>)
    requires n < |calls| && Run(ice, declaredRole, calls, n).Some? && calls[n].SendDataChannel?
  {
    SentData(Run(ice, declaredRole, calls, n).value, calls[n].offer, calls[n].valid, calls[n].failure).1
  }

  lemma SentStream(h: Handler, offer: Description, valid: bool, failure: Failure)
    ensures var r := SentData(h, offer, valid, failure).1; r.Ok? ==> r.value == h.nextStream
  {
  }

  // So the channel numbered k in a run has id k modulo 1024, if it is returned at all.
  lemma StreamIdOfChannel(ice: IceParameters, declaredRole: Role, calls: seq<Call>, n: nat)
    requires n < |calls| && Run(ice, declaredRole, calls, n).Some? && calls[n].SendDataChannel?
    requires StreamId(ice, declaredRole, calls, n).Ok?
    ensures StreamId(ice, declaredRole, calls, n) == Ok(Channels(calls, n) % SCTP_STREAMS)
  {
    StreamIdsCount(ice, declaredRole, calls, n);
    SentStream(Run(ice, declaredRole, calls, n).value, calls[n].offer, calls[n].valid, calls[n].failure);
  }

  // Call n of a run creates a channel and returns this id.
  ghost predicate Returns(ice: IceParameters, declaredRole: Role, calls: seq<Call>, n: nat, id: nat) {
    && n < |calls| && Run(ice, declaredRole, calls, n).Some? && calls[n].SendDataChannel?
    && StreamId(ice, declaredRole, calls, n) == Ok(id)
  }

  lemma ReturnedId(ice: IceParameters, declaredRole: Role, calls: seq<Call>, n: nat, id: nat)
    requires Returns(ice, declaredRole, calls, n, id)
    ensures n < |calls| && id == Channels(calls, n) % SCTP_STREAMS
  {
    StreamIdOfChannel(ice, declaredRole, calls, n);
  }

  // Ids are the same exactly when the numbers of the channels agree modulo 1024.
  ghost predicate SameIdIffCongruent(ids: (nat, nat), numbers: (nat, nat)) {
    ids.0 == ids.1 <==> (numbers.0 - numbers.1) % SCTP_STREAMS == 0
  }

  lemma SameResidue(ids: (nat, nat), numbers: (nat, nat))
    requires ids.0 == numbers.0 % SCTP_STREAMS && ids.1 == numbers.1 % SCTP_STREAMS
    ensures SameIdIffCongruent(ids, numbers)
  {
  }

  lemma StreamIdsCycle(ice: IceParameters, declaredRole: Role, calls: seq<Call>, i: nat, id: nat, j: nat, id': nat)
    requires i < |calls| && j < |calls|
    requires Returns(ice, declaredRole, calls, i, id) && Returns(ice, declaredRole, calls, j, id')
    ensures SameIdIffCongruent((id, id'), (Channels(calls, i), Channels(calls, j)))
  {
    ReturnedId(ice, declaredRole, calls, i, id);
    ReturnedId(ice, declaredRole, calls, j, id');
    SameResidue((id, id'), (Channels(calls, i), Channels(calls, j)));
  }

  /* DTLS roles */

  // Offers say actpass; answers say active or passive as fits the role opposite to the one OnConnect
  // was given; OnConnect returns at most once and is not called again after that.
  ghost predicate RolesFit(h: Handler) {
    && (forall i :: 0 <= i < |h.table.sections| ==>
          if h.table.sections[i].answer then
            && h.connects != [] && h.connects[|h.connects| - 1].returned
            && h.table.sections[i].mediaObject.setup ==
               (if h.connects[|h.connects| - 1].localRole == Client then Passive else Active)
          else h.table.sections[i].mediaObject.setup == ActPass)
    && (forall i :: 0 <= i < |h.connects| - 1 ==> !h.connects[i].returned)
    && (h.ready <==> exists i :: 0 <= i < |h.connects| && h.connects[i].returned)
  }

  lemma InvRolesFit(h: Handler)
    requires HandlerInv(h)
    ensures RolesFit(h)
  {
  }

  lemma ReachableRoles(ice: IceParameters, declaredRole: Role, calls: seq<Call>, n: nat)
    requires n <= |calls| && Run(ice, declaredRole, calls, n).Some?
    ensures RolesFit(Run(ice, declaredRole, calls, n).value)
  {
    RunKeepsInv(ice, declaredRole, calls, n);
    InvRolesFit(Run(ice, declaredRole, calls, n).value);
  }

  // The role as the code reads it: exact text.
  function RoleOf(text: string): (r: Role) {
    if text == "client" then Client
    else if text == "server" then Server
    else if text == "auto" then Auto
    else Other(text)
  }

  // validateDtlsParameters accepts the three roles in any case.
  predicate ValidRole(text: string) {
    Lower(text) == "auto" || Lower(text) == "client" || Lower(text) == "server"
  }

  // Once connected, the remote SDP has the role the server declared exactly when that is some
  // spelling of client, or server spelled in lower case: a "Server" passes validation and is taken
  // for a client.
  lemma DeclaredRoleKept(ice: IceParameters, text: string, calls: seq<Call>, n: nat)
    requires ValidRole(text) && Lower(text) != "auto"
    requires n <= |calls| && Run(ice, RoleOf(text), calls, n).Some? && Run(ice, RoleOf(text), calls, n).value.ready
    ensures Run(ice, RoleOf(text), calls, n).value.table.role == RoleOf(Lower(text))
       <==> text == "server" || Lower(text) == "client"
  {
    RunKeepsInv(ice, RoleOf(text), calls, n);
    LowerOfExact(text);
    assert "client"[0] != "server"[0];
  }

  // Such a run: one Receive, after which the remote side is the client.
  lemma UpperCaseServer(ice: IceParameters)
    ensures var calls := [Call.Receive(Some("a"), Audio, map[], NoFailure)];
      var after := Run(ice, RoleOf("SERVER"), calls, 1);
      ValidRole("SERVER") && after.Some? && after.value.ready && after.value.table.role == Client
  {
    var calls := [Call.Receive(Some("a"), Audio, map[], NoFailure)];
    var h := NewHandler(ice, RoleOf("SERVER"));
    assert Lower("SERVER") == "server" && "SERVER"[0] != "server"[0] && "SERVER"[0] != "client"[0];
    assert "SERVER"[0] != "auto"[0];
    assert Run(ice, RoleOf("SERVER"), calls, 0) == Some(h);
    assert Obeys(h, calls[0]);
  }

  // A validated role leaves the local role free exactly if it is "auto" in lower case; a local role that is
  // not free is given to every OnConnect, and the remote side has the opposite one once connected.
  lemma LocalRoleFree(ice: IceParameters, text: string, calls: seq<Call>, n: nat)
    requires ValidRole(text) && n <= |calls| && Run(ice, RoleOf(text), calls, n).Some?
    ensures var h := Run(ice, RoleOf(text), calls, n).value;
      && (h.forcedRole.None? <==> text == "auto")
      && (h.forcedRole.Some? && h.ready ==> h.table.role == Opposite(h.forcedRole.value))
  {
    RunKeepsInv(ice, RoleOf(text), calls, n);
    LowerOfExact(text);
  }

  // So "AUTO" is valid, and makes this side the server.
  lemma UpperCaseAuto(ice: IceParameters, calls: seq<Call>, n: nat)
    requires n <= |calls| && Run(ice, RoleOf("AUTO"), calls, n).Some?
    ensures ValidRole("AUTO") && Lower("AUTO") == "auto"
    ensures var h := Run(ice, RoleOf("AUTO"), calls, n).value;
      h.forcedRole == Some(Server) && (h.ready ==> h.table.role == Client)
  {
    assert Lower("AUTO") == "auto" && "AUTO"[0] != "auto"[0] && "AUTO"[0] != "server"[0] && "AUTO"[0] != "client"[0];
    RunKeepsInv(ice, RoleOf("AUTO"), calls, n);
    LocalRoleFree(ice, "AUTO", calls, n);
  }

  lemma LowerOfExact(text: string)
    ensures text == "server" ==> Lower(text) == "server"
    ensures text == "client" ==> Lower(text) == "client"
    ensures text == "auto" ==> Lower(text) == "auto"
  {
  }
}
