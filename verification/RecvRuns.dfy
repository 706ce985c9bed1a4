/** Runs of a receiving transport: generated MIDs, the probator, and whose section a close hits. */
module RecvRuns {

  import opened Common
  import opened Text
  import opened SdpTable
  import opened SdpRuns
  import opened HandlerSteps
  import opened SectionsInUse

  const PROBATOR := "probator"

  /* Closing a consumer */

  // Stopping a live consumer finds its MID in the index and disables or closes its own section;
  // every other section stays exactly as it was.
  lemma StopHitsOwnSection(h: Handler, localId: string, failure: Failure)
    requires HandlerInv(h) && Live(h, localId)
    ensures CanClose(h.table, localId)
    ensures var t, t' := h.table, StoppedReceiving(h, localId, failure).0.table;
      && localId in t.midToIndex && t.sections[t.midToIndex[localId]].Mid() == localId
      && |t'.sections| == |t.sections|
      && t'.sections[t.midToIndex[localId]].mediaObject.direction == Inactive
      && (t'.sections[t.midToIndex[localId]].IsClosed() <==> t.midToIndex[localId] != 0)
      && forall k :: 0 <= k < |t.sections| && k != t.midToIndex[localId] ==> t'.sections[k] == t.sections[k]
  {
  }

  /* Sections of open consumers */

  lemma ReceiveLeavesOthers(h: Handler, mid: Option<string>, kind: Kind, attributes: Attributes,
                            others: set<string>, failure: Failure)
    requires HandlerInv(h) && Allowed(h.table, ReceiveStep(h, mid, kind, attributes)) && AllLive(h, others)
    ensures var r := Received(h, mid, kind, attributes, failure);
      HandlerInv(r.0) && AllLive(r.0, others) && (r.1.Ok? ==> Live(r.0, r.1.value) && r.1.value !in others)
  {
    ReceivedKeeps(h, mid, kind, attributes, failure, "");
    forall other | other in others ensures Live(Received(h, mid, kind, attributes, failure).0, other) {
      ReceivedKeeps(h, mid, kind, attributes, failure, other);
    }
    FreshIsNotLive(h, ReceiveStep(h, mid, kind, attributes));
  }

  lemma StopReceivingLeavesOthers(h: Handler, localId: string, others: set<string>, failure: Failure)
    requires HandlerInv(h) && Live(h, localId) && AllLive(h, others) && localId !in others
    ensures CanClose(h.table, localId)
    ensures var h' := StoppedReceiving(h, localId, failure).0;
      HandlerInv(h') && OwnSectionStopped(h.table, h'.table, localId) && AllLive(h', others)
  {
    CloseTouchesOne(h.table, localId);
    StoppedReceivingKeeps(h, localId, failure, "");
    forall other | other in others ensures Live(StoppedReceiving(h, localId, failure).0, other) {
      StoppedReceivingKeeps(h, localId, failure, other);
    }
  }

  /* Runs of a receiving transport */

  // `open` holds the MIDs of the consumers returned and not closed since.
  datatype Receiver = Receiver(handler: Handler, probator: bool, open: set<string>)

  datatype Call =
    | Consume(mid: Option<string>, kind: Kind, attributes: Attributes, failure: Failure,
              probatorAttributes: Attributes, probatorFailure: Failure)
    | Close(localId: string, failure: Failure)
    | ConsumeData(failure: Failure)
    | RestartIce(ice: IceParameters, failure: Failure)

  // Consume, followed by the probator on the first video consumer.
  function Consumed(r: Receiver, call: Call): (r': Receiver)
    requires call.Consume?
  {
    var (h, id) := Received(r.handler, call.mid, call.kind, call.attributes, call.failure);
    if id.Throws? then r.(handler := h)
    else
      var r1 := Receiver(h, r.probator, r.open + {id.value});
      if call.kind == Video && !r.probator then Probed(r1, call.probatorAttributes, call.probatorFailure) else r1
  }

  // The consumer for RTP probation; its failure is ignored.
  function Probed(r: Receiver, attributes: Attributes, failure: Failure): (r': Receiver) {
    var (h, id) := Received(r.handler, Some(PROBATOR), Video, attributes, failure);
    Receiver(h, r.probator || id.Ok?, r.open)
  }

  // The MIDs about to be used are free.
  ghost predicate FreeMids(h: Handler, probator: bool, mid: Option<string>, kind: Kind, attributes: Attributes) {
    && Allowed(h.table, ReceiveStep(h, mid, kind, attributes))
    && (kind == Video && !probator ==> LocalId(h, mid) != PROBATOR && PROBATOR !in h.table.midToIndex)
  }

  // Free MIDs, and closing a consumer that is open.
  ghost predicate Possible(r: Receiver, call: Call) {
    match call
    case Consume(mid, kind, attributes, _, _, _) => FreeMids(r.handler, r.probator, mid, kind, attributes)
    case Close(localId, _) => localId in r.open
    case ConsumeData(_) => !r.handler.hasData ==> Allowed(r.handler.table, RecvSctpAssociation)
    case RestartIce(_, _) => true
  }

  // Closing indexes a slot that exists; see RunContinues.
  predicate Stoppable(r: Receiver, call: Call) {
    call.Close? && call.localId in r.handler.transceivers ==>
      CanClose(r.handler.table, r.handler.transceivers[call.localId])
  }

  function Perform(r: Receiver, call: Call): (r': Receiver)
    requires Stoppable(r, call)
  {
    match call
    case Consume(_, _, _, _, _, _) => Consumed(r, call)
    case Close(localId, failure) => r.(handler := StoppedReceiving(r.handler, localId, failure).0,
                                       open := r.open - {localId})
    case ConsumeData(failure) => r.(handler := ReceivedData(r.handler, failure).0)
    case RestartIce(ice, failure) => r.(handler := RestartedIce(r.handler, ice, false, failure).0)
  }

  // The remote SDP is in agreement and every open consumer has a live section.
  ghost predicate Safe(r: Receiver) {
    HandlerInv(r.handler) && AllLive(r.handler, r.open)
  }

  lemma ProbatorIsFree(h: Handler, attributes: Attributes)
    requires HandlerInv(h) && PROBATOR !in h.table.midToIndex
    ensures Allowed(h.table, ReceiveStep(h, Some(PROBATOR), Video, attributes))
  {
    UnknownMidIsFree(h.table, PROBATOR, FirstClosed(h.table.sections));
  }

  lemma ProbedSafe(r: Receiver, attributes: Attributes, failure: Failure)
    requires Safe(r) && PROBATOR !in r.handler.table.midToIndex
    ensures Safe(Probed(r, attributes, failure))
  {
    ProbatorIsFree(r.handler, attributes);
    hide Received, HandlerInv, Allowed, Live;
    ReceiveLeavesOthers(r.handler, Some(PROBATOR), Video, attributes, r.open, failure);
  }

  // The first half of Consume.
  lemma AdmittedSafe(r: Receiver, mid: Option<string>, kind: Kind, attributes: Attributes, failure: Failure)
    requires Safe(r) && Allowed(r.handler.table, ReceiveStep(r.handler, mid, kind, attributes))
    ensures var (h, id) := Received(r.handler, mid, kind, attributes, failure);
      Safe(Receiver(h, r.probator, if id.Ok? then r.open + {id.value} else r.open))
  {
    ReceiveLeavesOthers(r.handler, mid, kind, attributes, r.open, failure);
  }

  lemma ConsumedSafe(r: Receiver, call: Call)
    requires Safe(r) && call.Consume? && Possible(r, call)
    ensures Safe(Consumed(r, call))
  {
    hide Received, HandlerInv, Allowed;
    AdmittedSafe(r, call.mid, call.kind, call.attributes, call.failure);
    var (h, id) := Received(r.handler, call.mid, call.kind, call.attributes, call.failure);
    if id.Ok? && call.kind == Video && !r.probator {
      ReceivedEffect(r.handler, call.mid, call.kind, call.attributes, call.failure);
      ProbedSafe(Receiver(h, r.probator, r.open + {id.value}), call.probatorAttributes, call.probatorFailure);
    }
  }

  lemma ClosedSafe(r: Receiver, localId: string, failure: Failure)
    requires Safe(r) && localId in r.open
    ensures Stoppable(r, Close(localId, failure)) && Safe(Perform(r, Close(localId, failure)))
  {
    StopReceivingLeavesOthers(r.handler, localId, r.open - {localId}, failure);
  }

  lemma DataSafe(r: Receiver, failure: Failure)
    requires Safe(r) && Possible(r, ConsumeData(failure))
    ensures Safe(Perform(r, ConsumeData(failure)))
  {
    ReceivedDataKeeps(r.handler, failure, "");
    forall mid | mid in r.open ensures Live(ReceivedData(r.handler, failure).0, mid) {
      ReceivedDataKeeps(r.handler, failure, mid);
    }
  }

  lemma RestartSafe(r: Receiver, ice: IceParameters, failure: Failure)
    requires Safe(r)
    ensures Safe(Perform(r, Call.RestartIce(ice, failure)))
  {
    RestartedIceKeeps(r.handler, ice, false, failure, "");
    forall mid | mid in r.open ensures Live(RestartedIce(r.handler, ice, false, failure).0, mid) {
      RestartedIceKeeps(r.handler, ice, false, failure, mid);
    }
  }

  lemma CallKeepsSafe(r: Receiver, call: Call)
    requires Safe(r) && Possible(r, call)
    ensures Stoppable(r, call) && Safe(Perform(r, call))
  {
    match call
    case Consume(_, _, _, _, _, _) => ConsumedSafe(r, call);
    case Close(localId, failure) => ClosedSafe(r, localId, failure);
    case ConsumeData(failure) => DataSafe(r, failure);
    case RestartIce(ice, failure) => RestartSafe(r, ice, failure);
  }

  ghost function Next(before: Option<Receiver>, call: Call): (r: Option<Receiver>) {
    if before.Some? && Possible(before.value, call) && Stoppable(before.value, call) then
      Some(Perform(before.value, call))
    else None
  }

  // The state after the first n calls; None if one of them was not possible.
  ghost function Run(ice: IceParameters, role: Role, calls: seq<Call>, n: nat): (r: Option<Receiver>)
    requires n <= |calls|
  {
    if n == 0 then Some(Receiver(NewHandler(ice, role), false, {}))
    else Next(Run(ice, role, calls, n - 1), calls[n - 1])
  }

  ghost predicate SafeAfter(r: Option<Receiver>) {
    match r
    case None => true
    case Some(r) => Safe(r)
  }

  lemma NextSafe(before: Option<Receiver>, call: Call)
    requires SafeAfter(before)
    ensures SafeAfter(Next(before, call))
  {
    if Next(before, call).Some? {
      CallKeepsSafe(before.value, call);
    }
  }

  // After every run, whatever fails in it, every open consumer has its own live section.
  lemma {:induction false} RunsAreSafe(ice: IceParameters, role: Role, calls: seq<Call>, n: nat)
    requires n <= |calls|
    ensures SafeAfter(Run(ice, role, calls, n))
  {
    hide Next;
    if n == 0 {
      NewHandlerInv(ice, role);
    } else {
      RunsAreSafe(ice, role, calls, n - 1);
      NextSafe(Run(ice, role, calls, n - 1), calls[n - 1]);
    }
  }

  // So a possible call never indexes a slot that does not exist.
  lemma RunContinues(ice: IceParameters, role: Role, calls: seq<Call>, n: nat)
    requires n < |calls| && Run(ice, role, calls, n).Some? && Possible(Run(ice, role, calls, n).value, calls[n])
    ensures Run(ice, role, calls, n + 1).Some?
  {
    RunsAreSafe(ice, role, calls, n);
    CallKeepsSafe(Run(ice, role, calls, n).value, calls[n]);
  }

  // After every run, closing an open consumer finds its MID in the index and stops its own section;
  // every other section stays as it was, so every other open consumer keeps a live one.
  lemma CloseHitsOwnSection(ice: IceParameters, role: Role, calls: seq<Call>, n: nat, localId: string, failure: Failure)
    requires n <= |calls| && Run(ice, role, calls, n).Some? && localId in Run(ice, role, calls, n).value.open
    ensures var r, close := Run(ice, role, calls, n).value, Close(localId, failure);
      && Stoppable(r, close)
      && OwnSectionStopped(r.handler.table, Perform(r, close).handler.table, localId)
      && AllLive(Perform(r, close).handler, r.open - {localId})
  {
    RunsAreSafe(ice, role, calls, n);
    var r := Run(ice, role, calls, n).value;
    StopReceivingLeavesOthers(r.handler, localId, r.open - {localId}, failure);
  }

  // A new consumer gets a MID that no open one has.
  lemma ConsumersHaveDistinctMids(ice: IceParameters, role: Role, calls: seq<Call>, n: nat)
    requires n < |calls| && Run(ice, role, calls, n).Some? && calls[n].Consume?
    requires Possible(Run(ice, role, calls, n).value, calls[n])
    ensures LocalId(Run(ice, role, calls, n).value.handler, calls[n].mid) !in Run(ice, role, calls, n).value.open
  {
    RunsAreSafe(ice, role, calls, n);
    var h := Run(ice, role, calls, n).value.handler;
    FreshIsNotLive(h, ReceiveStep(h, calls[n].mid, calls[n].kind, calls[n].attributes));
  }

  /* Generated MIDs */

  ghost predicate Generated(mid: string, n: nat) {
    exists j: nat :: j < n && mid == Decimal(j)
  }

  // The MIDs the two maps can hold: those in `taken`, and those generated from smaller maps and stored.
  ghost predicate Known(h: Handler, taken: set<string>) {
    && (forall mid :: mid in h.transceivers ==> mid in taken || Generated(mid, |h.transceivers|))
    && (forall mid :: mid in h.table.midToIndex ==> mid in h.transceivers || mid in taken)
  }

  const FIXED_MIDS := {PROBATOR, "datachannel"}

  // Every MID is the probator's, the data channel's or generated.
  ghost predicate OnlyGenerated(h: Handler, probator: bool) {
    && Known(h, FIXED_MIDS)
    && (PROBATOR in h.transceivers || PROBATOR in h.table.midToIndex ==> probator)
    && ("datachannel" in h.table.midToIndex ==> h.hasData)
  }

  lemma DigitsOnly(n: nat)
    ensures GoodMid(Decimal(n)) && Decimal(n) != PROBATOR && Decimal(n) != "datachannel"
  {
    assert IsDigit(Decimal(n)[0]) && PROBATOR[0] == 'p' && "datachannel"[0] == 'd';
  }

  // A number not below the size of the map and not taken is in neither map.
  lemma NotYetGenerated(h: Handler, taken: set<string>, n: nat)
    requires Known(h, taken) && n >= |h.transceivers| && Decimal(n) !in taken
    ensures Decimal(n) !in h.table.midToIndex && Decimal(n) !in h.transceivers
  {
    if Generated(Decimal(n), |h.transceivers|) {
      var j: nat :| j < |h.transceivers| && Decimal(n) == Decimal(j);
      DecimalInjective(n, j);
    }
  }

  lemma GeneratedIsFresh(h: Handler, probator: bool)
    requires OnlyGenerated(h, probator)
    ensures LocalId(h, None) !in h.table.midToIndex && LocalId(h, None) !in h.transceivers
  {
    DigitsOnly(|h.transceivers|);
    NotYetGenerated(h, FIXED_MIDS, |h.transceivers|);
  }

  lemma UnknownMidIsFree(t: Table, mid: string, slot: nat)
    requires Inv(t) && GoodMid(mid) && mid !in t.midToIndex
    ensures FreeMid(t, mid, slot)
  {
  }

  lemma PlacedEffect(h: Handler, step: Step)
    requires Places(step)
    ensures var h' := Placed(h, step);
      && h'.transceivers == h.transceivers && h'.hasData == h.hasData
      && h'.table.midToIndex.Keys <= h.table.midToIndex.Keys + {NewSection(h.table, step).Mid()}
  {
  }

  lemma AcceptedEffect(h: Handler, localId: string, failure: Failure)
    ensures var (h', id) := Accepted(h, localId, failure);
      && h'.transceivers == (if id.Ok? then h.transceivers[localId := localId] else h.transceivers)
      && h'.table.midToIndex == h.table.midToIndex && h'.hasData == h.hasData
      && (id.Ok? ==> id.value == localId) && (failure == NoFailure ==> id.Ok?)
  {
  }

  // What a call that may place a section with this MID, and then store it, does to the two maps.
  ghost predicate Takes(h: Handler, h': Handler, id: string, placed: bool, stored: bool) {
    && h'.transceivers == (if stored then h.transceivers[id := id] else h.transceivers)
    && h'.table.midToIndex.Keys <= h.table.midToIndex.Keys + (if placed then {id} else {})
    && h'.hasData == h.hasData
  }

  // Receive, however it ends.
  lemma ReceivedEffect(h: Handler, mid: Option<string>, kind: Kind, attributes: Attributes, failure: Failure)
    ensures var (h', id) := Received(h, mid, kind, attributes, failure);
      && Takes(h, h', LocalId(h, mid), failure != BuildSection, id.Ok?)
      && (failure == BuildSection ==> h' == h && id.Throws?)
      && (id.Ok? ==> id.value == LocalId(h, mid)) && (failure == NoFailure ==> id.Ok?)
  {
    if failure != BuildSection {
      hide Placed, Accepted;
      var step := ReceiveStep(h, mid, kind, attributes);
      PlacedEffect(h, step);
      AcceptedEffect(Placed(h, step), LocalId(h, mid), failure);
    }
  }

  // The MIDs taken then: a MID that is generated and stored is accounted for by the size of the map.
  lemma OneMore(h: Handler, taken: set<string>, h': Handler, id: string, placed: bool, stored: bool)
    requires Known(h, taken) && Takes(h, h', id, placed, stored) && (stored ==> placed)
    ensures Known(h', if placed && !(stored && id == Decimal(|h.transceivers|)) then taken + {id} else taken)
  {
    var taken' := if placed && !(stored && id == Decimal(|h.transceivers|)) then taken + {id} else taken;
    forall mid | mid in h'.transceivers ensures mid in taken' || Generated(mid, |h'.transceivers|) {
      if mid !in taken' && mid in h.transceivers {
        var j: nat :| j < |h.transceivers| && mid == Decimal(j);
        assert j < |h'.transceivers|;
      }
    }
  }

  lemma SameMapsKnown(h: Handler, taken: set<string>, h': Handler)
    requires Known(h, taken) && h'.transceivers == h.transceivers
    requires h'.table.midToIndex.Keys <= h.table.midToIndex.Keys + taken
    ensures Known(h', taken)
  {
  }

  // Without supplied MIDs those about to be used are always free.
  lemma GeneratedMidsAreFree(h: Handler, probator: bool, kind: Kind, attributes: Attributes)
    requires HandlerInv(h) && OnlyGenerated(h, probator)
    ensures FreeMids(h, probator, None, kind, attributes)
  {
    GeneratedIsFresh(h, probator);
    DigitsOnly(|h.transceivers|);
    UnknownMidIsFree(h.table, LocalId(h, None), FirstClosed(h.table.sections));
  }

  // Nothing fails once the section is built.
  predicate LeavesNothing(failure: Failure) {
    failure == NoFailure || failure == BuildSection
  }

  lemma ReceiveKeepsGenerated(h: Handler, probator: bool, kind: Kind, attributes: Attributes, failure: Failure)
    requires OnlyGenerated(h, probator) && LeavesNothing(failure)
    ensures OnlyGenerated(Received(h, None, kind, attributes, failure).0, probator)
  {
    hide Received, Known, Decimal;
    var (h', id) := Received(h, None, kind, attributes, failure);
    DigitsOnly(|h.transceivers|);
    ReceivedEffect(h, None, kind, attributes, failure);
    OneMore(h, FIXED_MIDS, h', LocalId(h, None), failure != BuildSection, id.Ok?);
  }

  lemma ProbatorKeepsGenerated(h: Handler, attributes: Attributes, failure: Failure)
    requires OnlyGenerated(h, false) && LeavesNothing(failure)
    ensures var (h', id) := Received(h, Some(PROBATOR), Video, attributes, failure); OnlyGenerated(h', id.Ok?)
  {
    hide Received, Known;
    var (h', id) := Received(h, Some(PROBATOR), Video, attributes, failure);
    assert PROBATOR[0] != "datachannel"[0];
    ReceivedEffect(h, Some(PROBATOR), Video, attributes, failure);
    OneMore(h, FIXED_MIDS, h', PROBATOR, failure != BuildSection, id.Ok?);
    assert FIXED_MIDS + {PROBATOR} == FIXED_MIDS;
  }

  // No MID supplied, and nothing fails that leaves a section behind.
  predicate Smooth(call: Call) {
    match call
    case Consume(mid, _, _, failure, _, probatorFailure) =>
      mid.None? && LeavesNothing(failure) && LeavesNothing(probatorFailure)
    case ConsumeData(failure) => failure == NoFailure || failure == CreateDataChannel
    case _ => true
  }

  lemma ConsumedKeepsGenerated(r: Receiver, call: Call)
    requires OnlyGenerated(r.handler, r.probator) && call.Consume? && Smooth(call)
    ensures var r' := Consumed(r, call); OnlyGenerated(r'.handler, r'.probator)
  {
    hide Received, OnlyGenerated;
    ReceiveKeepsGenerated(r.handler, r.probator, call.kind, call.attributes, call.failure);
    var (h, id) := Received(r.handler, None, call.kind, call.attributes, call.failure);
    if call.kind == Video && !r.probator {
      ProbatorKeepsGenerated(h, call.probatorAttributes, call.probatorFailure);
    }
  }

  lemma CloseKeepsGenerated(h: Handler, probator: bool, localId: string, failure: Failure)
    requires HandlerInv(h) && OnlyGenerated(h, probator) && Live(h, localId)
    ensures CanClose(h.table, localId)
    ensures OnlyGenerated(StoppedReceiving(h, localId, failure).0, probator)
  {
    CloseTouchesOne(h.table, localId);
  }

  lemma DataIsFree(h: Handler, probator: bool)
    requires HandlerInv(h) && OnlyGenerated(h, probator) && !h.hasData
    ensures Allowed(h.table, RecvSctpAssociation)
  {
    assert GoodMid("datachannel");
    UnknownMidIsFree(h.table, "datachannel", |h.table.sections|);
  }

  lemma DataEffect(h: Handler, failure: Failure)
    ensures var (h', r) := ReceivedData(h, failure);
      && h'.transceivers == h.transceivers && h'.hasData == (h.hasData || r.Ok?)
      && h'.table.midToIndex.Keys <= h.table.midToIndex.Keys + {"datachannel"}
      && (h.hasData || failure == CreateDataChannel ==> h' == h)
  {
    hide Placed;
    if failure != CreateDataChannel && !h.hasData {
      PlacedEffect(h, RecvSctpAssociation);
    }
  }

  lemma DataKeepsGenerated(h: Handler, probator: bool, failure: Failure)
    requires OnlyGenerated(h, probator) && (failure == NoFailure || failure == CreateDataChannel)
    ensures OnlyGenerated(ReceivedData(h, failure).0, probator)
  {
    var h' := ReceivedData(h, failure).0;
    assert failure == NoFailure ==> h'.hasData;
    assert PROBATOR[0] != "datachannel"[0];
    hide ReceivedData;
    DataEffect(h, failure);
    SameMapsKnown(h, FIXED_MIDS, h');
  }

  lemma CallKeepsGenerated(r: Receiver, call: Call)
    requires Safe(r) && OnlyGenerated(r.handler, r.probator) && Smooth(call) && (call.Close? ==> call.localId in r.open)
    ensures Possible(r, call) && Stoppable(r, call)
    ensures var r' := Perform(r, call); OnlyGenerated(r'.handler, r'.probator)
  {
    match call
    case Consume(_, kind, attributes, _, _, _) =>
      GeneratedMidsAreFree(r.handler, r.probator, kind, attributes);
      ConsumedKeepsGenerated(r, call);
    case Close(localId, failure) => CloseKeepsGenerated(r.handler, r.probator, localId, failure);
    case ConsumeData(failure) =>
      if !r.handler.hasData {
        DataIsFree(r.handler, r.probator);
      }
      DataKeepsGenerated(r.handler, r.probator, failure);
    case RestartIce(_, _) =>
  }

  ghost predicate GeneratedAfter(r: Option<Receiver>) {
    match r
    case None => true
    case Some(r) => Safe(r) && OnlyGenerated(r.handler, r.probator)
  }

  lemma NextGenerated(before: Option<Receiver>, call: Call)
    requires GeneratedAfter(before) && Smooth(call)
    ensures GeneratedAfter(Next(before, call))
  {
    if Next(before, call).Some? {
      CallKeepsSafe(before.value, call);
      CallKeepsGenerated(before.value, call);
    }
  }

  lemma NewReceiver(ice: IceParameters, role: Role)
    ensures GeneratedAfter(Some(Receiver(NewHandler(ice, role), false, {})))
  {
    NewHandlerInv(ice, role);
  }

  lemma {:induction false} RunsStayGenerated(ice: IceParameters, role: Role, calls: seq<Call>, n: nat)
    requires n <= |calls| && forall i :: 0 <= i < n ==> Smooth(calls[i])
    ensures GeneratedAfter(Run(ice, role, calls, n))
  {
    hide Next, GeneratedAfter;
    if n == 0 {
      NewReceiver(ice, role);
    } else {
      RunsStayGenerated(ice, role, calls, n - 1);
      NextGenerated(Run(ice, role, calls, n - 1), calls[n - 1]);
    }
  }

  // In runs without supplied MIDs and without failures that leave a section behind no MID is ever generated
  // twice, and callers owe nothing but to close only what is open.
  lemma GeneratedRunsContinue(ice: IceParameters, role: Role, calls: seq<Call>, n: nat)
    requires n < |calls| && (forall i :: 0 <= i <= n ==> Smooth(calls[i])) && Run(ice, role, calls, n).Some?
    requires calls[n].Close? ==> calls[n].localId in Run(ice, role, calls, n).value.open
    ensures Run(ice, role, calls, n + 1).Some?
    ensures var h := Run(ice, role, calls, n).value.handler; LocalId(h, None) !in h.transceivers
  {
    RunsStayGenerated(ice, role, calls, n);
    var r := Run(ice, role, calls, n).value;
    CallKeepsGenerated(r, calls[n]);
    GeneratedIsFresh(r.handler, r.probator);
  }

  /* Generated MIDs in any run */

  // The MIDs a call takes besides those it generates and stores: one supplied instead, or one left behind
  // when the call fails with its section built.
  function Marks(h: Handler, call: Call): (mids: set<string>) {
    match call
    case Consume(mid, kind, attributes, failure, _, _) =>
      if failure != BuildSection && (LocalId(h, mid) != LocalId(h, None)
                                     || Received(h, mid, kind, attributes, failure).1.Throws?)
      then {LocalId(h, mid)} else {}
    case _ => {}
  }

  ghost function TakenNext(taken: set<string>, before: Option<Receiver>, call: Call): (mids: set<string>) {
    if before.Some? then taken + Marks(before.value.handler, call) else taken
  }

  // Those taken in the first n calls of a run.
  ghost function Taken(ice: IceParameters, role: Role, calls: seq<Call>, n: nat): (mids: set<string>)
    requires n <= |calls|
    ensures FIXED_MIDS <= mids
  {
    if n == 0 then FIXED_MIDS
    else TakenNext(Taken(ice, role, calls, n - 1), Run(ice, role, calls, n - 1), calls[n - 1])
  }

  lemma ReceiveKnown(h: Handler, taken: set<string>, mid: Option<string>, kind: Kind, attributes: Attributes,
                     failure: Failure, taken': set<string>)
    requires Known(h, taken) && taken <= taken'
    requires failure == BuildSection || LocalId(h, mid) in taken'
             || (LocalId(h, mid) == LocalId(h, None) && Received(h, mid, kind, attributes, failure).1.Ok?)
    ensures Known(Received(h, mid, kind, attributes, failure).0, taken')
  {
    hide Received;
    var (h', id) := Received(h, mid, kind, attributes, failure);
    ReceivedEffect(h, mid, kind, attributes, failure);
    OneMore(h, taken, h', LocalId(h, mid), failure != BuildSection, id.Ok?);
  }

  lemma ConsumedKnown(r: Receiver, taken: set<string>, call: Call)
    requires Known(r.handler, taken) && FIXED_MIDS <= taken && call.Consume?
    ensures Known(Consumed(r, call).handler, taken + Marks(r.handler, call))
  {
    hide Received, Known;
    var taken' := taken + Marks(r.handler, call);
    var (h, id) := Received(r.handler, call.mid, call.kind, call.attributes, call.failure);
    ReceiveKnown(r.handler, taken, call.mid, call.kind, call.attributes, call.failure, taken');
    ReceiveKnown(h, taken', Some(PROBATOR), Video, call.probatorAttributes, call.probatorFailure, taken');
  }

  lemma CallKnown(r: Receiver, taken: set<string>, call: Call)
    requires Safe(r) && Possible(r, call) && Stoppable(r, call) && Known(r.handler, taken) && FIXED_MIDS <= taken
    ensures Known(Perform(r, call).handler, taken + Marks(r.handler, call))
  {
    hide Received, ReceivedData, Consumed;
    match call
    case Consume(_, _, _, _, _, _) => ConsumedKnown(r, taken, call);
    case Close(_, _) => SameMapsKnown(r.handler, taken, Perform(r, call).handler);
    case ConsumeData(failure) =>
      DataEffect(r.handler, failure);
      SameMapsKnown(r.handler, taken, Perform(r, call).handler);
    case RestartIce(_, _) => SameMapsKnown(r.handler, taken, Perform(r, call).handler);
  }

  ghost predicate KnownAfter(r: Option<Receiver>, taken: set<string>) {
    r.Some? ==> Known(r.value.handler, taken)
  }

  lemma NextKnown(before: Option<Receiver>, taken: set<string>, call: Call)
    requires SafeAfter(before) && KnownAfter(before, taken) && FIXED_MIDS <= taken
    ensures KnownAfter(Next(before, call), TakenNext(taken, before, call))
  {
    hide Perform, Known, Safe, Possible, Stoppable, Marks;
    if Next(before, call).Some? {
      CallKnown(before.value, taken, call);
    }
  }

  lemma NewHandlerKnown(ice: IceParameters, role: Role)
    ensures Known(NewHandler(ice, role), FIXED_MIDS)
  {
  }

  lemma {:induction false} RunsKnow(ice: IceParameters, role: Role, calls: seq<Call>, n: nat)
    requires n <= |calls|
    ensures KnownAfter(Run(ice, role, calls, n), Taken(ice, role, calls, n))
  {
    hide Known, Next, TakenNext;
    if n == 0 {
      NewHandlerKnown(ice, role);
    } else {
      RunsKnow(ice, role, calls, n - 1);
      RunsAreSafe(ice, role, calls, n - 1);
      NextKnown(Run(ice, role, calls, n - 1), Taken(ice, role, calls, n - 1), calls[n - 1]);
    }
  }

  // The MID a Receive without a MID would generate is free.
  ghost predicate NextMidIsFree(h: Handler, kind: Kind, attributes: Attributes) {
    Allowed(h.table, ReceiveStep(h, None, kind, attributes))
  }

  lemma UntakenMidIsFree(h: Handler, taken: set<string>, kind: Kind, attributes: Attributes)
    requires HandlerInv(h) && Known(h, taken) && LocalId(h, None) !in taken
    ensures NextMidIsFree(h, kind, attributes) && LocalId(h, None) !in h.transceivers
  {
    DigitsOnly(|h.transceivers|);
    NotYetGenerated(h, taken, |h.transceivers|);
    UnknownMidIsFree(h.table, LocalId(h, None), FirstClosed(h.table.sections));
  }

  // After every run, whatever MIDs were supplied and whatever failed, the next generated MID is free and
  // not stored yet, unless it is one that was supplied or left behind.
  lemma GeneratedMidIsFree(ice: IceParameters, role: Role, calls: seq<Call>, n: nat, kind: Kind, attributes: Attributes)
    requires n <= |calls| && Run(ice, role, calls, n).Some?
    requires LocalId(Run(ice, role, calls, n).value.handler, None) !in Taken(ice, role, calls, n)
    ensures var h := Run(ice, role, calls, n).value.handler;
      NextMidIsFree(h, kind, attributes) && LocalId(h, None) !in h.transceivers
  {
    hide Known, HandlerInv, NextMidIsFree;
    RunsKnow(ice, role, calls, n);
    RunsAreSafe(ice, role, calls, n);
    UntakenMidIsFree(Run(ice, role, calls, n).value.handler, Taken(ice, role, calls, n), kind, attributes);
  }

  /* Where generated MIDs go wrong */

  ghost predicate HeldOpen(t: Table, mid: string) {
    exists i :: 0 <= i < |t.sections| && t.sections[i].Mid() == mid && !t.sections[i].IsClosed()
  }

  // However Receive ends once the section is built, its MID is then held by an open section.
  lemma NewMidIsHeld(h: Handler, mid: Option<string>, kind: Kind, attributes: Attributes, failure: Failure)
    requires HandlerInv(h) && Allowed(h.table, ReceiveStep(h, mid, kind, attributes)) && failure != BuildSection
    ensures HeldOpen(Received(h, mid, kind, attributes, failure).0.table, LocalId(h, mid))
  {
    var t := Received(h, mid, kind, attributes, failure).0.table;
    var h1 := Placed(h, ReceiveStep(h, mid, kind, attributes));
    var i := FirstClosed(h.table.sections);
    assert h1.table.sections[i].Mid() == LocalId(h, mid) && !h1.table.sections[i].IsClosed() by {
      PlacedAtSlot(h.table, ReceiveStep(h, mid, kind, attributes));
    }
    assert t == h1.table || t == Ensured(h1, Client, failure).table;
    assert t.sections[i].Mid() == LocalId(h, mid) && !t.sections[i].IsClosed();
  }

  lemma HeldMidIsTaken(h: Handler, kind: Kind, attributes: Attributes)
    requires HeldOpen(h.table, LocalId(h, None))
    ensures !NextMidIsFree(h, kind, attributes)
  {
  }

  // A handler h' after h, where a section with this MID may have been placed and stored.
  lemma NextMid(h: Handler, taken: set<string>, h': Handler, id: string, placed: bool, stored: bool, kind: Kind,
                attributes: Attributes)
    requires Known(h, taken) && Inv(h'.table) && Takes(h, h', id, placed, stored) && (stored ==> placed)
    requires Decimal(|h.transceivers|) !in taken && Decimal(|h.transceivers| + 1) !in taken
    requires placed ==> HeldOpen(h'.table, id)
    ensures NextMidIsFree(h', kind, attributes)
       <==> !(placed && id == Decimal(|h.transceivers| + if stored then 1 else 0))
  {
    hide Inv;
    var n, n' := |h.transceivers| + (if stored then 1 else 0), |h'.transceivers|;
    NotYetGenerated(h, taken, n);
    NotYetGenerated(h, taken, n');
    DigitsOnly(n');
    if placed && id == Decimal(n) {
      HeldMidIsTaken(h', kind, attributes);
    } else {
      assert stored && n' != n ==> id in h.transceivers;
      UnknownMidIsFree(h'.table, Decimal(n'), FirstClosed(h'.table.sections));
    }
  }

  // After a Receive with any free MID and any failure the MID generated next is free unless the section
  // was built and its MID is the number of transceivers before the call, plus one if the call succeeded;
  // provided neither number was supplied or left behind before.
  lemma NextMidAfterReceive(h: Handler, taken: set<string>, mid: Option<string>, kind: Kind, attributes: Attributes,
                            failure: Failure, nextKind: Kind, nextAttributes: Attributes)
    requires HandlerInv(h) && Known(h, taken) && Allowed(h.table, ReceiveStep(h, mid, kind, attributes))
    requires Decimal(|h.transceivers|) !in taken && Decimal(|h.transceivers| + 1) !in taken
    ensures var (h', id) := Received(h, mid, kind, attributes, failure);
      NextMidIsFree(h', nextKind, nextAttributes) <==>
        !(failure != BuildSection && LocalId(h, mid) == Decimal(|h.transceivers| + if id.Ok? then 1 else 0))
  {
    hide Received, Inv, RolesAgree, HeldOpen, NextMidIsFree, Known;
    var (h', id) := Received(h, mid, kind, attributes, failure);
    ReceivedEffect(h, mid, kind, attributes, failure);
    ReceivedInv(h, mid, kind, attributes, failure);
    if failure != BuildSection {
      NewMidIsHeld(h, mid, kind, attributes, failure);
    }
    NextMid(h, taken, h', LocalId(h, mid), failure != BuildSection, id.Ok?, nextKind, nextAttributes);
  }

  // So a Receive without a MID that throws after its section was built makes the next one clash, ...
  lemma FailureMakesMidClash(h: Handler, kind: Kind, attributes: Attributes, failure: Failure)
    requires HandlerInv(h) && Allowed(h.table, ReceiveStep(h, None, kind, attributes)) && failure != BuildSection
    requires Received(h, None, kind, attributes, failure).1.Throws?
    ensures var h' := Received(h, None, kind, attributes, failure).0;
      LocalId(h', None) == LocalId(h, None) && !NextMidIsFree(h', kind, attributes)
  {
    ReceivedEffect(h, None, kind, attributes, failure);
    NewMidIsHeld(h, None, kind, attributes, failure);
    HeldMidIsTaken(Received(h, None, kind, attributes, failure).0, kind, attributes);
  }

  // ... and so does supplying the MID that comes after the next.
  lemma SuppliedMidClashes(h: Handler, kind: Kind, attributes: Attributes)
    requires HandlerInv(h)
    requires var next := Decimal(|h.transceivers| + 1);
      next !in h.transceivers && Allowed(h.table, ReceiveStep(h, Some(next), kind, attributes))
    ensures var h' := Received(h, Some(Decimal(|h.transceivers| + 1)), kind, attributes, NoFailure).0;
      !NextMidIsFree(h', kind, attributes)
  {
    hide Placed, Ensured, Inv, RolesAgree, HeldOpen;
    var next := Decimal(|h.transceivers| + 1);
    var h' := Received(h, Some(next), kind, attributes, NoFailure).0;
    ReceivedEffect(h, Some(next), kind, attributes, NoFailure);
    assert |h'.transceivers| == |h.transceivers| + 1;
    NewMidIsHeld(h, Some(next), kind, attributes, NoFailure);
    HeldMidIsTaken(h', kind, attributes);
  }

  /* Whose every section is */

  // The MIDs of the sections a call places for no consumer: the probator's, the data channel's, and the one
  // left behind when a Receive fails with its section built.
  function Unowned(r: Receiver, call: Call): (mids: set<string>) {
    match call
    case Consume(mid, kind, attributes, failure, _, probatorFailure) =>
      var id := Received(r.handler, mid, kind, attributes, failure).1;
      if id.Throws? then (if failure == BuildSection then {} else {LocalId(r.handler, mid)})
      else if kind == Video && !r.probator && probatorFailure != BuildSection then {PROBATOR} else {}
    case ConsumeData(failure) => if PlacesData(r.handler, failure) then {DATA_CHANNEL.mid} else {}
    case _ => {}
  }

  // Every section in use is that of an open consumer or one of the others, and not both.
  ghost predicate InAccount(r: Receiver, others: set<string>) {
    Accounted(r.handler.table, r.open, others)
  }

  lemma AdmittedAccounted(r: Receiver, others: set<string>, mid: Option<string>, kind: Kind, attributes: Attributes,
                          failure: Failure)
    requires Safe(r) && InAccount(r, others) && Allowed(r.handler.table, ReceiveStep(r.handler, mid, kind, attributes))
    ensures var (h, id) := Received(r.handler, mid, kind, attributes, failure);
      if id.Ok? then InAccount(Receiver(h, r.probator, r.open + {id.value}), others)
      else InAccount(r.(handler := h), others + if failure == BuildSection then {} else {LocalId(r.handler, mid)})
  {
    hide Received, HandlerInv, Allowed, AllLive, Gains, Accounted, InUse;
    var (h, id) := Received(r.handler, mid, kind, attributes, failure);
    ReceivedGains(r.handler, mid, kind, attributes, failure);
    ReceivedEffect(r.handler, mid, kind, attributes, failure);
    ReceivedWasFree(r.handler, mid, kind, attributes);
    var placed := if failure == BuildSection then {} else {LocalId(r.handler, mid)};
    if id.Ok? {
      AccountGains(r.handler.table, r.open, others, h.table, placed, r.open + placed, others);
    } else {
      AccountGains(r.handler.table, r.open, others, h.table, placed, r.open, others + placed);
    }
  }

  lemma ReceivedWasFree(h: Handler, mid: Option<string>, kind: Kind, attributes: Attributes)
    requires HandlerInv(h) && Allowed(h.table, ReceiveStep(h, mid, kind, attributes))
    ensures !InUse(h.table, LocalId(h, mid))
  {
    FreshIsNotInUse(h.table, ReceiveStep(h, mid, kind, attributes));
  }

  // The probator's section is nobody's, whether its Receive succeeds or fails later.
  lemma ProbedAccounted(r: Receiver, others: set<string>, attributes: Attributes, failure: Failure)
    requires Safe(r) && InAccount(r, others) && PROBATOR !in r.handler.table.midToIndex
    ensures InAccount(Probed(r, attributes, failure), others + if failure == BuildSection then {} else {PROBATOR})
  {
    ProbatorIsFree(r.handler, attributes);
    hide Received, HandlerInv, Allowed, AllLive, Gains, Accounted, InUse;
    var h := Received(r.handler, Some(PROBATOR), Video, attributes, failure).0;
    ReceivedGains(r.handler, Some(PROBATOR), Video, attributes, failure);
    ReceivedWasFree(r.handler, Some(PROBATOR), Video, attributes);
    var placed := if failure == BuildSection then {} else {PROBATOR};
    AccountGains(r.handler.table, r.open, others, h.table, placed, r.open, others + placed);
  }

  lemma ConsumedAccounted(r: Receiver, others: set<string>, call: Call)
    requires Safe(r) && InAccount(r, others) && call.Consume? && Possible(r, call)
    ensures InAccount(Consumed(r, call), others + Unowned(r, call))
  {
    hide Received, Allowed, Safe, InAccount;
    AdmittedSafe(r, call.mid, call.kind, call.attributes, call.failure);
    AdmittedAccounted(r, others, call.mid, call.kind, call.attributes, call.failure);
    var (h, id) := Received(r.handler, call.mid, call.kind, call.attributes, call.failure);
    if id.Ok? && call.kind == Video && !r.probator {
      ReceivedEffect(r.handler, call.mid, call.kind, call.attributes, call.failure);
      ProbedAccounted(Receiver(h, r.probator, r.open + {id.value}), others, call.probatorAttributes,
                      call.probatorFailure);
    } else {
      assert id.Ok? ==> others + {} == others;
    }
  }

  lemma DataWasFree(h: Handler)
    requires HandlerInv(h) && Allowed(h.table, RecvSctpAssociation)
    ensures !InUse(h.table, DATA_CHANNEL.mid)
  {
    FreshIsNotInUse(h.table, RecvSctpAssociation);
  }

  lemma DataAccounted(r: Receiver, others: set<string>, failure: Failure)
    requires Safe(r) && InAccount(r, others) && Possible(r, ConsumeData(failure))
    ensures InAccount(Perform(r, ConsumeData(failure)), others + Unowned(r, ConsumeData(failure)))
  {
    hide ReceivedData, HandlerInv, Allowed, AllLive, Gains, Accounted, InUse;
    ReceivedDataGains(r.handler, failure);
    if PlacesData(r.handler, failure) {
      DataWasFree(r.handler);
    }
    AccountGains(r.handler.table, r.open, others, ReceivedData(r.handler, failure).0.table,
                 Unowned(r, ConsumeData(failure)), r.open, others + Unowned(r, ConsumeData(failure)));
  }

  lemma CloseAccounted(r: Receiver, others: set<string>, localId: string, failure: Failure)
    requires Safe(r) && InAccount(r, others) && localId in r.open
    ensures Stoppable(r, Close(localId, failure)) && InAccount(Perform(r, Close(localId, failure)), others)
  {
    hide StoppedReceiving, Inv, RolesAgree, Loses, Accounted, Live;
    StoppingLoses(r.handler, localId, failure);
    AccountLoses(r.handler.table, r.open, others, StoppedReceiving(r.handler, localId, failure).0.table, localId);
  }

  lemma RestartAccounted(r: Receiver, others: set<string>, ice: IceParameters, failure: Failure)
    requires InAccount(r, others)
    ensures InAccount(Perform(r, Call.RestartIce(ice, failure)), others)
  {
    hide RestartedIce, Gains, Accounted;
    RestartedIceGains(r.handler, ice, false, failure);
    AccountGains(r.handler.table, r.open, others, RestartedIce(r.handler, ice, false, failure).0.table, {}, r.open,
                 others);
  }

  lemma CallAccounted(r: Receiver, others: set<string>, call: Call)
    requires Safe(r) && InAccount(r, others) && Possible(r, call) && Stoppable(r, call)
    ensures InAccount(Perform(r, call), others + Unowned(r, call))
  {
    hide InAccount, Safe, Received, ReceivedData, StoppedReceiving, RestartedIce, Consumed;
    assert others + {} == others;
    match call
    case Consume(_, _, _, _, _, _) => ConsumedAccounted(r, others, call);
    case Close(localId, failure) => CloseAccounted(r, others, localId, failure);
    case ConsumeData(failure) => DataAccounted(r, others, failure);
    case RestartIce(ice, failure) => RestartAccounted(r, others, ice, failure);
  }

  ghost function OthersNext(others: set<string>, before: Option<Receiver>, call: Call): (mids: set<string>) {
    if before.Some? then others + Unowned(before.value, call) else others
  }

  // The MIDs of all sections the first n calls of a run placed for no consumer.
  ghost function Others(ice: IceParameters, role: Role, calls: seq<Call>, n: nat): (mids: set<string>)
    requires n <= |calls|
  {
    if n == 0 then {}
    else OthersNext(Others(ice, role, calls, n - 1), Run(ice, role, calls, n - 1), calls[n - 1])
  }

  ghost predicate AccountAfter(r: Option<Receiver>, others: set<string>) {
    r.Some? ==> InAccount(r.value, others)
  }

  lemma NextAccounted(before: Option<Receiver>, others: set<string>, call: Call)
    requires SafeAfter(before) && AccountAfter(before, others)
    ensures AccountAfter(Next(before, call), OthersNext(others, before, call))
  {
    hide Perform, InAccount, Safe, Possible, Stoppable, Unowned;
    if Next(before, call).Some? {
      CallAccounted(before.value, others, call);
    }
  }

  lemma NewInAccount(ice: IceParameters, role: Role)
    ensures InAccount(Receiver(NewHandler(ice, role), false, {}), {})
  {
  }

  // After every run the sections in use are exactly those of the open consumers and those placed for none:
  // a section left behind is never taken down, and a consumer's lasts until it is closed.
  lemma {:induction false} SectionsAccountedFor(ice: IceParameters, role: Role, calls: seq<Call>, n: nat)
    requires n <= |calls|
    ensures AccountAfter(Run(ice, role, calls, n), Others(ice, role, calls, n))
  {
    hide InAccount, Next, OthersNext;
    if n == 0 {
      NewInAccount(ice, role);
    } else {
      SectionsAccountedFor(ice, role, calls, n - 1);
      RunsAreSafe(ice, role, calls, n - 1);
      NextAccounted(Run(ice, role, calls, n - 1), Others(ice, role, calls, n - 1), calls[n - 1]);
    }
  }

  lemma UnownedIsFixed(r: Receiver, call: Call)
    requires call.Consume? ==> LeavesNothing(call.failure)
    ensures Unowned(r, call) <= FIXED_MIDS
  {
    hide Received;
    if call.Consume? {
      ReceivedEffect(r.handler, call.mid, call.kind, call.attributes, call.failure);
    }
  }

  lemma {:induction false} OthersAreFixed(ice: IceParameters, role: Role, calls: seq<Call>, n: nat)
    requires n <= |calls| && forall i :: 0 <= i < n && calls[i].Consume? ==> LeavesNothing(calls[i].failure)
    ensures Others(ice, role, calls, n) <= FIXED_MIDS
  {
    hide Unowned, Next;
    if n > 0 {
      OthersAreFixed(ice, role, calls, n - 1);
      var before := Run(ice, role, calls, n - 1);
      if before.Some? {
        UnownedIsFixed(before.value, calls[n - 1]);
      }
    }
  }

  // So in runs where no Consume fails with its section built, the live MIDs are exactly those of the open
  // consumers, but for the probator's and the data channel's.
  lemma LiveIffOpen(ice: IceParameters, role: Role, calls: seq<Call>, n: nat, mid: string)
    requires n <= |calls| && forall i :: 0 <= i < n && calls[i].Consume? ==> LeavesNothing(calls[i].failure)
    requires Run(ice, role, calls, n).Some? && mid !in FIXED_MIDS
    ensures Live(Run(ice, role, calls, n).value.handler, mid) <==> mid in Run(ice, role, calls, n).value.open
  {
    hide Run, Others, Live, HandlerInv;
    SectionsAccountedFor(ice, role, calls, n);
    OthersAreFixed(ice, role, calls, n);
    RunsAreSafe(ice, role, calls, n);
    LiveIsInUse(Run(ice, role, calls, n).value.handler, mid);
  }
}
