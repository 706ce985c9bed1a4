/** Runs of a sending transport: what Produce leaves behind, and whose every section is. */
module SendRuns {

  import opened Common
  import opened SdpTable
  import opened SdpRuns
  import opened HandlerSteps
  import opened SectionsInUse

  // How validation and the application's OnProduce end: with an id, a MediaSoupClientError (which
  // Produce answers by stopping the sender) or any other exception.
  datatype ListenerAnswer = Produced(id: string) | ClientError | OtherException

  // `open` holds the MIDs of the producers returned and not closed since.
  datatype Sender = Sender(handler: Handler, open: set<string>)

  datatype Call =
    | Produce(offer: Description, answer: ListenerAnswer, failure: Failure, stopFailure: Failure)
    | Close(localId: string, failure: Failure)
    | ProduceData(offer: Description, valid: bool, failure: Failure)
    | RestartIce(ice: IceParameters, failure: Failure)

  // Free MIDs, and closing a producer that is open.
  ghost predicate Possible(s: Sender, call: Call) {
    match call
    case Produce(offer, _, _, _) => Allowed(s.handler.table, Step.Send(offer))
    case Close(localId, _) => localId in s.open
    case ProduceData(offer, _, _) => !s.handler.hasData ==> Allowed(s.handler.table, SendSctpAssociation(offer))
    case RestartIce(_, _) => true
  }

  predicate CanStop(h: Handler, localId: string) {
    localId in h.transceivers ==> CanClose(h.table, h.transceivers[localId])
  }

  // Closing indexes a slot that exists; see RunContinues.
  predicate Stoppable(s: Sender, call: Call) {
    match call
    case Produce(offer, ClientError, failure, _) =>
      var (h, id) := Sent(s.handler, offer, failure); id.Ok? ==> CanStop(h, offer.mid)
    case Close(localId, _) => CanStop(s.handler, localId)
    case _ => true
  }

  // After Send has succeeded.
  function Concluded(s: Sender, localId: string, answer: ListenerAnswer, stopFailure: Failure): (s': Sender)
    requires answer.ClientError? ==> CanStop(s.handler, localId)
  {
    match answer
    case Produced(_) => s.(open := s.open + {localId})
    case ClientError => s.(handler := StoppedSending(s.handler, localId, stopFailure).0)
    case OtherException => s
  }

  function Perform(s: Sender, call: Call): (s': Sender)
    requires Stoppable(s, call)
  {
    match call
    case Produce(offer, answer, failure, stopFailure) =>
      var (h, id) := Sent(s.handler, offer, failure);
      if id.Throws? then s.(handler := h) else Concluded(s.(handler := h), offer.mid, answer, stopFailure)
    case Close(localId, failure) =>
      s.(handler := StoppedSending(s.handler, localId, failure).0, open := s.open - {localId})
    case ProduceData(offer, valid, failure) => s.(handler := SentData(s.handler, offer, valid, failure).0)
    case RestartIce(ice, failure) => s.(handler := RestartedIce(s.handler, ice, true, failure).0)
  }

  /* Every open producer has a live section. */

  ghost predicate Safe(s: Sender) {
    HandlerInv(s.handler) && AllLive(s.handler, s.open)
  }

  lemma SendLeavesOthers(h: Handler, offer: Description, others: set<string>, failure: Failure)
    requires HandlerInv(h) && Allowed(h.table, Step.Send(offer)) && AllLive(h, others)
    ensures var r := Sent(h, offer, failure);
      && HandlerInv(r.0) && AllLive(r.0, others)
      && (r.1.Ok? ==> r.1.value == offer.mid && Live(r.0, offer.mid) && offer.mid !in others)
  {
    hide Sent, Inv, RolesAgree, Live, Allowed;
    SentKeeps(h, offer, failure, "");
    forall other | other in others ensures Live(Sent(h, offer, failure).0, other) {
      SentKeeps(h, offer, failure, other);
    }
    FreshIsNotLive(h, Step.Send(offer));
  }

  lemma StopsOwnSection(h: Handler, localId: string, failure: Failure)
    requires HandlerInv(h) && Live(h, localId)
    ensures CanClose(h.table, localId) && CanStop(h, localId)
    ensures OwnSectionStopped(h.table, StoppedSending(h, localId, failure).0.table, localId)
  {
    hide RolesAgree, BundleUpTo, GoodMid;
    CloseTouchesOne(h.table, localId);
  }

  lemma StopSendingLeavesOthers(h: Handler, localId: string, others: set<string>, failure: Failure)
    requires HandlerInv(h) && Live(h, localId) && AllLive(h, others) && localId !in others
    ensures CanClose(h.table, localId) && CanStop(h, localId)
    ensures var h' := StoppedSending(h, localId, failure).0;
      HandlerInv(h') && OwnSectionStopped(h.table, h'.table, localId) && AllLive(h', others)
  {
    StopsOwnSection(h, localId, failure);
    hide StoppedSending, Inv, RolesAgree, OwnSectionStopped;
    StoppedSendingKeeps(h, localId, failure, "");
    forall other | other in others ensures Live(StoppedSending(h, localId, failure).0, other) {
      StoppedSendingKeeps(h, localId, failure, other);
    }
  }

  lemma ProduceSafe(s: Sender, call: Call)
    requires Safe(s) && call.Produce? && Possible(s, call)
    ensures Stoppable(s, call) && Safe(Perform(s, call))
  {
    hide Sent, StoppedSending, HandlerInv, Live, Allowed, OwnSectionStopped;
    SendLeavesOthers(s.handler, call.offer, s.open, call.failure);
    var (h, id) := Sent(s.handler, call.offer, call.failure);
    if id.Ok? {
      StopSendingLeavesOthers(h, call.offer.mid, s.open, call.stopFailure);
    }
  }

  lemma CloseSafe(s: Sender, localId: string, failure: Failure)
    requires Safe(s) && localId in s.open
    ensures Stoppable(s, Close(localId, failure)) && Safe(Perform(s, Close(localId, failure)))
  {
    hide StoppedSending, HandlerInv, OwnSectionStopped;
    StopSendingLeavesOthers(s.handler, localId, s.open - {localId}, failure);
  }

  lemma DataSafe(s: Sender, offer: Description, valid: bool, failure: Failure)
    requires Safe(s) && Possible(s, ProduceData(offer, valid, failure))
    ensures Safe(Perform(s, ProduceData(offer, valid, failure)))
  {
    hide SentData, HandlerInv, Live, Allowed;
    SentDataKeeps(s.handler, offer, valid, failure, "");
    forall mid | mid in s.open ensures Live(SentData(s.handler, offer, valid, failure).0, mid) {
      SentDataKeeps(s.handler, offer, valid, failure, mid);
    }
  }

  lemma RestartSafe(s: Sender, ice: IceParameters, failure: Failure)
    requires Safe(s)
    ensures Safe(Perform(s, Call.RestartIce(ice, failure)))
  {
    hide RestartedIce, HandlerInv, Live;
    RestartedIceKeeps(s.handler, ice, true, failure, "");
    forall mid | mid in s.open ensures Live(RestartedIce(s.handler, ice, true, failure).0, mid) {
      RestartedIceKeeps(s.handler, ice, true, failure, mid);
    }
  }

  lemma CallKeepsSafe(s: Sender, call: Call)
    requires Safe(s) && Possible(s, call)
    ensures Stoppable(s, call) && Safe(Perform(s, call))
  {
    hide Safe, Sent, StoppedSending, SentData, RestartedIce;
    match call
    case Produce(_, _, _, _) => ProduceSafe(s, call);
    case Close(localId, failure) => CloseSafe(s, localId, failure);
    case ProduceData(offer, valid, failure) => DataSafe(s, offer, valid, failure);
    case RestartIce(ice, failure) => RestartSafe(s, ice, failure);
  }

  /* Sections without a producer */

  // Produce throws and leaves its section in use: Send fails after placing it, or OnProduce ends with an
  // exception that is no MediaSoupClientError.
  predicate LeavesSection(h: Handler, answer: ListenerAnswer, failure: Failure) {
    failure == SetRemoteDescription || (PlacesAnswer(h, failure) && answer.OtherException?)
  }

  // The MIDs of the sections a call places for no producer.
  function Unowned(s: Sender, call: Call): (mids: set<string>) {
    match call
    case Produce(offer, answer, failure, _) => if LeavesSection(s.handler, answer, failure) then {offer.mid} else {}
    case ProduceData(offer, valid, failure) => if PlacesDataAnswer(s.handler, valid, failure) then {offer.mid} else {}
    case _ => {}
  }

  ghost predicate InAccount(s: Sender, others: set<string>) {
    Accounted(s.handler.table, s.open, others)
  }

  lemma SendWasFree(h: Handler, step: Step)
    requires HandlerInv(h) && Places(step) && Allowed(h.table, step)
    ensures !InUse(h.table, NewSection(h.table, step).Mid())
  {
    FreshIsNotInUse(h.table, step);
  }

  // A section placed and taken down again.
  lemma GainedAndLost(t: Table, t1: Table, t': Table, mid: string)
    requires Gains(t, t1, {mid}) && Loses(t1, t', mid) && !InUse(t, mid)
    ensures Gains(t, t', {})
  {
  }

  lemma ProduceAccounted(s: Sender, others: set<string>, call: Call)
    requires Safe(s) && InAccount(s, others) && call.Produce? && Possible(s, call) && Stoppable(s, call)
    ensures InAccount(Perform(s, call), others + Unowned(s, call))
  {
    hide Sent, StoppedSending, HandlerInv, AllLive, Live, Allowed, Gains, Loses, Accounted, InUse;
    SentGains(s.handler, call.offer, call.failure);
    SendWasFree(s.handler, Step.Send(call.offer));
    SendLeavesOthers(s.handler, call.offer, s.open, call.failure);
    var (h, id) := Sent(s.handler, call.offer, call.failure);
    var placed := if PlacesAnswer(s.handler, call.failure) then {call.offer.mid} else {};
    var s' := Perform(s, call);
    if id.Ok? && call.answer.ClientError? {
      StoppingLoses(h, call.offer.mid, call.stopFailure);
      GainedAndLost(s.handler.table, h.table, s'.handler.table, call.offer.mid);
      AccountGains(s.handler.table, s.open, others, s'.handler.table, {}, s'.open, others + Unowned(s, call));
    } else {
      AccountGains(s.handler.table, s.open, others, s'.handler.table, placed, s'.open, others + Unowned(s, call));
    }
  }

  lemma DataAccounted(s: Sender, others: set<string>, call: Call)
    requires Safe(s) && InAccount(s, others) && call.ProduceData? && Possible(s, call)
    ensures InAccount(Perform(s, call), others + Unowned(s, call))
  {
    hide SentData, HandlerInv, AllLive, Allowed, Gains, Accounted, InUse;
    SentDataGains(s.handler, call.offer, call.valid, call.failure);
    if PlacesDataAnswer(s.handler, call.valid, call.failure) {
      SendWasFree(s.handler, SendSctpAssociation(call.offer));
    }
    AccountGains(s.handler.table, s.open, others, Perform(s, call).handler.table, Unowned(s, call), s.open,
                 others + Unowned(s, call));
  }

  lemma CloseAccounted(s: Sender, others: set<string>, localId: string, failure: Failure)
    requires Safe(s) && InAccount(s, others) && localId in s.open && Stoppable(s, Close(localId, failure))
    ensures InAccount(Perform(s, Close(localId, failure)), others)
  {
    hide StoppedSending, Inv, RolesAgree, Loses, Accounted, Live;
    StoppingLoses(s.handler, localId, failure);
    AccountLoses(s.handler.table, s.open, others, StoppedSending(s.handler, localId, failure).0.table, localId);
  }

  lemma RestartAccounted(s: Sender, others: set<string>, ice: IceParameters, failure: Failure)
    requires InAccount(s, others)
    ensures InAccount(Perform(s, Call.RestartIce(ice, failure)), others)
  {
    hide RestartedIce, Gains, Accounted;
    RestartedIceGains(s.handler, ice, true, failure);
    AccountGains(s.handler.table, s.open, others, RestartedIce(s.handler, ice, true, failure).0.table, {}, s.open,
                 others);
  }

  lemma CallAccounted(s: Sender, others: set<string>, call: Call)
    requires Safe(s) && InAccount(s, others) && Possible(s, call) && Stoppable(s, call)
    ensures InAccount(Perform(s, call), others + Unowned(s, call))
  {
    hide InAccount, Safe, Sent, StoppedSending, SentData, RestartedIce;
    assert others + {} == others;
    match call
    case Produce(_, _, _, _) => ProduceAccounted(s, others, call);
    case Close(localId, failure) => CloseAccounted(s, others, localId, failure);
    case ProduceData(_, _, _) => DataAccounted(s, others, call);
    case RestartIce(ice, failure) => RestartAccounted(s, others, ice, failure);
  }

  lemma SentStores(h: Handler, offer: Description, failure: Failure)
    ensures var (h', id) := Sent(h, offer, failure);
      h'.transceivers == if id.Ok? then h.transceivers[offer.mid := offer.mid] else h.transceivers
  {
    hide Apply, UpdateRole, NextVersion;
  }

  // However Produce ends, its MID is in use without a producer exactly if it leaves its section; and if the
  // MID was never stored before, it is then live exactly if Send succeeded, which makes it a sender that
  // nobody can stop.
  lemma SectionLeftBehind(s: Sender, call: Call)
    requires Safe(s) && call.Produce? && Possible(s, call)
    ensures Stoppable(s, call) && call.offer.mid !in s.open
    ensures var s', mid, sent := Perform(s, call), call.offer.mid, Sent(s.handler, call.offer, call.failure).1.Ok?;
      && (InUse(s'.handler.table, mid) && mid !in s'.open <==> LeavesSection(s.handler, call.answer, call.failure))
      && (mid !in s.handler.transceivers ==>
            (Live(s'.handler, mid) && mid !in s'.open <==> sent && call.answer.OtherException?))
  {
    hide Sent, StoppedSending, HandlerInv, Live, Allowed, InUse;
    var mid := call.offer.mid;
    ProduceSafe(s, call);
    SentGains(s.handler, call.offer, call.failure);
    SentStores(s.handler, call.offer, call.failure);
    SendWasFree(s.handler, Step.Send(call.offer));
    SendLeavesOthers(s.handler, call.offer, s.open, call.failure);
    var (h, id) := Sent(s.handler, call.offer, call.failure);
    if id.Ok? {
      StoppingLoses(h, mid, call.stopFailure);
    }
    LiveIsInUse(s.handler, mid);
    LiveIsInUse(Perform(s, call).handler, mid);
  }

  /* Runs */

  ghost function Next(before: Option<Sender>, call: Call): (s: Option<Sender>) {
    if before.Some? && Possible(before.value, call) && Stoppable(before.value, call) then
      Some(Perform(before.value, call))
    else None
  }

  // The state after the first n calls; None if one of them was not possible.
  ghost function Run(ice: IceParameters, role: Role, calls: seq<Call>, n: nat): (s: Option<Sender>)
    requires n <= |calls|
  {
    if n == 0 then Some(Sender(NewHandler(ice, role), {})) else Next(Run(ice, role, calls, n - 1), calls[n - 1])
  }

  ghost function OthersNext(others: set<string>, before: Option<Sender>, call: Call): (mids: set<string>) {
    if before.Some? then others + Unowned(before.value, call) else others
  }

  // The MIDs of all sections the first n calls of a run placed for no producer.
  ghost function Others(ice: IceParameters, role: Role, calls: seq<Call>, n: nat): (mids: set<string>)
    requires n <= |calls|
  {
    if n == 0 then {}
    else OthersNext(Others(ice, role, calls, n - 1), Run(ice, role, calls, n - 1), calls[n - 1])
  }

  ghost predicate After(s: Option<Sender>, others: set<string>) {
    s.Some? ==> Safe(s.value) && InAccount(s.value, others)
  }

  lemma NextAccounted(before: Option<Sender>, others: set<string>, call: Call)
    requires After(before, others)
    ensures After(Next(before, call), OthersNext(others, before, call))
  {
    hide Perform, InAccount, Safe, Possible, Stoppable, Unowned;
    if Next(before, call).Some? {
      CallKeepsSafe(before.value, call);
      CallAccounted(before.value, others, call);
    }
  }

  lemma NewSender(ice: IceParameters, role: Role)
    ensures After(Some(Sender(NewHandler(ice, role), {})), {})
  {
    NewHandlerInv(ice, role);
  }

  // After every run, whatever fails in it, every open producer has a live section, and the sections in use
  // are exactly those of the open producers and those placed for none.
  lemma {:induction false} SectionsAccountedFor(ice: IceParameters, role: Role, calls: seq<Call>, n: nat)
    requires n <= |calls|
    ensures After(Run(ice, role, calls, n), Others(ice, role, calls, n))
  {
    hide After, Next, OthersNext;
    if n == 0 {
      NewSender(ice, role);
    } else {
      SectionsAccountedFor(ice, role, calls, n - 1);
      NextAccounted(Run(ice, role, calls, n - 1), Others(ice, role, calls, n - 1), calls[n - 1]);
    }
  }

  // Free MIDs and closing only open producers are all that callers owe.
  lemma RunContinues(ice: IceParameters, role: Role, calls: seq<Call>, n: nat)
    requires n < |calls| && Run(ice, role, calls, n).Some? && Possible(Run(ice, role, calls, n).value, calls[n])
    ensures Run(ice, role, calls, n + 1).Some?
  {
    hide Safe, InAccount, Possible, Stoppable;
    SectionsAccountedFor(ice, role, calls, n);
    CallKeepsSafe(Run(ice, role, calls, n).value, calls[n]);
  }

  // After every run, closing an open producer stops its own section and no other.
  lemma CloseHitsOwnSection(ice: IceParameters, role: Role, calls: seq<Call>, n: nat, localId: string, failure: Failure)
    requires n <= |calls| && Run(ice, role, calls, n).Some? && localId in Run(ice, role, calls, n).value.open
    ensures var s, close := Run(ice, role, calls, n).value, Close(localId, failure);
      && Stoppable(s, close)
      && OwnSectionStopped(s.handler.table, Perform(s, close).handler.table, localId)
      && AllLive(Perform(s, close).handler, s.open - {localId})
  {
    hide Run, Others, HandlerInv, InAccount, OwnSectionStopped, StoppedSending;
    SectionsAccountedFor(ice, role, calls, n);
    var s := Run(ice, role, calls, n).value;
    StopSendingLeavesOthers(s.handler, localId, s.open - {localId}, failure);
  }

  // A call that leaves no section with this MID behind.
  predicate Owns(call: Call, mid: string) {
    match call
    case Produce(offer, answer, failure, _) =>
      offer.mid == mid ==> failure != SetRemoteDescription && !answer.OtherException?
    case ProduceData(offer, _, _) => offer.mid != mid
    case _ => true
  }

  lemma {:induction false} NotAmongOthers(ice: IceParameters, role: Role, calls: seq<Call>, n: nat, mid: string)
    requires n <= |calls| && forall i :: 0 <= i < n ==> Owns(calls[i], mid)
    ensures mid !in Others(ice, role, calls, n)
  {
    hide Next, PlacesAnswer, PlacesDataAnswer;
    if n > 0 {
      NotAmongOthers(ice, role, calls, n - 1, mid);
      assert Owns(calls[n - 1], mid);
    }
  }

  // So in such runs the MID is live exactly while it is that of an open producer.
  lemma LiveIffOpen(ice: IceParameters, role: Role, calls: seq<Call>, n: nat, mid: string)
    requires n <= |calls| && Run(ice, role, calls, n).Some? && forall i :: 0 <= i < n ==> Owns(calls[i], mid)
    ensures Live(Run(ice, role, calls, n).value.handler, mid) <==> mid in Run(ice, role, calls, n).value.open
  {
    hide Run, Others, Live, HandlerInv, Owns;
    SectionsAccountedFor(ice, role, calls, n);
    NotAmongOthers(ice, role, calls, n, mid);
    LiveIsInUse(Run(ice, role, calls, n).value.handler, mid);
  }
}
