/** Transports and their producers and consumers: who is closed, who is told, whose section goes.

SendTransport with Producer and RecvTransport with Consumer have the same life cycle; one class
with a direction stands for both. Listener callbacks are counted and do not call back.
*/
module Transports {

  import opened Common
  import opened SdpTable
  import opened SdpRuns
  import opened HandlerSteps
  import opened RecvRuns
  import opened Handlers
  import opened SectionsInUse
  import SendRuns

  // A Producer or a Consumer.
  class Endpoint {
    const id: string
    const localId: string
    var closed: bool
    // Calls of privateListener->OnClose and of listener->OnTransportClose.
    ghost var privateCloses: nat
    ghost var transportCloses: nat

    // Told exactly once, in one of the two ways, when closed, and not at all before.
    ghost predicate Told()
      reads this
    {
      privateCloses + transportCloses == if closed then 1 else 0
    }

    constructor (id: string, localId: string)
      ensures this.id == id && this.localId == localId
      ensures !closed && Told()
    {
      this.id, this.localId, closed := id, localId, false;
      privateCloses, transportCloses := 0, 0;
    }

    method TransportClosed()
      requires Told()
      modifies this
      ensures closed && Told() && privateCloses == old(privateCloses)
    {
      if closed {
        return;
      }
      closed := true;
      transportCloses := transportCloses + 1;
    }
  }

  class Transport {
    const sending: bool
    const handler: PeerHandler
    var closed: bool
    var endpoints: map<string, Endpoint>
    var probatorConsumerCreated: bool
    // Every producer or consumer ever made.
    ghost var created: set<Endpoint>

    // The map against the endpoints ever made: while the transport is open, the map holds
    // exactly the open ones; once it is closed, all are closed. Open ones share no MID.
    ghost predicate Registered()
      reads `closed, `endpoints, `created, created
    {
      match closed
      case true =>
        && (forall e :: e in created ==> e.Told() && e.closed)
        && (forall id :: id in endpoints ==> endpoints[id] in created && endpoints[id].id == id)
      case false =>
        && (forall e :: e in created ==> e.Told() && (!e.closed <==> e.id in endpoints && endpoints[e.id] == e))
        && (forall id :: id in endpoints ==> endpoints[id] in created && endpoints[id].id == id)
        && (forall e, f :: e in created && f in created && e != f && !e.closed && !f.closed ==> e.localId != f.localId)
    }

    ghost function OpenIds(): (ids: set<string>)
      reads `created, created
    {
      set e | e in created && !e.closed :: e.localId
    }

    // Besides, every open endpoint has a live section.
    ghost predicate Valid()
      reads this, created, handler
    {
      Registered() && Safe(AsReceiver())
    }

    // What a receiving transport is in a run of calls.
    ghost function AsReceiver(): (r: Receiver)
      reads `probatorConsumerCreated, `created, created, handler
    {
      Receiver(handler.View(), probatorConsumerCreated, OpenIds())
    }

    // What a sending transport is in a run of calls.
    ghost function AsSender(): (s: SendRuns.Sender)
      reads `created, created, handler
    {
      SendRuns.Sender(handler.View(), OpenIds())
    }

    constructor (sending: bool, ice: IceParameters, declaredRole: Role)
      ensures Valid() && !closed && created == {} && this.sending == sending
      ensures AsReceiver() == Receiver(NewHandler(ice, declaredRole), false, {})
    {
      this.sending := sending;
      handler := new PeerHandler(ice, declaredRole);
      closed, endpoints, probatorConsumerCreated, created := false, map[], false, {};
    }

    // Closing the transport closes every endpoint ever made; those still open are told through
    // OnTransportClose, the others hear nothing more.
    method Close()
      requires Valid()
      modifies this, created
      ensures Valid() && closed && created == old(created)
      ensures forall e :: e in created ==> e.closed && e.privateCloses == old(e.privateCloses)
    {
      if !closed {
        CloseAll();
      }
    }

    method CloseAll()
      requires Registered() && !closed
      modifies this, created
      ensures Registered() && closed && created == old(created)
      ensures forall e :: e in created ==> e.closed && e.privateCloses == old(e.privateCloses)
    {
      closed := true;
      var left := endpoints.Keys;
      while left != {}
        invariant closed && created == old(created) && endpoints == old(endpoints) && left <= endpoints.Keys
        invariant forall e :: e in created ==> e.Told() && e.privateCloses == old(e.privateCloses)
        invariant forall e :: e in created && !e.closed ==> e.id in left && endpoints[e.id] == e
        decreases left
      {
        var id :| id in left;
        endpoints[id].TransportClosed();
        left := left - {id};
      }
    }

    // Close of a Producer or Consumer with the OnClose of its transport: it leaves the map, and its
    // own section, and no other, is disabled or closed.
    method CloseEndpoint(e: Endpoint, failure: Failure) returns (r: Result<()>)
      requires Valid() && e in created
      modifies this, e, handler
      ensures Valid() && e.closed && created == old(created) && closed == old(closed)
      ensures old(e.closed) ==>
        r.Ok? && e.privateCloses == old(e.privateCloses) && handler.View() == old(handler.View())
      ensures !old(e.closed) ==>
        && e.privateCloses == old(e.privateCloses) + 1
        && OwnSectionStopped(old(handler.View()).table, handler.View().table, e.localId)
        && FollowsClose(old(AsReceiver()), AsReceiver(), sending, e.localId, failure)
    {
      hide StoppedSending, StoppedReceiving, HandlerInv;
      if e.closed {
        return Ok(());
      }
      ghost var before := AsReceiver();
      Unregister(e);
      ghost var others := OpenIds();
      r := StopSection(e.localId, failure);
      assert OpenIds() == others;
      CloseIsSafe(before, AsReceiver(), sending, e.localId, failure);
    }

    method StopSection(localId: string, failure: Failure) returns (r: Result<()>)
      requires handler.Valid() && Live(handler.View(), localId)
      modifies handler
      ensures Stops(old(handler.View()), handler.View(), sending, localId, failure)
    {
      if sending {
        r := handler.StopSending(localId, failure);
      } else {
        r := handler.StopReceiving(localId, failure);
      }
    }

    // A new endpoint takes its place in the map. That keeps the books exactly when its id is not
    // there yet: otherwise an open endpoint is pushed out of the map.
    method Register(id: string, localId: string) returns (e: Endpoint)
      requires Registered() && !closed && localId !in OpenIds()
      modifies `endpoints, `created
      ensures fresh(e) && e.id == id && e.localId == localId && !e.closed
      ensures created == old(created) + {e} && OpenIds() == old(OpenIds()) + {localId}
      ensures Registered() <==> id !in old(endpoints)
      ensures handler.View() == old(handler.View())
    {
      e := new Endpoint(id, localId);
      endpoints := endpoints[id := e];
      created := created + {e};
      assert OpenIds() == old(OpenIds()) + {localId};
      if id in old(endpoints) {
        var pushedOut := old(endpoints)[id];
        assert pushedOut in created && !pushedOut.closed && endpoints[pushedOut.id] != pushedOut;
      }
    }

    // RecvTransport::Consume. `canReceive` is the answer of the capability check; `escapes` says that an
    // exception about the probator is not caught, being no std::runtime_error. It leaves the consumer made,
    // open and in the map, but not returned.
    method Consume(id: string, producerId: string, kind: Kind, mid: Option<string>, attributes: Attributes,
                   canReceive: bool, probatorAttributes: Attributes, failure: Failure, probatorFailure: Failure,
                   escapes: bool)
      returns (r: Result<Endpoint>, ghost made: Option<Endpoint>)
      requires Valid()
      requires Accepts(id, producerId, kind, canReceive) ==> CanConsume(mid, kind, attributes)
      modifies this, handler
      ensures closed == old(closed)
      ensures made.Some? ==>
        && fresh(made.value) && made.value.id == id && !made.value.closed && created == old(created) + {made.value}
        && (Valid() <==> id !in old(endpoints))
      ensures made.None? ==> created == old(created) && Valid()
      ensures if made.Some? && !(escapes && kind == Video && !probatorConsumerCreated) then r == Ok(made.value)
              else r == Throws
      ensures made.Some? <==>
        old(Accepts(id, producerId, kind, canReceive)) && Admits(old(handler.View()), mid, kind, attributes, failure)
      ensures if old(Accepts(id, producerId, kind, canReceive)) then
                FollowsConsume(old(AsReceiver()), AsReceiver(), mid, kind, attributes, failure, probatorAttributes,
                               probatorFailure)
              else AsReceiver() == old(AsReceiver())
    {
      hide Received, HandlerInv;
      if !Accepts(id, producerId, kind, canReceive) {
        r, made := Throws, None;
        return;
      }
      ConsumeIsSafe(AsReceiver(), mid, kind, attributes, failure, probatorAttributes, probatorFailure);
      r, made := ConsumeAccepted(id, kind, mid, attributes, probatorAttributes, failure, probatorFailure, escapes);
    }

    method ConsumeAccepted(id: string, kind: Kind, mid: Option<string>, attributes: Attributes,
                           probatorAttributes: Attributes,
                           failure: Failure, probatorFailure: Failure, escapes: bool)
      returns (r: Result<Endpoint>, ghost made: Option<Endpoint>)
      requires handler.Valid() && Registered() && !closed
      requires NewId(AsReceiver(), mid, kind, attributes, failure)
      requires HandlerInv(Received(handler.View(), mid, kind, attributes, failure).0)
      modifies `endpoints, `created, `probatorConsumerCreated, handler
      ensures made.Some? ==>
        && fresh(made.value) && made.value.id == id && !made.value.closed && created == old(created) + {made.value}
        && (Registered() <==> id !in old(endpoints))
      ensures made.None? ==> created == old(created) && Registered()
      ensures if made.Some? && !(escapes && kind == Video && !probatorConsumerCreated) then r == Ok(made.value)
              else r == Throws
      ensures made.Some? <==> Admits(old(handler.View()), mid, kind, attributes, failure)
      ensures FollowsConsume(old(AsReceiver()), AsReceiver(), mid, kind, attributes, failure, probatorAttributes,
                             probatorFailure)
    {
      hide Received, HandlerInv, Admits;
      ghost var before := AsReceiver();
      r := ConsumeNew(id, kind, mid, attributes, failure);
      made := if r.Ok? then Some(r.value) else None;
      ghost var admitted, ok := AsReceiver(), r.Ok?;
      if r.Ok? && !probatorConsumerCreated && kind == Video {
        var probator := AddProbator(probatorAttributes, probatorFailure);
        if probator.Throws? && escapes {
          r := Throws;
        }
      }
      ConsumeFollows(before, admitted, AsReceiver(), mid, kind, attributes, failure, probatorAttributes,
                     probatorFailure, ok);
    }

    // The consumer itself.
    method ConsumeNew(id: string, kind: Kind, mid: Option<string>, attributes: Attributes, failure: Failure)
      returns (r: Result<Endpoint>)
      requires handler.Valid() && Registered() && !closed
      requires NewId(AsReceiver(), mid, kind, attributes, failure)
      modifies `endpoints, `created, handler
      ensures r.Ok? ==> fresh(r.value) && r.value.id == id && !r.value.closed && created == old(created) + {r.value}
      ensures r.Throws? ==> created == old(created) && Registered()
      ensures r.Ok? ==> (Registered() <==> id !in old(endpoints))
      ensures FollowsAdmit(old(AsReceiver()), AsReceiver(), mid, kind, attributes, failure, r.Ok?)
      ensures r.Ok? <==> Admits(old(handler.View()), mid, kind, attributes, failure)
    {
      hide Received, HandlerInv, Admits;
      ghost var before := AsReceiver();
      var localId := handler.Receive(mid, kind, attributes, failure);
      assert OpenIds() == before.open;
      if localId.Ok? {
        var e := Register(id, localId.value);
        r := Ok(e);
      } else {
        r := Throws;
      }
      AdmitFollows(before, AsReceiver(), mid, kind, attributes, failure, localId);
    }

    // The consumer for RTP probation.
    method AddProbator(attributes: Attributes, failure: Failure) returns (r: Result<()>)
      requires handler.Valid() && !probatorConsumerCreated
      modifies `probatorConsumerCreated, handler
      ensures r.Ok? <==> probatorConsumerCreated
      ensures FollowsProbe(old(AsReceiver()), AsReceiver(), attributes, failure)
      ensures Registered() == old(Registered())
    {
      hide Received, HandlerInv;
      ghost var before := AsReceiver();
      var probator := handler.Receive(Some(PROBATOR), Video, attributes, failure);
      assert OpenIds() == before.open;
      if probator.Ok? {
        probatorConsumerCreated := true;
        r := Ok(());
      } else {
        r := Throws;
      }
      ProbeFollows(before, AsReceiver(), attributes, failure, probator);
    }

    // SendTransport::Produce. `offer` is the local media description with the MID libwebrtc chose.
    method Produce(trackUsable: bool, offer: Description, answer: SendRuns.ListenerAnswer, failure: Failure,
                   stopFailure: Failure)
      returns (r: Result<Endpoint>)
      requires Valid()
      requires !closed && trackUsable ==> Allowed(handler.remoteSdp, Step.Send(offer))
      modifies this, handler
      ensures closed == old(closed)
      ensures r.Ok? ==>
        && fresh(r.value) && answer == SendRuns.Produced(r.value.id) && !r.value.closed
        && created == old(created) + {r.value} && (Valid() <==> r.value.id !in old(endpoints))
      ensures r.Throws? ==> created == old(created) && Valid()
      ensures if old(!closed) && trackUsable then
                && FollowsProduce(old(AsSender()), AsSender(), offer, answer, failure, stopFailure, r.Ok?)
                && (r.Throws? ==> (InUse(handler.remoteSdp, offer.mid)
                                   <==> SendRuns.LeavesSection(old(handler.View()), answer, failure)))
              else r.Throws? && AsSender() == old(AsSender())
    {
      hide Sent, HandlerInv, Allowed, InUse, SendRuns.Perform, SendRuns.LeavesSection;
      if closed || !trackUsable {
        return Throws;
      }
      ghost var before := AsSender();
      SendRuns.SectionLeftBehind(before, SendRuns.Produce(offer, answer, failure, stopFailure));
      SendRuns.SendLeavesOthers(before.handler, offer, before.open, failure);
      var localId := handler.Send(offer, failure);
      assert OpenIds() == before.open;
      ghost var sent := AsSender();
      if localId.Throws? {
        r := Throws;
      } else {
        r := Conclude(localId.value, answer, stopFailure);
      }
      ProduceFollows(before, sent, AsSender(), offer, answer, failure, stopFailure, localId, r.Ok?);
    }

    // What the listener answered.
    method Conclude(localId: string, answer: SendRuns.ListenerAnswer, stopFailure: Failure)
      returns (r: Result<Endpoint>)
      requires Registered() && Safe(AsReceiver()) && !closed
      requires Live(handler.View(), localId) && localId !in OpenIds()
      modifies `endpoints, `created, handler
      ensures r.Ok? ==>
        && fresh(r.value) && answer == SendRuns.Produced(r.value.id) && !r.value.closed
        && created == old(created) + {r.value} && (Registered() <==> r.value.id !in old(endpoints))
      ensures r.Throws? ==> created == old(created) && Registered()
      ensures Safe(AsReceiver())
      ensures FollowsAnswer(old(AsSender()), AsSender(), localId, answer, stopFailure, r.Ok?)
    {
      hide StoppedSending, HandlerInv, OwnSectionStopped;
      ghost var others := OpenIds();
      match answer {
        case ClientError =>
          SendRuns.StopSendingLeavesOthers(handler.View(), localId, others, stopFailure);
          var stopped := handler.StopSending(localId, stopFailure);
          assert OpenIds() == others;
          r := Throws;
        case OtherException =>
          r := Throws;
        case Produced(id) =>
          assert AllLive(handler.View(), others + {localId});
          var e := Register(id, localId);
          r := Ok(e);
      }
    }

    predicate Accepts(id: string, producerId: string, kind: Kind, canReceive: bool)
      reads this
    {
      !closed && id != "" && producerId != "" && (kind == Audio || kind == Video) && canReceive
    }

    // The MIDs about to be used are fresh.
    ghost predicate CanConsume(mid: Option<string>, kind: Kind, attributes: Attributes)
      reads this, handler
    {
      FreeMids(handler.View(), probatorConsumerCreated, mid, kind, attributes)
    }

    // The flag, the callback and the map.
    method Unregister(e: Endpoint)
      requires Registered() && e in created && !e.closed
      modifies `endpoints, e
      ensures Registered() && e.closed && e.privateCloses == old(e.privateCloses) + 1
      ensures OpenIds() == old(OpenIds()) - {e.localId} && e.localId in old(OpenIds())
      ensures handler.View() == old(handler.View())
    {
      e.closed := true;
      e.privateCloses := e.privateCloses + 1;
      endpoints := endpoints - {e.id};
    }
  }

  // Each ending of OnProduce does to a sending transport what it does in the runs of SendRuns, ...
  ghost predicate FollowsAnswer(s: SendRuns.Sender, s': SendRuns.Sender, localId: string,
                                answer: SendRuns.ListenerAnswer, stopFailure: Failure, ok: bool) {
    && (answer.ClientError? ==> SendRuns.CanStop(s.handler, localId))
    && s' == SendRuns.Concluded(s, localId, answer, stopFailure)
    && ok == answer.Produced?
  }

  // ... and so does Produce.
  ghost predicate FollowsProduce(s: SendRuns.Sender, s': SendRuns.Sender, offer: Description,
                                 answer: SendRuns.ListenerAnswer, failure: Failure, stopFailure: Failure, ok: bool) {
    var call := SendRuns.Produce(offer, answer, failure, stopFailure);
    && SendRuns.Stoppable(s, call) && s' == SendRuns.Perform(s, call)
    && ok == (Sent(s.handler, offer, failure).1.Ok? && answer.Produced?)
  }

  lemma ProduceFollows(s: SendRuns.Sender, sent: SendRuns.Sender, s': SendRuns.Sender, offer: Description,
                       answer: SendRuns.ListenerAnswer, failure: Failure, stopFailure: Failure, id: Result<string>,
                       ok: bool)
    requires SendRuns.Stoppable(s, SendRuns.Produce(offer, answer, failure, stopFailure))
    requires (sent.handler, id) == Sent(s.handler, offer, failure) && sent.open == s.open
    requires id.Ok? ==> id.value == offer.mid
    requires if id.Ok? then FollowsAnswer(sent, s', id.value, answer, stopFailure, ok) else s' == sent && !ok
    ensures FollowsProduce(s, s', offer, answer, failure, stopFailure, ok)
  {
    hide Sent, StoppedSending;
  }

  function Stopped(h: Handler, localId: string, sending: bool, failure: Failure): (h': Handler)
    requires localId in h.transceivers ==> CanClose(h.table, h.transceivers[localId])
  {
    if sending then StoppedSending(h, localId, failure).0 else StoppedReceiving(h, localId, failure).0
  }

  // What stopping does to the handler.
  ghost predicate Stops(h: Handler, h': Handler, sending: bool, localId: string, failure: Failure) {
    && (localId in h.transceivers ==> CanClose(h.table, h.transceivers[localId]))
    && h' == Stopped(h, localId, sending, failure)
  }

  /* Each call does to a receiving transport what it does in the runs of RecvRuns. */

  ghost predicate Receives(h: Handler, h': Handler, mid: Option<string>, kind: Kind, attributes: Attributes,
                           failure: Failure, id: Result<string>) {
    (h', id) == Received(h, mid, kind, attributes, failure)
  }

  // Receive succeeds.
  predicate Admits(h: Handler, mid: Option<string>, kind: Kind, attributes: Attributes, failure: Failure) {
    Received(h, mid, kind, attributes, failure).1.Ok?
  }

  ghost predicate FollowsAdmit(r: Receiver, r': Receiver, mid: Option<string>, kind: Kind, attributes: Attributes,
                               failure: Failure, ok: bool) {
    var (h', id) := Received(r.handler, mid, kind, attributes, failure);
    id.Ok? == ok && r' == Receiver(h', r.probator, if id.Ok? then r.open + {id.value} else r.open)
  }

  lemma AdmitFollows(r: Receiver, r': Receiver, mid: Option<string>, kind: Kind, attributes: Attributes,
                     failure: Failure, id: Result<string>)
    requires Receives(r.handler, r'.handler, mid, kind, attributes, failure, id)
    requires r'.probator == r.probator && r'.open == if id.Ok? then r.open + {id.value} else r.open
    ensures FollowsAdmit(r, r', mid, kind, attributes, failure, id.Ok?)
    ensures id.Ok? <==> Admits(r.handler, mid, kind, attributes, failure)
  {
  }

  // A consumer gets a MID no open one has.
  ghost predicate NewId(r: Receiver, mid: Option<string>, kind: Kind, attributes: Attributes, failure: Failure) {
    var id := Received(r.handler, mid, kind, attributes, failure).1;
    id.Ok? ==> id.value !in r.open
  }

  // With free MIDs every state along the way and the one at the end are in order.
  lemma ConsumeIsSafe(r: Receiver, mid: Option<string>, kind: Kind, attributes: Attributes,
                      failure: Failure, probatorAttributes: Attributes, probatorFailure: Failure)
    requires Safe(r) && FreeMids(r.handler, r.probator, mid, kind, attributes)
    ensures NewId(r, mid, kind, attributes, failure)
    ensures HandlerInv(Received(r.handler, mid, kind, attributes, failure).0)
    ensures Safe(Consumed(r, RecvRuns.Consume(mid, kind, attributes, failure, probatorAttributes, probatorFailure)))
  {
    ReceiveLeavesOthers(r.handler, mid, kind, attributes, r.open, failure);
    ConsumedSafe(r, RecvRuns.Consume(mid, kind, attributes, failure, probatorAttributes, probatorFailure));
  }

  lemma ProbeFollows(r: Receiver, r': Receiver, attributes: Attributes, failure: Failure, id: Result<string>)
    requires Receives(r.handler, r'.handler, Some(PROBATOR), Video, attributes, failure, id)
    requires r'.probator == (r.probator || id.Ok?) && r'.open == r.open
    ensures FollowsProbe(r, r', attributes, failure)
  {
  }

  ghost predicate FollowsProbe(r: Receiver, r': Receiver, attributes: Attributes, failure: Failure) {
    r' == Probed(r, attributes, failure)
  }

  ghost predicate FollowsConsume(r: Receiver, r': Receiver, mid: Option<string>, kind: Kind, attributes: Attributes,
                                 failure: Failure, probatorAttributes: Attributes, probatorFailure: Failure) {
    r' == Consumed(r, RecvRuns.Consume(mid, kind, attributes, failure, probatorAttributes, probatorFailure))
  }

  lemma ConsumeFollows(r: Receiver, admitted: Receiver, r': Receiver, mid: Option<string>, kind: Kind,
                       attributes: Attributes,
                       failure: Failure, probatorAttributes: Attributes, probatorFailure: Failure, ok: bool)
    requires FollowsAdmit(r, admitted, mid, kind, attributes, failure, ok)
    requires if ok && kind == Video && !r.probator then FollowsProbe(admitted, r', probatorAttributes, probatorFailure)
             else r' == admitted
    ensures FollowsConsume(r, r', mid, kind, attributes, failure, probatorAttributes, probatorFailure)
  {
  }

  ghost predicate FollowsClose(r: Receiver, r': Receiver, sending: bool, localId: string, failure: Failure) {
    Stops(r.handler, r'.handler, sending, localId, failure) &&
    r' == Receiver(r'.handler, r.probator, r.open - {localId})
  }

  lemma CloseIsSafe(r: Receiver, r': Receiver, sending: bool, localId: string, failure: Failure)
    requires Safe(r) && localId in r.open && FollowsClose(r, r', sending, localId, failure)
    ensures Safe(r') && OwnSectionStopped(r.handler.table, r'.handler.table, localId)
  {
    StopLeavesOthers(r.handler, localId, r.open - {localId}, sending, failure);
  }

  // A transport that has only consumed without MIDs and without failures owes nothing when it does so
  // again: the MIDs about to be used are free.
  lemma NothingOwedWithoutMids(t: Transport, kind: Kind, attributes: Attributes)
    requires t.handler.Valid() && OnlyGenerated(t.handler.View(), t.probatorConsumerCreated)
    ensures t.CanConsume(None, kind, attributes)
  {
    GeneratedMidsAreFree(t.handler.View(), t.probatorConsumerCreated, kind, attributes);
  }

  lemma StopLeavesOthers(h: Handler, localId: string, others: set<string>, sending: bool, failure: Failure)
    requires HandlerInv(h) && Live(h, localId) && AllLive(h, others) && localId !in others
    ensures CanClose(h.table, localId)
    ensures var h' := Stopped(h, localId, sending, failure);
      HandlerInv(h') && OwnSectionStopped(h.table, h'.table, localId) && AllLive(h', others)
  {
    hide StoppedSending, StoppedReceiving, Inv, RolesAgree, OwnSectionStopped, Live;
    StopReceivingLeavesOthers(h, localId, others, failure);
    SendRuns.StopSendingLeavesOthers(h, localId, others, failure);
  }
}
