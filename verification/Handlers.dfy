/** The handler objects, as updated in place.

A handler is the only owner of its RemoteSdp object, so it holds it here as the table it stands
for; the effect of each RemoteSdp method on that table is proved in RemoteSdp.
*/
module Handlers {

  import opened Common
  import opened Text
  import opened SdpTable
  import opened SdpRuns
  import opened HandlerSteps

  class PeerHandler {
    var remoteSdp: Table
    const forcedLocalDtlsRole: Option<Role>
    var transportReady: bool
    var mapMidTransceiver: map<string, string>
    var hasDataChannelMediaSection: bool
    var nextSendSctpStreamId: nat
    // The calls made to the listener's OnConnect.
    ghost var connects: seq<Connect>

    ghost function View(): (h: Handler)
      reads this
    {
      Handler(remoteSdp, mapMidTransceiver, transportReady, forcedLocalDtlsRole,
              hasDataChannelMediaSection, nextSendSctpStreamId, connects)
    }

    ghost predicate Valid()
      reads this
    {
      HandlerInv(View())
    }

    constructor (ice: IceParameters, declaredRole: Role)
      ensures Valid() && View() == NewHandler(ice, declaredRole)
    {
      if declaredRole != Auto {
        forcedLocalDtlsRole := Some(if declaredRole == Server then Client else Server);
      } else {
        forcedLocalDtlsRole := None;
      }
      remoteSdp := Empty(ice, declaredRole);
      transportReady, mapMidTransceiver, hasDataChannelMediaSection, nextSendSctpStreamId := false, map[], false, 0;
      connects := [];
      new;
      NewHandlerInv(ice, declaredRole);
    }

    method SetupTransport(localDtlsRole: Role, failure: Failure) returns (r: Result<()>)
      modifies this
      ensures View() == SetUp(old(View()), localDtlsRole, failure)
      ensures r.Ok? <==> failure != ExtractDtls && failure != OnConnect
    {
      if failure == ExtractDtls {
        return Throws;
      }
      var remoteDtlsRole := if localDtlsRole == Client then Server else Client;
      remoteSdp := UpdateRole(remoteSdp, remoteDtlsRole);
      connects := connects + [Connect(localDtlsRole, failure != OnConnect)];
      if failure == OnConnect {
        return Throws;
      }
      transportReady := true;
      return Ok(());
    }

    method EnsureTransport(defaultRole: Role, failure: Failure) returns (r: Result<()>)
      modifies this
      ensures View() == Ensured(old(View()), defaultRole, failure)
      ensures r.Ok? <==> Connected(old(View()), failure)
    {
      if !transportReady {
        r := SetupTransport(if forcedLocalDtlsRole.Some? then forcedLocalDtlsRole.value else defaultRole, failure);
      } else {
        r := Ok(());
      }
    }

    // Of the send handler if `sending`, else of the receive handler.
    method RestartIce(ice: IceParameters, sending: bool, failure: Failure) returns (r: Result<()>)
      requires Valid()
      modifies this
      ensures Valid()
      ensures (View(), r) == RestartedIce(old(View()), ice, sending, failure)
    {
      hide Inv, RolesAgree, UpdateIce, NextVersion;
      RestartedIceKeeps(View(), ice, sending, failure, "");
      remoteSdp := UpdateIce(remoteSdp, ice);
      if !transportReady {
        return Ok(());
      }
      if sending && (failure == CreateOffer || failure == SetLocalDescription) {
        return Throws;
      }
      remoteSdp := NextVersion(remoteSdp);
      if failure == SetRemoteDescription || (!sending && (failure == CreateAnswer || failure == SetLocalDescription)) {
        return Throws;
      }
      return Ok(());
    }

    /* RecvHandler */

    method Receive(mid: Option<string>, kind: Kind, attributes: Attributes, failure: Failure)
      returns (r: Result<string>)
      requires Valid()
      modifies this
      ensures old(Allowed(remoteSdp, ReceiveStep(View(), mid, kind, attributes))) ==> Valid()
      ensures (View(), r) == Received(old(View()), mid, kind, attributes, failure)
    {
      if Allowed(remoteSdp, ReceiveStep(View(), mid, kind, attributes)) {
        ReceivedInv(View(), mid, kind, attributes, failure);
      }
      r := ReceiveTrack(mid, kind, attributes, failure);
    }

    method ReceiveTrack(mid: Option<string>, kind: Kind, attributes: Attributes, failure: Failure)
      returns (r: Result<string>)
      requires Inv(remoteSdp)
      modifies this
      ensures (View(), r) == Received(old(View()), mid, kind, attributes, failure)
    {
      var localId: string;
      if mid.Some? && mid.value != "" {
        localId := mid.value;
      } else {
        localId := Decimal(|mapMidTransceiver|);
      }
      assert localId == LocalId(View(), mid);
      if failure == BuildSection {
        return Throws;
      }
      OfferRemotely(Description(localId, kind, attributes));
      r := Accept(localId, failure);
    }

    // The answer, and the transceiver that has come with it.
    method Accept(localId: string, failure: Failure) returns (r: Result<string>)
      modifies this
      ensures (View(), r) == Accepted(old(View()), localId, failure)
    {
      if failure == SetRemoteDescription || failure == CreateAnswer {
        return Throws;
      }
      var connected := EnsureTransport(Client, failure);
      if connected.Throws? || failure == SetLocalDescription || failure == FindTransceiver {
        return Throws;
      }
      mapMidTransceiver := mapMidTransceiver[localId := localId];
      return Ok(localId);
    }

    // RemoteSdp::Receive and GetSdp.
    method OfferRemotely(description: Description)
      requires Inv(remoteSdp)
      modifies `remoteSdp
      ensures View() == Placed(old(View()), Step.Receive(description))
    {
      PlacesAsCoded(remoteSdp, Step.Receive(description));
      remoteSdp := Recycle(remoteSdp, NewOffer(remoteSdp.ice, description));
      remoteSdp := NextVersion(remoteSdp);
    }

    method StopReceiving(localId: string, failure: Failure) returns (r: Result<()>)
      requires Valid() && (localId in mapMidTransceiver ==> CanClose(remoteSdp, localId))
      modifies this
      ensures old(localId in mapMidTransceiver ==> localId in remoteSdp.midToIndex) ==> Valid()
      ensures (View(), r) == StoppedReceiving(old(View()), localId, failure)
    {
      if localId in mapMidTransceiver ==> localId in remoteSdp.midToIndex {
        StoppedReceivingInv(View(), localId, failure);
      }
      assert localId in mapMidTransceiver ==> mapMidTransceiver[localId] == localId;
      r := EndReceiving(localId, failure);
    }

    method EndReceiving(localId: string, failure: Failure) returns (r: Result<()>)
      requires localId in mapMidTransceiver ==> CanClose(remoteSdp, mapMidTransceiver[localId])
      modifies `remoteSdp
      ensures (View(), r) == StoppedReceiving(old(View()), localId, failure)
    {
      if localId !in mapMidTransceiver {
        return Throws;
      }
      remoteSdp := Close(remoteSdp, mapMidTransceiver[localId]);
      remoteSdp := NextVersion(remoteSdp);
      if failure == SetRemoteDescription || failure == CreateAnswer || failure == SetLocalDescription {
        return Throws;
      }
      return Ok(());
    }

    method ReceiveDataChannel(failure: Failure) returns (r: Result<()>)
      requires Valid()
      modifies this
      ensures old(!hasDataChannelMediaSection ==> Allowed(remoteSdp, RecvSctpAssociation)) ==> Valid()
      ensures (View(), r) == ReceivedData(old(View()), failure)
    {
      if !hasDataChannelMediaSection ==> Allowed(remoteSdp, RecvSctpAssociation) {
        ReceivedDataInv(View(), failure);
      }
      r := OpenRemoteDataChannel(failure);
    }

    method OpenRemoteDataChannel(failure: Failure) returns (r: Result<()>)
      requires Inv(remoteSdp)
      modifies this
      ensures (View(), r) == ReceivedData(old(View()), failure)
    {
      hide Placed, Ensured, Inv, Connected;
      if failure == CreateDataChannel {
        return Throws;
      }
      if !hasDataChannelMediaSection {
        OfferDataRemotely();
        if failure == SetRemoteDescription || failure == CreateAnswer {
          return Throws;
        }
        var connected := EnsureTransport(Client, failure);
        if connected.Throws? || failure == SetLocalDescription {
          return Throws;
        }
        hasDataChannelMediaSection := true;
      }
      return Ok(());
    }

    // RemoteSdp::RecvSctpAssociation and GetSdp.
    method OfferDataRemotely()
      requires Inv(remoteSdp)
      modifies `remoteSdp
      ensures View() == Placed(old(View()), RecvSctpAssociation)
    {
      PlacesAsCoded(remoteSdp, RecvSctpAssociation);
      remoteSdp := Add(remoteSdp, NewOffer(remoteSdp.ice, DATA_CHANNEL));
      remoteSdp := NextVersion(remoteSdp);
    }

    /* SendHandler */

    method Send(offer: Description, failure: Failure) returns (r: Result<string>)
      requires Valid()
      modifies this
      ensures old(Allowed(remoteSdp, Step.Send(offer))) ==> Valid()
      ensures (View(), r) == Sent(old(View()), offer, failure)
    {
      if Allowed(remoteSdp, Step.Send(offer)) {
        SentKeeps(View(), offer, failure, "");
      }
      var reuseMid := NextSlot(remoteSdp).1;
      if failure == AddTransceiver || failure == CreateOffer {
        return Throws;
      }
      SlotAfterSetup(View(), Server, failure);
      var connected := EnsureTransport(Server, failure);
      if connected.Throws? || failure == ReadMimeType || failure == SetLocalDescription || failure == FindMedia {
        return Throws;
      }
      r := AnswerRemotely(offer, reuseMid, failure);
    }

    // RemoteSdp::Send into the slot found before the transport was set up, and GetSdp.
    method AnswerRemotely(offer: Description, reuseMid: string, failure: Failure) returns (r: Result<string>)
      requires Inv(remoteSdp) && reuseMid == NextSlot(remoteSdp).1
      modifies this
      ensures (View(), r) == Answered(old(View()), offer, failure)
    {
      hide Inv, Place, NewAnswer, Apply, NextSlot;
      PlacesAsCoded(remoteSdp, Step.Send(offer));
      remoteSdp := Place(remoteSdp, NewAnswer(remoteSdp.ice, remoteSdp.role, offer), reuseMid);
      remoteSdp := NextVersion(remoteSdp);
      if failure == SetRemoteDescription {
        return Throws;
      }
      mapMidTransceiver := mapMidTransceiver[offer.mid := offer.mid];
      return Ok(offer.mid);
    }

    method StopSending(localId: string, failure: Failure) returns (r: Result<()>)
      requires Valid() && (localId in mapMidTransceiver ==> CanClose(remoteSdp, localId))
      modifies this
      ensures old(localId in mapMidTransceiver ==> localId in remoteSdp.midToIndex) ==> Valid()
      ensures (View(), r) == StoppedSending(old(View()), localId, failure)
    {
      if localId in mapMidTransceiver ==> localId in remoteSdp.midToIndex {
        StoppedSendingInv(View(), localId, failure);
      }
      assert localId in mapMidTransceiver ==> mapMidTransceiver[localId] == localId;
      r := EndSending(localId, failure);
    }

    method EndSending(localId: string, failure: Failure) returns (r: Result<()>)
      requires localId in mapMidTransceiver ==> CanClose(remoteSdp, mapMidTransceiver[localId])
      modifies `remoteSdp
      ensures (View(), r) == StoppedSending(old(View()), localId, failure)
    {
      if localId !in mapMidTransceiver {
        return Throws;
      }
      remoteSdp := Close(remoteSdp, mapMidTransceiver[localId]);
      if failure == CreateOffer || failure == SetLocalDescription {
        return Throws;
      }
      remoteSdp := NextVersion(remoteSdp);
      if failure == SetRemoteDescription {
        return Throws;
      }
      return Ok(());
    }

    method SendDataChannel(offer: Description, valid: bool, failure: Failure) returns (r: Result<nat>)
      requires Valid()
      modifies this
      ensures old(!hasDataChannelMediaSection ==> Allowed(remoteSdp, SendSctpAssociation(offer))) ==> Valid()
      ensures (View(), r) == SentData(old(View()), offer, valid, failure)
    {
      if !hasDataChannelMediaSection ==> Allowed(remoteSdp, SendSctpAssociation(offer)) {
        SentDataInv(View(), offer, valid, failure);
      }
      r := OpenDataChannel(offer, valid, failure);
    }

    method OpenDataChannel(offer: Description, valid: bool, failure: Failure) returns (r: Result<nat>)
      requires Inv(remoteSdp)
      modifies this
      ensures (View(), r) == SentData(old(View()), offer, valid, failure)
    {
      var streamId := nextSendSctpStreamId;
      if !valid || failure == CreateDataChannel {
        return Throws;
      }
      nextSendSctpStreamId := (nextSendSctpStreamId + 1) % SCTP_STREAMS;
      assert SentData(old(View()), offer, valid, failure) ==
             if hasDataChannelMediaSection then (View(), Ok(streamId))
             else NegotiatedData(View(), offer, streamId, failure);
      if !hasDataChannelMediaSection {
        r := NegotiateData(offer, streamId, failure);
      } else {
        r := Ok(streamId);
      }
    }

    // The part done for the first data channel only.
    method NegotiateData(offer: Description, streamId: nat, failure: Failure) returns (r: Result<nat>)
      requires Inv(remoteSdp)
      modifies this
      ensures (View(), r) == NegotiatedData(old(View()), offer, streamId, failure)
    {
      if failure == CreateOffer || failure == FindMedia {
        return Throws;
      }
      SlotAfterSetup(View(), Server, failure);
      var connected := EnsureTransport(Server, failure);
      if connected.Throws? || failure == SetLocalDescription {
        return Throws;
      }
      r := AnswerDataRemotely(offer, streamId, failure);
    }

    // RemoteSdp::SendSctpAssociation and GetSdp.
    method AnswerDataRemotely(offer: Description, streamId: nat, failure: Failure) returns (r: Result<nat>)
      requires Inv(remoteSdp)
      modifies this
      ensures (View(), r) == AnsweredData(old(View()), offer, streamId, failure)
    {
      PlacesAsCoded(remoteSdp, SendSctpAssociation(offer));
      remoteSdp := Add(remoteSdp, NewAnswer(remoteSdp.ice, remoteSdp.role, offer));
      remoteSdp := NextVersion(remoteSdp);
      if failure == SetRemoteDescription {
        return Throws;
      }
      hasDataChannelMediaSection := true;
      return Ok(streamId);
    }
  }

  lemma ReceivedDataInv(h: Handler, failure: Failure)
    requires HandlerInv(h) && (!h.hasData ==> Allowed(h.table, RecvSctpAssociation))
    ensures HandlerInv(ReceivedData(h, failure).0)
  {
    ReceivedDataKeeps(h, failure, "");
  }

  lemma SentDataInv(h: Handler, offer: Description, valid: bool, failure: Failure)
    requires HandlerInv(h) && (!h.hasData ==> Allowed(h.table, SendSctpAssociation(offer)))
    ensures HandlerInv(SentData(h, offer, valid, failure).0)
  {
    SentDataKeeps(h, offer, valid, failure, "");
  }

  lemma StoppedSendingInv(h: Handler, localId: string, failure: Failure)
    requires HandlerInv(h) && (localId in h.transceivers ==> localId in h.table.midToIndex)
    ensures localId in h.transceivers ==> CanClose(h.table, h.transceivers[localId])
    ensures HandlerInv(StoppedSending(h, localId, failure).0)
  {
    StoppedSendingKeeps(h, localId, failure, "");
  }

  lemma StoppedReceivingInv(h: Handler, localId: string, failure: Failure)
    requires HandlerInv(h) && (localId in h.transceivers ==> localId in h.table.midToIndex)
    ensures localId in h.transceivers ==> CanClose(h.table, h.transceivers[localId])
    ensures HandlerInv(StoppedReceiving(h, localId, failure).0)
  {
    StoppedReceivingKeeps(h, localId, failure, "");
  }

  // Setting the transport up moves no slot.
  lemma SlotAfterSetup(h: Handler, defaultRole: Role, failure: Failure)
    requires Inv(h.table)
    ensures Inv(Ensured(h, defaultRole, failure).table)
    ensures NextSlot(Ensured(h, defaultRole, failure).table) == NextSlot(h.table)
  {
    var role := Opposite(if h.forcedRole.Some? then h.forcedRole.value else defaultRole);
    UpdateRoleKeepsInv(h.table, role);
    SlotSurvivesRoleUpdate(h.table, role);
  }
}
