/** Which sections of the remote SDP are in use, and how every call moves them.

A section is in use while it is open and not disabled. Every call either leaves the MIDs in use as they
are, adds the one of the section it places, or takes away the one of the section it stops.
*/
module SectionsInUse {

  import opened Common
  import opened SdpTable
  import opened SdpRuns
  import opened HandlerSteps

  ghost predicate InUse(t: Table, mid: string) {
    && mid in t.midToIndex
    && var i := t.midToIndex[mid];
       && i < |t.sections| && !t.sections[i].IsClosed()
       && t.sections[i].mediaObject.direction != Inactive
  }

  lemma LiveIsInUse(h: Handler, mid: string)
    ensures Live(h, mid) <==> mid in h.transceivers && InUse(h.table, mid)
  {
  }

  // The MIDs in use afterwards are those before, with some more or one less.
  ghost predicate Gains(t: Table, t': Table, placed: set<string>) {
    forall mid :: InUse(t', mid) <==> InUse(t, mid) || mid in placed
  }

  ghost predicate Loses(t: Table, t': Table, stopped: string) {
    forall mid :: InUse(t', mid) <==> InUse(t, mid) && mid != stopped
  }

  /* The table */

  lemma PlacingUses(t: Table, step: Step, mid: string)
    requires Inv(t) && Places(step) && Allowed(t, step)
    ensures Defined(t, step)
    ensures InUse(Apply(t, step), mid) <==> InUse(t, mid) || mid == NewSection(t, step).Mid()
  {
    hide BundleUpTo, GoodMid;
    PlacedAtSlot(t, step);
    StepKeepsInv(t, step);
    var t', i := Apply(t, step), SlotFor(t, step);
    if mid == NewSection(t, step).Mid() {
      assert t'.midToIndex[mid] == i;
    } else if mid in t.midToIndex && t.midToIndex[mid] != i {
      assert t'.sections[t.midToIndex[mid]].Mid() == mid;
    }
  }

  // The MID was free: no section in use had it.
  lemma FreshIsNotInUse(t: Table, step: Step)
    requires Inv(t) && Places(step) && Allowed(t, step)
    ensures !InUse(t, NewSection(t, step).Mid())
  {
  }

  lemma ClosingFrees(t: Table, closed: string, mid: string)
    requires Inv(t) && closed in t.midToIndex
    ensures CanClose(t, closed)
    ensures InUse(Close(t, closed), mid) <==> InUse(t, mid) && mid != closed
  {
    CloseTouchesOne(t, closed);
  }

  // Updates of every section.
  lemma UpdatesKeepInUse(t: Table, ice: IceParameters, role: Role, mid: string)
    ensures InUse(UpdateIce(t, ice), mid) <==> InUse(t, mid)
    ensures InUse(UpdateRole(t, role), mid) <==> InUse(t, mid)
    ensures InUse(NextVersion(t), mid) <==> InUse(t, mid)
  {
  }

  /* The handler */

  lemma PlacedGains(h: Handler, step: Step)
    requires HandlerInv(h) && Places(step) && Allowed(h.table, step)
    ensures Gains(h.table, Placed(h, step).table, {NewSection(h.table, step).Mid()})
  {
    forall mid
      ensures InUse(Placed(h, step).table, mid) <==> InUse(h.table, mid) || mid in {NewSection(h.table, step).Mid()}
    {
      hide Inv, InUse, Apply, Allowed;
      PlacingUses(h.table, step, mid);
      UpdatesKeepInUse(Apply(h.table, step), h.table.ice, h.table.role, mid);
    }
  }

  lemma EnsuredGains(h: Handler, defaultRole: Role, failure: Failure)
    ensures Gains(h.table, Ensured(h, defaultRole, failure).table, {})
  {
    hide InUse;
    var role := Opposite(if h.forcedRole.Some? then h.forcedRole.value else defaultRole);
    forall mid ensures InUse(Ensured(h, defaultRole, failure).table, mid) <==> InUse(h.table, mid) {
      UpdatesKeepInUse(h.table, h.table.ice, role, mid);
    }
  }

  lemma GainsThenNone(t: Table, t1: Table, t': Table, placed: set<string>)
    requires Gains(t, t1, placed) && (t' == t1 || Gains(t1, t', {}))
    ensures Gains(t, t', placed)
  {
  }

  lemma NoneThenGains(t: Table, t1: Table, t': Table, placed: set<string>)
    requires Gains(t, t1, {}) && Gains(t1, t', placed)
    ensures Gains(t, t', placed)
  {
  }

  // Receive leaves its section in use as soon as it is built, whatever fails afterwards.
  lemma ReceivedGains(h: Handler, mid: Option<string>, kind: Kind, attributes: Attributes, failure: Failure)
    requires HandlerInv(h) && Allowed(h.table, ReceiveStep(h, mid, kind, attributes))
    ensures var h' := Received(h, mid, kind, attributes, failure).0;
      Gains(h.table, h'.table, if failure == BuildSection then {} else {LocalId(h, mid)})
  {
    if failure != BuildSection {
      hide Gains, HandlerInv, Allowed, Placed, Ensured;
      var step, h' := ReceiveStep(h, mid, kind, attributes), Received(h, mid, kind, attributes, failure).0;
      var h1 := Placed(h, step);
      PlacedGains(h, step);
      EnsuredGains(h1, Client, failure);
      assert h'.table == h1.table || h'.table == Ensured(h1, Client, failure).table;
      GainsThenNone(h.table, h1.table, h'.table, {LocalId(h, mid)});
    }
  }

  // Whether the data section of a receiving transport is built.
  predicate PlacesData(h: Handler, failure: Failure) {
    !h.hasData && failure != CreateDataChannel
  }

  lemma ReceivedDataGains(h: Handler, failure: Failure)
    requires HandlerInv(h) && (!h.hasData ==> Allowed(h.table, RecvSctpAssociation))
    ensures Gains(h.table, ReceivedData(h, failure).0.table,
                  if PlacesData(h, failure) then {DATA_CHANNEL.mid} else {})
  {
    if PlacesData(h, failure) {
      hide Gains, HandlerInv, Allowed, Placed, Ensured;
      var h1, h' := Placed(h, RecvSctpAssociation), ReceivedData(h, failure).0;
      PlacedGains(h, RecvSctpAssociation);
      EnsuredGains(h1, Client, failure);
      assert h'.table == h1.table || h'.table == Ensured(h1, Client, failure).table;
      GainsThenNone(h.table, h1.table, h'.table, {DATA_CHANNEL.mid});
    }
  }

  // Send gets as far as placing its section.
  predicate PlacesAnswer(h: Handler, failure: Failure) {
    Connected(h, failure) && failure !in {AddTransceiver, CreateOffer, ReadMimeType, SetLocalDescription, FindMedia}
  }

  lemma SentGains(h: Handler, offer: Description, failure: Failure)
    requires HandlerInv(h) && Allowed(h.table, Step.Send(offer))
    ensures var (h', r) := Sent(h, offer, failure);
      && Gains(h.table, h'.table, if PlacesAnswer(h, failure) then {offer.mid} else {})
      && (r.Ok? <==> PlacesAnswer(h, failure) && failure != SetRemoteDescription)
      && (r.Ok? ==> r.value == offer.mid)
  {
    hide Gains, HandlerInv, Allowed, Placed, Ensured, SameShape;
    var h1, h' := Ensured(h, Server, failure), Sent(h, offer, failure).0;
    EnsuredGains(h, Server, failure);
    EnsuredKeeps(h, Server, failure, "");
    if PlacesAnswer(h, failure) {
      SameShapeAllows(h.table, h1.table, Step.Send(offer));
      PlacedGains(h1, Step.Send(offer));
      NoneThenGains(h.table, h1.table, Placed(h1, Step.Send(offer)).table, {offer.mid});
    } else if h' == h {
      NothingGained(h.table);
    }
  }

  lemma NothingGained(t: Table)
    ensures Gains(t, t, {})
  {
  }

  // The first data channel of a sending transport gets as far as placing its section.
  predicate PlacesDataAnswer(h: Handler, valid: bool, failure: Failure) {
    && valid && !h.hasData && Connected(h, failure)
    && failure !in {CreateDataChannel, CreateOffer, FindMedia, SetLocalDescription}
  }

  lemma SentDataGains(h: Handler, offer: Description, valid: bool, failure: Failure)
    requires HandlerInv(h) && (!h.hasData ==> Allowed(h.table, SendSctpAssociation(offer)))
    ensures Gains(h.table, SentData(h, offer, valid, failure).0.table,
                  if PlacesDataAnswer(h, valid, failure) then {offer.mid} else {})
  {
    hide Gains, HandlerInv, Allowed, Placed, Ensured, SameShape;
    var h1 := h.(nextStream := (h.nextStream + 1) % SCTP_STREAMS);
    var h2, h', step := Ensured(h1, Server, failure), SentData(h, offer, valid, failure).0, SendSctpAssociation(offer);
    FlagsKeep(h, h1, "");
    EnsuredGains(h1, Server, failure);
    EnsuredKeeps(h1, Server, failure, "");
    if PlacesDataAnswer(h, valid, failure) {
      SameShapeAllows(h1.table, h2.table, step);
      PlacedGains(h2, step);
      NoneThenGains(h.table, h2.table, Placed(h2, step).table, {offer.mid});
    } else if h'.table == h.table {
      NothingGained(h.table);
    }
  }

  lemma ClosedLoses(t: Table, closed: string)
    requires Inv(t) && closed in t.midToIndex
    ensures CanClose(t, closed)
    ensures Loses(t, Close(t, closed), closed) && Loses(t, NextVersion(Close(t, closed)), closed)
  {
    CloseTouchesOne(t, closed);
    hide Inv, InUse, Close;
    forall mid
      ensures InUse(Close(t, closed), mid) <==> InUse(t, mid) && mid != closed
      ensures InUse(NextVersion(Close(t, closed)), mid) <==> InUse(t, mid) && mid != closed
    {
      ClosingFrees(t, closed, mid);
      UpdatesKeepInUse(Close(t, closed), t.ice, t.role, mid);
    }
  }

  // Stopping takes its section away, however it ends.
  lemma StoppingLoses(h: Handler, localId: string, failure: Failure)
    requires HandlerInv(h) && Live(h, localId)
    ensures CanClose(h.table, localId)
    ensures Loses(h.table, StoppedReceiving(h, localId, failure).0.table, localId)
    ensures Loses(h.table, StoppedSending(h, localId, failure).0.table, localId)
  {
    hide Inv, RolesAgree, Close, NextVersion, Loses;
    ClosedLoses(h.table, localId);
  }

  lemma RestartedIceGains(h: Handler, ice: IceParameters, sending: bool, failure: Failure)
    ensures Gains(h.table, RestartedIce(h, ice, sending, failure).0.table, {})
  {
    hide InUse;
    forall mid ensures InUse(RestartedIce(h, ice, sending, failure).0.table, mid) <==> InUse(h.table, mid) {
      UpdatesKeepInUse(h.table, ice, h.table.role, mid);
      UpdatesKeepInUse(UpdateIce(h.table, ice), ice, h.table.role, mid);
    }
  }

  /* Accounts */

  // The MIDs in use are exactly those of open endpoints and of others, and no MID is both.
  ghost predicate Accounted(t: Table, open: set<string>, others: set<string>) {
    open !! others && forall mid :: InUse(t, mid) <==> mid in open || mid in others
  }

  // Of the MID gained an endpoint is opened, or not.
  lemma AccountGains(t: Table, open: set<string>, others: set<string>, t': Table, placed: set<string>,
                     open': set<string>, others': set<string>)
    requires Accounted(t, open, others) && Gains(t, t', placed) && (forall mid :: mid in placed ==> !InUse(t, mid))
    requires (open' == open + placed && others' == others) || (open' == open && others' == others + placed)
    ensures Accounted(t', open', others')
  {
  }

  lemma AccountLoses(t: Table, open: set<string>, others: set<string>, t': Table, stopped: string)
    requires Accounted(t, open, others) && Loses(t, t', stopped) && stopped in open
    ensures Accounted(t', open - {stopped}, others)
  {
  }
}
