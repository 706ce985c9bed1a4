/** Every run of the remote SDP: agreement of its parts, slot allocation, stability of slots. */
module SdpRuns {

  import opened Common
  import opened Text
  import opened SdpTable

  // One call on the RemoteSdp object. Send takes its slot from GetNextMediaSectionIdx.
  datatype Step =
    | Send(offer: Description)
    | SendSctpAssociation(offer: Description)
    | RecvSctpAssociation
    | Receive(description: Description)
    | CloseMediaSection(mid: string)
    | UpdateIceParameters(ice: IceParameters)
    | UpdateDtlsRole(role: Role)
    | GetSdp

  const DATA_CHANNEL := Description("datachannel", Application, map[])

  predicate Places(step: Step) {
    step.Send? || step.SendSctpAssociation? || step.RecvSctpAssociation? || step.Receive?
  }

  predicate IsSctp(step: Step) {
    step.SendSctpAssociation? || step.RecvSctpAssociation?
  }

  // The section a placing step makes.
  function NewSection(t: Table, step: Step): (s: Section)
    requires Places(step)
    ensures !s.IsClosed()
  {
    match step
    case Send(offer) => NewAnswer(t.ice, t.role, offer)
    case SendSctpAssociation(offer) => NewAnswer(t.ice, t.role, offer)
    case RecvSctpAssociation => NewOffer(t.ice, DATA_CHANNEL)
    case Receive(d) => NewOffer(t.ice, d)
  }

  // The slot it goes to: SCTP sections are always appended.
  function SlotFor(t: Table, step: Step): (i: nat)
    ensures i <= |t.sections|
  {
    if IsSctp(step) then |t.sections| else FirstClosed(t.sections)
  }

  // What the callers must keep to: a MID no other section holds, a known MID to close.
  ghost predicate Allowed(t: Table, step: Step) {
    && (Places(step) ==> FreeMid(t, NewSection(t, step).Mid(), SlotFor(t, step)))
    && (step.CloseMediaSection? ==> step.mid in t.midToIndex)
  }

  // The slot a step indexes exists.
  predicate Defined(t: Table, step: Step) {
    step.CloseMediaSection? ==> CanClose(t, step.mid)
  }

  // For placing steps see PlacesAsCoded.
  function Apply(t: Table, step: Step): (t': Table)
    requires Defined(t, step)
  {
    match step
    case CloseMediaSection(mid) => Close(t, mid)
    case UpdateIceParameters(ice) => UpdateIce(t, ice)
    case UpdateDtlsRole(role) => UpdateRole(t, role)
    case GetSdp => NextVersion(t)
    case _ => PutAt(t, NewSection(t, step), SlotFor(t, step))
  }

  // Send goes through the MID GetNextMediaSectionIdx found, Receive through the closed section it found
  // itself, the SCTP calls append: all of them put the new section into the slot named here.
  lemma PlacesAsCoded(t: Table, step: Step)
    requires Inv(t) && Places(step)
    ensures Defined(t, step)
    ensures var s := NewSection(t, step);
      && CanPlace(t, s, NextSlot(t).1) && CanRecycle(t, s)
      && Apply(t, step) == (if IsSctp(step) then Add(t, s) else Place(t, s, NextSlot(t).1))
      && (step.Receive? ==> Apply(t, step) == Recycle(t, s))
  {
    PlaceIsPutAt(t, NewSection(t, step));
    RecycleIsPlace(t, NewSection(t, step));
    AddIsPutAt(t, NewSection(t, step));
  }

  lemma AllowedIsDefined(t: Table, step: Step)
    requires Inv(t) && Allowed(t, step)
    ensures Defined(t, step)
  {
  }

  // A new section goes to the lowest closed slot or else to the end, and touches no other slot.
  lemma PlacedAtSlot(t: Table, step: Step)
    requires Inv(t) && Places(step)
    ensures Defined(t, step)
    ensures var i, s, t' := SlotFor(t, step), NewSection(t, step), Apply(t, step);
      && |t'.sections| == (if i < |t.sections| then |t.sections| else |t.sections| + 1)
      && t'.sections[i] == s
      && (forall k :: 0 <= k < |t.sections| && k != i ==> t'.sections[k] == t.sections[k])
      && (i < |t.sections| ==> 0 < i && t.sections[i].IsClosed())
      && (i == 0 ==> t.sections == [])
      && (!IsSctp(step) ==> forall k :: 0 <= k < i ==> !t.sections[k].IsClosed())
  {
  }

  lemma StepKeepsInv(t: Table, step: Step)
    requires Inv(t) && Allowed(t, step)
    ensures Defined(t, step) && Inv(Apply(t, step))
  {
    match step
    case CloseMediaSection(mid) => CloseKeepsInv(t, mid);
    case UpdateIceParameters(ice) => UpdateIceKeepsInv(t, ice);
    case UpdateDtlsRole(role) => UpdateRoleKeepsInv(t, role);
    case GetSdp =>
    case _ =>
      PlacedAtSlot(t, step);
      PutAtKeepsInv(t, NewSection(t, step), SlotFor(t, step));
  }

  /* Runs */

  // The state a run from the empty table leads to; None if a step was not allowed.
  ghost function Run(ice: IceParameters, role: Role, steps: seq<Step>): (r: Option<Table>) {
    if steps == [] then Some(Empty(ice, role))
    else
      var before := Run(ice, role, steps[..|steps| - 1]);
      var step := steps[|steps| - 1];
      if before.Some? && Allowed(before.value, step) && Defined(before.value, step) then Some(Apply(before.value, step))
      else None
  }

  ghost predicate Legal(ice: IceParameters, role: Role, steps: seq<Step>) {
    Run(ice, role, steps).Some?
  }

  ghost function After(ice: IceParameters, role: Role, steps: seq<Step>): (t: Table)
    requires Legal(ice, role, steps)
  {
    Run(ice, role, steps).value
  }

  // Every prefix of a legal run is legal, and its last step is a step from there.
  lemma LastStep(ice: IceParameters, role: Role, steps: seq<Step>)
    requires Legal(ice, role, steps) && steps != []
    ensures var before, step := steps[..|steps| - 1], steps[|steps| - 1];
      && Legal(ice, role, before)
      && Allowed(After(ice, role, before), step) && Defined(After(ice, role, before), step)
      && After(ice, role, steps) == Apply(After(ice, role, before), step)
  {
  }

  lemma {:induction false} RunKeepsInv(ice: IceParameters, role: Role, steps: seq<Step>)
    requires Legal(ice, role, steps)
    ensures Inv(After(ice, role, steps))
    decreases |steps|
  {
    if steps != [] {
      LastStep(ice, role, steps);
      RunKeepsInv(ice, role, steps[..|steps| - 1]);
      StepKeepsInv(After(ice, role, steps[..|steps| - 1]), steps[|steps| - 1]);
    }
  }

  // The caller's obligations are enough: an allowed step is always possible after a legal run.
  lemma RunContinues(ice: IceParameters, role: Role, steps: seq<Step>, step: Step)
    requires Legal(ice, role, steps) && Allowed(After(ice, role, steps), step)
    ensures Legal(ice, role, steps + [step])
  {
    RunKeepsInv(ice, role, steps);
    AllowedIsDefined(After(ice, role, steps), step);
    assert (steps + [step])[..|steps|] == steps;
  }

  // In every reachable state the copies, the index, the first MID and the BUNDLE text agree with
  // the sections, and slot 0 is never closed.
  lemma ReachableAgreement(ice: IceParameters, role: Role, steps: seq<Step>)
    requires Legal(ice, role, steps)
    ensures var t := After(ice, role, steps);
      && |t.media| == |t.sections|
      && (forall i :: 0 <= i < |t.sections| ==> t.media[i] == t.sections[i].mediaObject)
      && (forall mid, i :: mid in t.midToIndex && t.midToIndex[mid] == i <==>
                           0 <= i < |t.sections| && t.sections[i].Mid() == mid)
      && MidsDistinct(t.sections)
      && (t.sections != [] ==> t.sections[0].Mid() == t.firstMid && t.sections[0].mediaObject.port != 0)
      && Tokens(t.bundle, ' ') == OpenMids(t.sections)
  {
    RunKeepsInv(ice, role, steps);
    BundleTokens(After(ice, role, steps));
  }

  /* Slot allocation */

  function OpenCount(t: Table): (n: nat) {
    |OpenMids(t.sections)|
  }

  function Max(a: nat, b: nat): (m: nat) {
    if a < b then b else a
  }

  // The largest number of sections open at the same time during the run.
  ghost function Peak(ice: IceParameters, role: Role, steps: seq<Step>): (n: nat)
    requires Legal(ice, role, steps)
  {
    if steps == [] then 0
    else
      LastStep(ice, role, steps);
      Max(Peak(ice, role, steps[..|steps| - 1]), OpenCount(After(ice, role, steps)))
  }

  function SctpCount(steps: seq<Step>): (n: nat) {
    if steps == [] then 0
    else SctpCount(steps[..|steps| - 1]) + (if IsSctp(steps[|steps| - 1]) then 1 else 0)
  }

  lemma {:induction false} OpenBoundedUpTo(sections: seq<Section>, n: nat)
    requires n <= |sections|
    ensures |OpenUpTo(sections, n)| <= n
    ensures |OpenUpTo(sections, n)| == n <==> ClosedUpTo(sections, n) == n
  {
    if n > 0 {
      OpenBoundedUpTo(sections, n - 1);
    }
  }

  lemma OpenBounded(sections: seq<Section>)
    ensures |OpenMids(sections)| <= |sections|
    ensures |OpenMids(sections)| == |sections| <==> FirstClosed(sections) == |sections|
  {
    OpenBoundedUpTo(sections, |sections|);
  }

  // A section is appended only when every slot is open.
  lemma AppendedWhenFull(t: Table, step: Step)
    requires Inv(t) && Allowed(t, step)
    ensures Defined(t, step)
    ensures var t' := Apply(t, step);
      || |t'.sections| == |t.sections|
      || (|t'.sections| == |t.sections| + 1 && (IsSctp(step) || OpenCount(t') == |t'.sections|))
  {
    AllowedIsDefined(t, step);
    SectionCount(t, step);
    var t' := Apply(t, step);
    if |t'.sections| > |t.sections| && !IsSctp(step) {
      PlacedAtSlot(t, step);
      assert FirstClosed(t'.sections) == |t'.sections|;
      OpenBounded(t'.sections);
    }
  }

  // So none beyond the peak number are ever made; each SCTP section can cost at most one more.
  lemma {:induction false} SlotsBoundedByPeak(ice: IceParameters, role: Role, steps: seq<Step>)
    requires Legal(ice, role, steps)
    ensures var n := |After(ice, role, steps).sections|;
      Peak(ice, role, steps) <= n <= Peak(ice, role, steps) + SctpCount(steps)
    decreases |steps|
  {
    if steps != [] {
      var before := steps[..|steps| - 1];
      LastStep(ice, role, steps);
      SlotsBoundedByPeak(ice, role, before);
      RunKeepsInv(ice, role, before);
      AppendedWhenFull(After(ice, role, before), steps[|steps| - 1]);
      OpenBounded(After(ice, role, steps).sections);
    }
  }

  // Without SCTP associations the number of sections is exactly the peak.
  lemma SlotAllocationOptimal(ice: IceParameters, role: Role, steps: seq<Step>)
    requires Legal(ice, role, steps)
    requires forall i :: 0 <= i < |steps| ==> !IsSctp(steps[i])
    ensures |After(ice, role, steps).sections| == Peak(ice, role, steps)
  {
    SlotsBoundedByPeak(ice, role, steps);
    NoSctpCount(steps);
  }

  lemma {:induction false} NoSctpCount(steps: seq<Step>)
    requires forall i :: 0 <= i < |steps| ==> !IsSctp(steps[i])
    ensures SctpCount(steps) == 0
  {
    if steps != [] {
      NoSctpCount(steps[..|steps| - 1]);
    }
  }

  // Between GetNextMediaSectionIdx and Send the handler may set the DTLS role: the slot stays right.
  lemma SlotSurvivesRoleUpdate(t: Table, role: Role)
    requires Inv(t)
    ensures NextSlot(UpdateRole(t, role)) == NextSlot(t)
  {
    SameBundle(t.sections, UpdateRole(t, role).sections);
  }

  /* Stability */

  lemma SectionCount(t: Table, step: Step)
    requires Inv(t) && Allowed(t, step)
    ensures Defined(t, step)
    ensures |t.sections| <= |Apply(t, step).sections| <= |t.sections| + 1
    ensures |Apply(t, step).sections| > |t.sections| ==>
      Places(step) && (IsSctp(step) || FirstClosed(t.sections) == |t.sections|)
  {
  }

  // No slot disappears, a slot changes its MID only if it was closed just before, and it reopens
  // only then.
  lemma SlotsAreStable(t: Table, step: Step, i: nat)
    requires Inv(t) && Allowed(t, step) && i < |t.sections|
    ensures Defined(t, step)
    ensures var t' := Apply(t, step);
      && |t.sections| <= |t'.sections|
      && (t'.sections[i].Mid() != t.sections[i].Mid() || t'.sections[i].answer != t.sections[i].answer ==>
            t.sections[i].IsClosed())
      && (t.sections[i].IsClosed() && !t'.sections[i].IsClosed() ==> Places(step) && i == SlotFor(t, step))
      && (!t.sections[i].IsClosed() && t'.sections[i].IsClosed() ==>
            step == CloseMediaSection(t.sections[i].Mid()) && i > 0)
  {
    AllowedIsDefined(t, step);
    if Places(step) {
      PlacedAtSlot(t, step);
    } else if step.CloseMediaSection? {
      CloseTouchesOne(t, step.mid);
    }
  }

  // Closing acts on the slot of its MID and nowhere else: slot 0 is disabled, any other closed.
  lemma CloseTouchesOne(t: Table, mid: string)
    requires Inv(t) && mid in t.midToIndex
    ensures CanClose(t, mid)
    ensures var i := t.midToIndex[mid];
      && t.sections[i].Mid() == mid
      && Close(t, mid).sections == t.sections[i := if i == 0 then t.sections[0].Disabled() else t.sections[i].Closed()]
      && Close(t, mid).midToIndex == t.midToIndex
  {
  }

  // The bundled transport hangs on the first section: its slot keeps MID and stays open for ever.
  lemma {:induction false} FirstSlotForEver(ice: IceParameters, role: Role, steps: seq<Step>, more: seq<Step>)
    requires Legal(ice, role, steps + more)
    ensures Legal(ice, role, steps)
    ensures var t, t' := After(ice, role, steps), After(ice, role, steps + more);
      t.sections != [] ==>
        t'.sections != [] && t'.sections[0].Mid() == t.sections[0].Mid() && !t'.sections[0].IsClosed()
    decreases |more|
  {
    if more == [] {
      assert steps + more == steps;
      RunKeepsInv(ice, role, steps);
    } else {
      var all := steps + more;
      assert all[..|all| - 1] == steps + more[..|more| - 1];
      LastStep(ice, role, all);
      FirstSlotForEver(ice, role, steps, more[..|more| - 1]);
      RunKeepsInv(ice, role, all[..|all| - 1]);
      var t := After(ice, role, all[..|all| - 1]);
      SectionCount(t, all[|all| - 1]);
      if t.sections != [] {
        SlotsAreStable(t, all[|all| - 1], 0);
      }
    }
  }

  function Described(steps: seq<Step>): (n: nat) {
    if steps == [] then 0 else Described(steps[..|steps| - 1]) + (if steps[|steps| - 1].GetSdp? then 1 else 0)
  }

  lemma VersionStep(t: Table, step: Step)
    requires Defined(t, step)
    ensures Apply(t, step).version == if step.GetSdp? then (t.version + 1) % UINT32 else t.version
  {
  }

  lemma NextResidue(n: nat)
    ensures (n % UINT32 + 1) % UINT32 == (n + 1) % UINT32
  {
  }

  // The session version counts the descriptions handed out, as a uint32_t.
  lemma {:induction false} VersionCountsDescriptions(ice: IceParameters, role: Role, steps: seq<Step>)
    requires Legal(ice, role, steps)
    ensures After(ice, role, steps).version == Described(steps) % UINT32
    decreases |steps|
  {
    if steps != [] {
      var before := steps[..|steps| - 1];
      LastStep(ice, role, steps);
      VersionCountsDescriptions(ice, role, before);
      VersionStep(After(ice, role, before), steps[|steps| - 1]);
      NextResidue(Described(before));
    }
  }
}
