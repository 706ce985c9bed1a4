/** The remote SDP as a table of media sections.

RemoteSdp keeps a vector of media sections, an index from MID to slot, a copy of every section in
the SDP object, the text of the BUNDLE group and the MID of the first section. This module gives
the effect of every operation on those values, the invariant that ties them together, and when an
operation keeps it.
*/
module SdpTable {

  import opened Common
  import opened Text

  // The members of a media object that closing or disabling a section erases, and one for the rest.
  datatype Attribute = Ext | Ssrcs | SsrcGroups | Simulcast | Rids | ExtmapAllowMixed | Codecs

  type Attributes = map<Attribute, string>

  datatype Kind = Audio | Video | Application

  // NoDirection and NoSetup: the member is absent.
  datatype Direction = SendOnly | RecvOnly | Inactive | NoDirection

  datatype Setup = Active | Passive | ActPass | NoSetup

  // A DTLS role. Roles are compared as exact text; any other text is Other.
  datatype Role = Client | Server | Auto | Other(text: string)

  datatype MediaObject = MediaObject(
    mid: string, kind: Kind, port: nat, direction: Direction, setup: Setup,
    iceUfrag: string, icePwd: string, attributes: Attributes)

  datatype IceParameters = IceParameters(usernameFragment: string, password: string, iceLite: bool)

  // An answer section mirrors a local offer; an offer section describes a remote stream.
  datatype Section = Section(answer: bool, mediaObject: MediaObject)
  {
    predicate IsClosed() {
      mediaObject.port == 0
    }

    function Mid(): string {
      mediaObject.mid
    }

    function WithIce(ice: IceParameters): Section {
      this.(mediaObject := mediaObject.(iceUfrag := ice.usernameFragment, icePwd := ice.password))
    }

    function WithRole(role: Role): Section {
      this.(mediaObject := mediaObject.(setup := if answer then SetupFor(role, mediaObject.setup) else ActPass))
    }

    function Disabled(): Section {
      this.(mediaObject := mediaObject.(direction := Inactive,
                              attributes := mediaObject.attributes - {Ext, Ssrcs, SsrcGroups, Simulcast, Rids}))
    }

    function Closed(): Section {
      this.(mediaObject := mediaObject.(direction := Inactive, port := 0,
                              attributes := mediaObject.attributes
                                            - {Ext, Ssrcs, SsrcGroups, Simulcast, Rids, ExtmapAllowMixed}))
    }
  }

  // The setup attribute for a DTLS role; an unknown role leaves it as it was.
  function SetupFor(role: Role, before: Setup): (setup: Setup) {
    match role
    case Client => Active
    case Server => Passive
    case Auto => ActPass
    case Other(_) => before
  }

  // A local or remote media description a section is made from.
  datatype Description = Description(mid: string, kind: Kind, attributes: Attributes)

  predicate IsRtp(kind: Kind) {
    kind == Audio || kind == Video
  }

  function NewAnswer(ice: IceParameters, role: Role, offer: Description): (s: Section) {
    Section(true, MediaObject(offer.mid, offer.kind, 7, if IsRtp(offer.kind) then RecvOnly else NoDirection,
                              SetupFor(role, NoSetup), ice.usernameFragment, ice.password,
                              if IsRtp(offer.kind) then offer.attributes else map[]))
  }

  function NewOffer(ice: IceParameters, d: Description): (s: Section) {
    Section(false, MediaObject(d.mid, d.kind, 7, if IsRtp(d.kind) then SendOnly else NoDirection,
                               ActPass, ice.usernameFragment, ice.password,
                               if IsRtp(d.kind) then d.attributes else map[]))
  }

  datatype Table = Table(
    ice: IceParameters, role: Role, sections: seq<Section>, midToIndex: map<string, nat>, firstMid: string,
    media: seq<MediaObject>, bundle: string, version: nat, iceLite: bool)

  function Empty(ice: IceParameters, role: Role): (t: Table) {
    Table(ice, role, [], map[], "", [], "", 0, ice.iceLite)
  }

  /* Operations */

  // The text RegenerateBundleMids has built after the first n sections.
  function BundleUpTo(sections: seq<Section>, n: nat): (mids: string)
    requires n <= |sections|
  {
    if n == 0 then ""
    else
      var mids, s := BundleUpTo(sections, n - 1), sections[n - 1];
      if s.IsClosed() then mids else if mids == "" then s.Mid() else mids + " " + s.Mid()
  }

  function BundleText(sections: seq<Section>): (mids: string) {
    BundleUpTo(sections, |sections|)
  }

  // midToIndex[mid]: std::map::operator[] inserts 0 for an unknown key.
  function IndexOf(t: Table, mid: string): (i: nat) {
    if mid in t.midToIndex then t.midToIndex[mid] else 0
  }

  function Indexed(t: Table, mid: string): (m: map<string, nat>) {
    t.midToIndex[mid := IndexOf(t, mid)]
  }

  function Add(t: Table, s: Section): (t': Table) {
    var sections := t.sections + [s];
    t.(firstMid := if t.firstMid == "" then s.Mid() else t.firstMid,
       sections := sections,
       midToIndex := t.midToIndex[s.Mid() := |t.sections|],
       media := t.media + [s.mediaObject],
       bundle := BundleText(sections))
  }

  // The slot ReplaceMediaSection works on must exist.
  predicate CanReplace(t: Table, s: Section, reuseMid: string) {
    IndexOf(t, if reuseMid != "" then reuseMid else s.Mid()) < |t.sections| == |t.media|
  }

  function Replace(t: Table, s: Section, reuseMid: string): (t': Table)
    requires CanReplace(t, s, reuseMid)
  {
    if reuseMid != "" then
      var i := IndexOf(t, reuseMid);
      var sections := t.sections[i := s];
      t.(sections := sections,
         midToIndex := (Indexed(t, reuseMid) - {t.sections[i].Mid()})[s.Mid() := i],
         media := t.media[i := s.mediaObject],
         bundle := BundleText(sections))
    else
      var i := IndexOf(t, s.Mid());
      t.(sections := t.sections[i := s],
         midToIndex := Indexed(t, s.Mid()),
         media := t.media[|t.media| - 1 := s.mediaObject])
  }

  // The first closed one among the first n sections, or n.
  function ClosedUpTo(sections: seq<Section>, n: nat): (i: nat)
    requires n <= |sections|
    ensures i <= n
    ensures i < n ==> sections[i].IsClosed()
    ensures forall k :: 0 <= k < i ==> !sections[k].IsClosed()
  {
    if n == 0 then 0
    else
      var i := ClosedUpTo(sections, n - 1);
      if i < n - 1 || sections[n - 1].IsClosed() then i else n
  }

  function FirstClosed(sections: seq<Section>): (i: nat)
    ensures i <= |sections|
    ensures i < |sections| ==> sections[i].IsClosed()
    ensures forall k :: 0 <= k < i ==> !sections[k].IsClosed()
  {
    ClosedUpTo(sections, |sections|)
  }

  // GetNextMediaSectionIdx: the slot a new section goes to and the MID to reuse, if any.
  function NextSlot(t: Table): (r: (nat, string)) {
    var i := FirstClosed(t.sections);
    (i, if i < |t.sections| then t.sections[i].Mid() else "")
  }

  predicate CanPlace(t: Table, s: Section, reuseMid: string) {
    reuseMid != "" ==> CanReplace(t, s, reuseMid)
  }

  function Place(t: Table, s: Section, reuseMid: string): (t': Table)
    requires CanPlace(t, s, reuseMid)
  {
    if reuseMid != "" then Replace(t, s, reuseMid) else Add(t, s)
  }

  // Receive goes by whether there is a closed section, not by its MID.
  predicate CanRecycle(t: Table, s: Section) {
    var i := FirstClosed(t.sections);
    i < |t.sections| ==> CanReplace(t, s, t.sections[i].Mid())
  }

  function Recycle(t: Table, s: Section): (t': Table)
    requires CanRecycle(t, s)
  {
    var i := FirstClosed(t.sections);
    if i < |t.sections| then Replace(t, s, t.sections[i].Mid()) else Add(t, s)
  }

  predicate CanClose(t: Table, mid: string) {
    IndexOf(t, mid) < |t.sections| == |t.media|
  }

  function Close(t: Table, mid: string): (t': Table)
    requires CanClose(t, mid)
  {
    var i := IndexOf(t, mid);
    var s := if mid == t.firstMid then t.sections[i].Disabled() else t.sections[i].Closed();
    var sections := t.sections[i := s];
    t.(sections := sections, midToIndex := Indexed(t, mid), media := t.media[i := s.mediaObject],
       bundle := BundleText(sections))
  }

  // Both updates go over every section and refresh every copy.
  function Objects(sections: seq<Section>): (r: seq<MediaObject>) {
    seq(|sections|, i requires 0 <= i < |sections| => sections[i].mediaObject)
  }

  function UpdateIce(t: Table, ice: IceParameters): (t': Table) {
    var sections := seq(|t.sections|, i requires 0 <= i < |t.sections| => t.sections[i].WithIce(ice));
    t.(ice := ice, iceLite := t.iceLite || ice.iceLite, sections := sections, media := Objects(sections))
  }

  function UpdateRole(t: Table, role: Role): (t': Table) {
    var sections := seq(|t.sections|, i requires 0 <= i < |t.sections| => t.sections[i].WithRole(role));
    t.(role := role, iceLite := t.iceLite || t.ice.iceLite, sections := sections, media := Objects(sections))
  }

  function NextVersion(t: Table): (t': Table) {
    t.(version := (t.version + 1) % UINT32)
  }

  /* Invariant */

  // The MIDs of the open ones among the first n sections.
  function OpenUpTo(sections: seq<Section>, n: nat): (mids: seq<string>)
    requires n <= |sections|
  {
    if n == 0 then []
    else OpenUpTo(sections, n - 1) + (if sections[n - 1].IsClosed() then [] else [sections[n - 1].Mid()])
  }

  function OpenMids(sections: seq<Section>): (mids: seq<string>) {
    OpenUpTo(sections, |sections|)
  }

  ghost predicate GoodMid(mid: string) {
    mid != "" && FreeOf(mid, ' ')
  }

  ghost predicate MidsDistinct(sections: seq<Section>) {
    forall i, j :: 0 <= i < j < |sections| ==> sections[i].Mid() != sections[j].Mid()
  }

  // The index is the inverse of the sections' MIDs.
  ghost predicate IndexInverts(sections: seq<Section>, index: map<string, nat>) {
    && (forall i :: 0 <= i < |sections| ==> sections[i].Mid() in index && index[sections[i].Mid()] == i)
    && (forall mid :: mid in index ==> index[mid] < |sections| && sections[index[mid]].Mid() == mid)
  }

  // The SDP object holds a current copy of every section.
  ghost predicate CopiesAgree(sections: seq<Section>, media: seq<MediaObject>) {
    |media| == |sections| && forall i :: 0 <= i < |sections| ==> media[i] == sections[i].mediaObject
  }

  ghost predicate Inv(t: Table) {
    && CopiesAgree(t.sections, t.media)
    && (forall i :: 0 <= i < |t.sections| ==> GoodMid(t.sections[i].Mid()))
    && MidsDistinct(t.sections)
    && IndexInverts(t.sections, t.midToIndex)
    && (if t.sections == [] then t.firstMid == ""
        else t.sections[0].Mid() == t.firstMid && !t.sections[0].IsClosed())
    && t.bundle == BundleText(t.sections)
  }

  // No section outside `slot` has this MID.
  ghost predicate FreeMid(t: Table, mid: string, slot: nat) {
    GoodMid(mid) && forall i :: 0 <= i < |t.sections| && i != slot ==> t.sections[i].Mid() != mid
  }

  // A section put into slot i, or appended if i is the number of sections.
  function PutAt(t: Table, s: Section, i: nat): (t': Table)
    requires i <= |t.sections|
  {
    var recycled := i < |t.sections|;
    var sections := if recycled then t.sections[i := s] else t.sections + [s];
    t.(firstMid := if t.firstMid == "" then s.Mid() else t.firstMid,
       sections := sections,
       midToIndex := (if recycled then t.midToIndex - {t.sections[i].Mid()} else t.midToIndex)[s.Mid() := i],
       media := if i < |t.media| then t.media[i := s.mediaObject] else t.media + [s.mediaObject],
       bundle := BundleText(sections))
  }

  // Where GetNextMediaSectionIdx and Receive look, a new section goes to the lowest closed slot, or
  // else to the end.
  lemma PlaceIsPutAt(t: Table, s: Section)
    requires Inv(t)
    ensures CanPlace(t, s, NextSlot(t).1)
    ensures Place(t, s, NextSlot(t).1) == PutAt(t, s, FirstClosed(t.sections))
  {
    var i := FirstClosed(t.sections);
    if i < |t.sections| {
      var mid := t.sections[i].Mid();
      assert GoodMid(mid) && t.midToIndex[mid] == i;
      assert Indexed(t, mid) == t.midToIndex;
    }
  }

  // Receive places sections as Send does: no closed section has an empty MID.
  lemma RecycleIsPlace(t: Table, s: Section)
    requires Inv(t)
    ensures CanRecycle(t, s) && CanPlace(t, s, NextSlot(t).1)
    ensures Recycle(t, s) == Place(t, s, NextSlot(t).1)
  {
    PlaceIsPutAt(t, s);
    var i := FirstClosed(t.sections);
    assert i < |t.sections| ==> GoodMid(t.sections[i].Mid());
  }

  lemma AddIsPutAt(t: Table, s: Section)
    requires Inv(t)
    ensures Add(t, s) == PutAt(t, s, |t.sections|)
  {
  }

  lemma PutIndex(t: Table, s: Section, i: nat)
    requires Inv(t) && i <= |t.sections| && FreeMid(t, s.Mid(), i)
    ensures var t' := PutAt(t, s, i); IndexInverts(t'.sections, t'.midToIndex)
  {
    var t' := PutAt(t, s, i);
    forall k | 0 <= k < |t'.sections|
      ensures t'.sections[k].Mid() in t'.midToIndex && t'.midToIndex[t'.sections[k].Mid()] == k
    {
      assert k != i ==> t'.sections[k] == t.sections[k] && t.sections[k].Mid() in t.midToIndex;
    }
    forall mid | mid in t'.midToIndex
      ensures t'.midToIndex[mid] < |t'.sections| && t'.sections[t'.midToIndex[mid]].Mid() == mid
    {
      assert mid != s.Mid() ==> mid in t.midToIndex && t.midToIndex[mid] != i;
    }
  }

  lemma PutAtKeepsInvIf(t: Table, s: Section, i: nat)
    requires Inv(t) && !s.IsClosed() && i <= |t.sections| && (i == 0 ==> t.sections == [])
    requires FreeMid(t, s.Mid(), i)
    ensures Inv(PutAt(t, s, i))
  {
    PutIndex(t, s, i);
  }

  // Putting an open section at the end or into a slot other than slot 0 keeps the invariant
  // exactly when no other section has its MID.
  lemma PutAtKeepsInv(t: Table, s: Section, i: nat)
    requires Inv(t) && !s.IsClosed() && i <= |t.sections| && (i == 0 ==> t.sections == [])
    ensures Inv(PutAt(t, s, i)) <==> FreeMid(t, s.Mid(), i)
  {
    if FreeMid(t, s.Mid(), i) {
      PutAtKeepsInvIf(t, s, i);
    } else {
      var sections := PutAt(t, s, i).sections;
      assert sections[i] == s;
      if GoodMid(s.Mid()) {
        var k :| 0 <= k < |t.sections| && k != i && t.sections[k].Mid() == s.Mid();
        assert sections[k].Mid() == sections[i].Mid();
        assert !MidsDistinct(sections);
      }
    }
  }

  // Closing keeps the invariant exactly when the MID is in the index: for an unknown MID
  // operator[] would invent slot 0.
  lemma CloseKeepsInv(t: Table, mid: string)
    requires Inv(t) && t.sections != []
    ensures CanClose(t, mid)
    ensures Inv(Close(t, mid)) <==> mid in t.midToIndex
    ensures mid !in t.midToIndex ==>
      && Close(t, mid).sections == t.sections[0 := t.sections[0].Closed()]
      && Close(t, mid).midToIndex == t.midToIndex[mid := 0]
  {
    hide GoodMid, BundleUpTo;
    var t', i := Close(t, mid), IndexOf(t, mid);
    assert forall k :: 0 <= k < |t.sections| ==> t'.sections[k].Mid() == t.sections[k].Mid();
    if mid in t.midToIndex {
      assert Indexed(t, mid) == t.midToIndex;
    } else {
      assert mid in t'.midToIndex && t.sections[0].Mid() in t.midToIndex;
    }
  }

  // DisableMediaSection changes the section but not its copy in the SDP object.
  function DisableOnly(t: Table, mid: string): (t': Table)
    requires CanClose(t, mid)
  {
    var i := IndexOf(t, mid);
    t.(sections := t.sections[i := t.sections[i].Disabled()], midToIndex := Indexed(t, mid))
  }

  // So it breaks the agreement unless the section was disabled already. Nothing calls it.
  lemma DisableOnlyBreaksCopy(t: Table, mid: string)
    requires Inv(t) && mid in t.midToIndex
    ensures CanClose(t, mid)
    ensures Inv(DisableOnly(t, mid)) <==> t.sections[t.midToIndex[mid]].Disabled() == t.sections[t.midToIndex[mid]]
  {
    var t', i := DisableOnly(t, mid), t.midToIndex[mid];
    assert Indexed(t, mid) == t.midToIndex;
    assert t'.sections[i] == t.sections[i].Disabled();
    if t.sections[i].Disabled() == t.sections[i] {
      assert t'.sections == t.sections;
    } else {
      assert t'.sections[i].mediaObject != t'.media[i];
    }
  }

  lemma UpdateKeepsInv(t: Table, t': Table)
    requires Inv(t) && SameShape(t.sections, t'.sections)
    requires t' == t.(ice := t'.ice, role := t'.role, iceLite := t'.iceLite, sections := t'.sections,
                      media := Objects(t'.sections))
    ensures Inv(t')
  {
    SameBundle(t.sections, t'.sections);
  }

  lemma UpdateIceKeepsInv(t: Table, ice: IceParameters)
    requires Inv(t)
    ensures SameShape(t.sections, UpdateIce(t, ice).sections) && Inv(UpdateIce(t, ice))
  {
    UpdateKeepsInv(t, UpdateIce(t, ice));
  }

  lemma UpdateRoleKeepsInv(t: Table, role: Role)
    requires Inv(t)
    ensures SameShape(t.sections, UpdateRole(t, role).sections) && Inv(UpdateRole(t, role))
  {
    UpdateKeepsInv(t, UpdateRole(t, role));
  }

  ghost predicate SameShape(a: seq<Section>, b: seq<Section>) {
    |a| == |b| && forall i :: 0 <= i < |a| ==> a[i].Mid() == b[i].Mid() && (a[i].IsClosed() <==> b[i].IsClosed())
  }

  lemma {:induction false} SameUpTo(a: seq<Section>, b: seq<Section>, n: nat)
    requires n <= |a| && n <= |b|
    requires forall i :: 0 <= i < n ==> a[i].Mid() == b[i].Mid() && (a[i].IsClosed() <==> b[i].IsClosed())
    ensures BundleUpTo(a, n) == BundleUpTo(b, n) && OpenUpTo(a, n) == OpenUpTo(b, n)
    ensures ClosedUpTo(a, n) == ClosedUpTo(b, n)
  {
    if n > 0 {
      SameUpTo(a, b, n - 1);
    }
  }

  lemma SameBundle(a: seq<Section>, b: seq<Section>)
    requires SameShape(a, b)
    ensures BundleText(a) == BundleText(b) && OpenMids(a) == OpenMids(b) && FirstClosed(a) == FirstClosed(b)
  {
    SameUpTo(a, b, |a|);
  }

  // The BUNDLE text joins the MIDs of the open sections.
  lemma {:induction false} BundleJoinsOpenMids(sections: seq<Section>, n: nat)
    requires n <= |sections|
    requires forall i :: 0 <= i < |sections| ==> GoodMid(sections[i].Mid())
    ensures BundleUpTo(sections, n) == Joined(OpenUpTo(sections, n), ' ')
    ensures BundleUpTo(sections, n) == "" <==> OpenUpTo(sections, n) == []
  {
    assert Joined([], ' ') == "";
    hide Joined, FreeOf;
    if n > 0 {
      BundleJoinsOpenMids(sections, n - 1);
      if sections[n - 1].IsClosed() {
        assert OpenUpTo(sections, n) == OpenUpTo(sections, n - 1);
      } else {
        JoinedSnoc(OpenUpTo(sections, n - 1), sections[n - 1].Mid(), ' ');
      }
    }
  }

  lemma {:induction false} OpenMidsAreGood(sections: seq<Section>, n: nat)
    requires n <= |sections|
    requires forall i :: 0 <= i < |sections| ==> GoodMid(sections[i].Mid())
    ensures forall i :: 0 <= i < |OpenUpTo(sections, n)| ==> GoodMid(OpenUpTo(sections, n)[i])
  {
    hide FreeOf;
    if n > 0 {
      OpenMidsAreGood(sections, n - 1);
    }
  }

  // Splitting the BUNDLE text on spaces gives exactly the MIDs of the open sections in slot order.
  lemma BundleTokens(t: Table)
    requires Inv(t)
    ensures Tokens(t.bundle, ' ') == OpenMids(t.sections)
  {
    BundleJoinsOpenMids(t.sections, |t.sections|);
    OpenMidsAreGood(t.sections, |t.sections|);
    SplitUndoesJoin(OpenMids(t.sections), ' ');
    var mids := OpenMids(t.sections);
    assert AllFreeOf(mids, ' ') by {
      assert forall i :: 0 <= i < |mids| ==> GoodMid(mids[i]);
    }
  }
}
