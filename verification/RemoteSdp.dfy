/** The RemoteSdp object and its media sections, as updated in place. */
module RemoteSdp {

  import opened Common
  import opened SdpTable

  class MediaSection {
    const answer: bool
    var mediaObject: MediaObject

    ghost function View(): Section
      reads this
    {
      Section(answer, mediaObject)
    }

    constructor Answer(ice: IceParameters, role: Role, offer: Description)
      ensures View() == NewAnswer(ice, role, offer)
    {
      answer := true;
      mediaObject := MediaObject(offer.mid, offer.kind, 7, NoDirection, NoSetup, ice.usernameFragment, ice.password,
                                 map[]);
      new;
      if role == Client {
        mediaObject := mediaObject.(setup := Active);
      } else if role == Server {
        mediaObject := mediaObject.(setup := Passive);
      } else if role == Auto {
        mediaObject := mediaObject.(setup := ActPass);
      }
      if offer.kind == Audio || offer.kind == Video {
        mediaObject := mediaObject.(direction := RecvOnly, attributes := offer.attributes);
      }
    }

    constructor Offer(ice: IceParameters, d: Description)
      ensures View() == NewOffer(ice, d)
    {
      answer := false;
      mediaObject := MediaObject(d.mid, d.kind, 7, NoDirection, ActPass, ice.usernameFragment, ice.password, map[]);
      new;
      if d.kind == Audio || d.kind == Video {
        mediaObject := mediaObject.(direction := SendOnly, attributes := d.attributes);
      }
    }

    function GetMid(): (mid: string)
      reads this
    {
      mediaObject.mid
    }

    predicate IsClosed()
      reads this
    {
      mediaObject.port == 0
    }

    method SetIceParameters(ice: IceParameters)
      modifies this
      ensures View() == old(View()).WithIce(ice)
    {
      mediaObject := mediaObject.(iceUfrag := ice.usernameFragment, icePwd := ice.password);
    }

    method SetDtlsRole(role: Role)
      modifies this
      ensures View() == old(View()).WithRole(role)
    {
      if !answer {
        mediaObject := mediaObject.(setup := ActPass);
      } else if role == Client {
        mediaObject := mediaObject.(setup := Active);
      } else if role == Server {
        mediaObject := mediaObject.(setup := Passive);
      } else if role == Auto {
        mediaObject := mediaObject.(setup := ActPass);
      }
    }

    method Disable()
      modifies this
      ensures View() == old(View()).Disabled()
    {
      mediaObject := mediaObject.(direction := Inactive);
      mediaObject := mediaObject.(attributes := mediaObject.attributes - {Ext, Ssrcs, SsrcGroups, Simulcast, Rids});
    }

    method Close()
      modifies this
      ensures View() == old(View()).Closed()
    {
      mediaObject := mediaObject.(direction := Inactive, port := 0);
      var erased := {Ext, Ssrcs, SsrcGroups, Simulcast, Rids, ExtmapAllowMixed};
      mediaObject := mediaObject.(attributes := mediaObject.attributes - erased);
    }
  }

  ghost function Views(sections: seq<MediaSection>): (r: seq<Section>)
    reads sections
    ensures |r| == |sections| && forall i :: 0 <= i < |r| ==> r[i] == sections[i].View()
  {
    seq(|sections|, i requires 0 <= i < |sections| reads sections => sections[i].View())
  }

  class RemoteSdp {
    var iceParameters: IceParameters
    var dtlsRole: Role
    var mediaSections: seq<MediaSection>
    var midToIndex: map<string, nat>
    var firstMid: string
    // Members of the SDP object.
    var media: seq<MediaObject>
    var bundleMids: string
    var sessionVersion: nat
    var iceLite: bool

    // Every slot has a section of its own and an entry in the SDP object.
    ghost predicate Valid()
      reads this
    {
      && |media| == |mediaSections|
      && forall i, j :: 0 <= i < j < |mediaSections| ==> mediaSections[i] != mediaSections[j]
    }

    ghost function View(): (t: Table)
      reads this, mediaSections
    {
      Table(iceParameters, dtlsRole, Views(mediaSections), midToIndex, firstMid, media, bundleMids, sessionVersion,
            iceLite)
    }

    constructor (ice: IceParameters, role: Role)
      ensures Valid() && mediaSections == []
      ensures View() == Empty(ice, role)
    {
      iceParameters, dtlsRole := ice, role;
      mediaSections, midToIndex, firstMid := [], map[], "";
      media, bundleMids, sessionVersion := [], "", 0;
      iceLite := ice.iceLite;
    }

    method UpdateIceParameters(ice: IceParameters)
      requires Valid()
      modifies this, mediaSections
      ensures Valid() && mediaSections == old(mediaSections)
      ensures View() == UpdateIce(old(View()), ice)
    {
      iceParameters := ice;
      if ice.iceLite {
        iceLite := true;
      }
      RefreshIce(ice);
      assert Views(mediaSections) == UpdateIce(old(View()), ice).sections;
      assert media == Objects(Views(mediaSections));
    }

    method RefreshIce(ice: IceParameters)
      requires Valid()
      modifies `media, mediaSections
      ensures Valid()
      ensures forall k :: 0 <= k < |mediaSections| ==>
        mediaSections[k].View() == old(mediaSections[k].View()).WithIce(ice) && media[k] == mediaSections[k].mediaObject
    {
      for idx := 0 to |mediaSections|
        invariant Valid()
        invariant forall k :: 0 <= k < idx ==> mediaSections[k].View() == old(mediaSections[k].View()).WithIce(ice)
        invariant forall k :: 0 <= k < idx ==> media[k] == mediaSections[k].mediaObject
        invariant forall k :: idx <= k < |mediaSections| ==> mediaSections[k].View() == old(mediaSections[k].View())
      {
        mediaSections[idx].SetIceParameters(ice);
        media := media[idx := mediaSections[idx].mediaObject];
      }
    }

    method UpdateDtlsRole(role: Role)
      requires Valid()
      modifies this, mediaSections
      ensures Valid() && mediaSections == old(mediaSections)
      ensures View() == UpdateRole(old(View()), role)
    {
      dtlsRole := role;
      if iceParameters.iceLite {
        iceLite := true;
      }
      RefreshRole(role);
      assert Views(mediaSections) == UpdateRole(old(View()), role).sections;
      assert media == Objects(Views(mediaSections));
    }

    method RefreshRole(role: Role)
      requires Valid()
      modifies `media, mediaSections
      ensures Valid()
      ensures forall k :: 0 <= k < |mediaSections| ==>
        && mediaSections[k].View() == old(mediaSections[k].View()).WithRole(role)
        && media[k] == mediaSections[k].mediaObject
    {
      for idx := 0 to |mediaSections|
        invariant Valid()
        invariant forall k :: 0 <= k < idx ==> mediaSections[k].View() == old(mediaSections[k].View()).WithRole(role)
        invariant forall k :: 0 <= k < idx ==> media[k] == mediaSections[k].mediaObject
        invariant forall k :: idx <= k < |mediaSections| ==> mediaSections[k].View() == old(mediaSections[k].View())
      {
        mediaSections[idx].SetDtlsRole(role);
        media := media[idx := mediaSections[idx].mediaObject];
      }
    }

    method GetNextMediaSectionIdx() returns (idx: nat, reuseMid: string)
      ensures (idx, reuseMid) == NextSlot(View())
    {
      idx := FindClosed();
      if idx < |mediaSections| {
        reuseMid := mediaSections[idx].GetMid();
      } else {
        reuseMid := "";
      }
    }

    // The loop of GetNextMediaSectionIdx and the find_if of Receive.
    method FindClosed() returns (idx: nat)
      ensures idx == FirstClosed(Views(mediaSections))
    {
      idx := 0;
      while idx < |mediaSections| && !mediaSections[idx].IsClosed()
        invariant idx <= |mediaSections|
        invariant forall k :: 0 <= k < idx ==> !mediaSections[k].IsClosed()
      {
        idx := idx + 1;
      }
    }

    method Send(offer: Description, reuseMid: string)
      requires Valid() && CanPlace(View(), NewAnswer(iceParameters, dtlsRole, offer), reuseMid)
      modifies this
      ensures Valid() && forall s :: s in mediaSections ==> s in old(mediaSections) || fresh(s)
      ensures View() == old(Place(View(), NewAnswer(iceParameters, dtlsRole, offer), reuseMid))
    {
      var section := new MediaSection.Answer(iceParameters, dtlsRole, offer);
      if reuseMid != "" {
        ReplaceMediaSection(section, reuseMid);
      } else {
        AddMediaSection(section);
      }
    }

    method SendSctpAssociation(offer: Description)
      requires Valid()
      modifies this
      ensures Valid() && forall s :: s in mediaSections ==> s in old(mediaSections) || fresh(s)
      ensures View() == old(Add(View(), NewAnswer(iceParameters, dtlsRole, offer)))
    {
      var section := new MediaSection.Answer(iceParameters, dtlsRole, offer);
      AddMediaSection(section);
    }

    method RecvSctpAssociation()
      requires Valid()
      modifies this
      ensures Valid() && forall s :: s in mediaSections ==> s in old(mediaSections) || fresh(s)
      ensures View() == old(Add(View(), NewOffer(iceParameters, Description("datachannel", Application, map[]))))
    {
      var section := new MediaSection.Offer(iceParameters, Description("datachannel", Application, map[]));
      AddMediaSection(section);
    }

    method Receive(d: Description)
      requires Valid() && CanRecycle(View(), NewOffer(iceParameters, d))
      modifies this
      ensures Valid() && forall s :: s in mediaSections ==> s in old(mediaSections) || fresh(s)
      ensures View() == old(Recycle(View(), NewOffer(iceParameters, d)))
    {
      var section := new MediaSection.Offer(iceParameters, d);
      var idx := FindClosed();
      if idx < |mediaSections| {
        ReplaceMediaSection(section, mediaSections[idx].GetMid());
      } else {
        AddMediaSection(section);
      }
    }

    method CloseMediaSection(mid: string)
      requires Valid() && CanClose(View(), mid)
      modifies this, mediaSections
      ensures Valid() && mediaSections == old(mediaSections)
      ensures View() == Close(old(View()), mid)
    {
      if mid !in midToIndex {
        midToIndex := midToIndex[mid := 0];
      }
      StopSlot(midToIndex[mid], mid == firstMid);
      RegenerateBundleMids();
    }

    // The section and its copy.
    method StopSlot(idx: nat, first: bool)
      requires Valid() && idx < |mediaSections|
      modifies `media, mediaSections
      ensures Valid()
      ensures var before := old(View());
        var s := if first then before.sections[idx].Disabled() else before.sections[idx].Closed();
        View() == before.(sections := before.sections[idx := s], media := before.media[idx := s.mediaObject])
    {
      if first {
        mediaSections[idx].Disable();
      } else {
        mediaSections[idx].Close();
      }
      media := media[idx := mediaSections[idx].mediaObject];
      assert Views(mediaSections) == old(Views(mediaSections))[idx := mediaSections[idx].View()];
    }

    // Unlike CloseMediaSection this leaves the copy in the SDP object alone. Nothing calls it.
    method DisableMediaSection(mid: string)
      requires Valid() && CanClose(View(), mid)
      modifies this, mediaSections
      ensures Valid() && mediaSections == old(mediaSections)
      ensures View() == DisableOnly(old(View()), mid)
    {
      ghost var before := View();
      if mid !in midToIndex {
        midToIndex := midToIndex[mid := 0];
      }
      var idx := midToIndex[mid];
      mediaSections[idx].Disable();
      assert Views(mediaSections) == DisableOnly(before, mid).sections;
    }

    // The text itself is written by sdptransform.
    method GetSdp()
      modifies `sessionVersion
      ensures View() == NextVersion(old(View()))
    {
      sessionVersion := (sessionVersion + 1) % UINT32;
    }

    method AddMediaSection(section: MediaSection)
      requires Valid() && section !in mediaSections
      modifies this
      ensures Valid() && mediaSections == old(mediaSections) + [section]
      ensures View() == old(Add(View(), section.View()))
    {
      ghost var before := View();
      if firstMid == "" {
        firstMid := section.GetMid();
      }
      mediaSections := mediaSections + [section];
      midToIndex := midToIndex[section.GetMid() := |mediaSections| - 1];
      media := media + [section.mediaObject];
      assert Views(mediaSections) == before.sections + [section.View()];
      assert View() == Add(before, section.View()).(bundle := before.bundle);
      RegenerateBundleMids();
    }

    method ReplaceMediaSection(section: MediaSection, reuseMid: string)
      requires Valid() && section !in mediaSections && CanReplace(View(), section.View(), reuseMid)
      modifies this
      ensures Valid() && forall s :: s in mediaSections ==> s in old(mediaSections) || s == section
      ensures View() == old(Replace(View(), section.View(), reuseMid))
    {
      if reuseMid != "" {
        ReuseSlot(section, reuseMid);
      } else {
        OverwriteOwnSlot(section);
      }
    }

    method ReuseSlot(section: MediaSection, reuseMid: string)
      requires Valid() && section !in mediaSections && CanReplace(View(), section.View(), reuseMid) && reuseMid != ""
      modifies this
      ensures Valid() && forall s :: s in mediaSections ==> s in old(mediaSections) || s == section
      ensures View() == old(Replace(View(), section.View(), reuseMid))
    {
      ghost var before := View();
      if reuseMid !in midToIndex {
        midToIndex := midToIndex[reuseMid := 0];
      }
      var idx := midToIndex[reuseMid];
      var oldSection := mediaSections[idx];
      midToIndex := midToIndex - {oldSection.GetMid()};
      midToIndex := midToIndex[section.GetMid() := idx];
      assert midToIndex == Replace(before, section.View(), reuseMid).midToIndex;
      FillSlot(idx, section);
      assert View() == Replace(before, section.View(), reuseMid).(bundle := before.bundle);
      RegenerateBundleMids();
    }

    // The section and its copy.
    method FillSlot(idx: nat, section: MediaSection)
      requires Valid() && section !in mediaSections && idx < |mediaSections|
      modifies `mediaSections, `media
      ensures Valid() && forall s :: s in mediaSections ==> s in old(mediaSections) || s == section
      ensures View()
           == old(View().(sections := View().sections[idx := section.View()],
                          media := View().media[idx := section.mediaObject]))
    {
      mediaSections := mediaSections[idx := section];
      media := media[idx := section.mediaObject];
      assert Views(mediaSections) == old(Views(mediaSections))[idx := section.View()];
    }

    method OverwriteOwnSlot(section: MediaSection)
      requires Valid() && section !in mediaSections && CanReplace(View(), section.View(), "")
      modifies this
      ensures Valid() && forall s :: s in mediaSections ==> s in old(mediaSections) || s == section
      ensures View() == old(Replace(View(), section.View(), ""))
    {
      ghost var before := View();
      if section.GetMid() !in midToIndex {
        midToIndex := midToIndex[section.GetMid() := 0];
      }
      var idx := midToIndex[section.GetMid()];
      mediaSections := mediaSections[idx := section];
      media := media[|mediaSections| - 1 := section.mediaObject];
      assert Views(mediaSections) == before.sections[idx := section.View()];
    }

    method RegenerateBundleMids()
      modifies `bundleMids
      ensures View() == old(View().(bundle := BundleText(View().sections)))
    {
      var mids := "";
      for i := 0 to |mediaSections|
        invariant mids == BundleUpTo(Views(mediaSections), i)
      {
        if !mediaSections[i].IsClosed() {
          if mids == "" {
            mids := mediaSections[i].GetMid();
          } else {
            mids := mids + " " + mediaSections[i].GetMid();
          }
        }
      }
      bundleMids := mids;
      assert Views(mediaSections) == old(Views(mediaSections));
    }
  }
}
