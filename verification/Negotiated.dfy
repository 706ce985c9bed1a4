/** What the extended capabilities contain. */
module Negotiated {

  import opened Common
  import opened Text
  import opened Rtp
  import opened Validation
  import opened Ortc

  /* The first match */

  ghost predicate MatchesAt(answer: H264Answer, locals: seq<Codec>, remote: Codec, i: nat) {
    i < |locals| && Match(answer, locals[i], remote).Ok? && !Match(answer, locals[i], remote).value.Differ?
  }

  // If the search does not throw, it stops at the first matching local codec or finds that there is
  // none.
  lemma {:induction false} FirstMatchMeaning(answer: H264Answer, locals: seq<Codec>, remote: Codec, from: nat)
    requires from <= |locals| && FirstMatch(answer, locals, remote, from).Ok?
    ensures var found := FirstMatch(answer, locals, remote, from).value;
      if found.None? then forall k :: from <= k < |locals| ==> !MatchesAt(answer, locals, remote, k)
      else
        && MatchesAt(answer, locals, remote, found.value.0)
        && Match(answer, locals[found.value.0], remote) == Ok(found.value.1)
        && forall k :: from <= k < found.value.0 ==> !MatchesAt(answer, locals, remote, k)
    decreases |locals| - from
  {
    if from < |locals| {
      var m := Match(answer, locals[from], remote);
      if m.value.Differ? {
        FirstMatchMeaning(answer, locals, remote, from + 1);
        assert !MatchesAt(answer, locals, remote, from);
      } else {
        assert MatchesAt(answer, locals, remote, from);
      }
    }
  }

  /* The first pass is a filter. */

  // The local codecs when it is the turn of remote codec j: matching H264 codecs has rewritten some.
  function LocalsAt(answer: H264Answer, locals: seq<Codec>, remotes: seq<Codec>, j: nat): (r: seq<Codec>)
    requires j <= |remotes|
    ensures |r| == |locals|
  {
    var r := ExtendUpTo(answer, locals, remotes, j);
    if r.Ok? then r.value.0 else locals
  }

  // The remote codecs that are kept: neither RTX nor without a matching local codec.
  ghost predicate IsKept(answer: H264Answer, locals: seq<Codec>, remote: Codec) {
    !IsRtx(remote.mimeType) && exists i: nat :: MatchesAt(answer, locals, remote, i)
  }

  ghost predicate IsKeptAt(answer: H264Answer, locals: seq<Codec>, remotes: seq<Codec>, j: nat) {
    j < |remotes| && IsKept(answer, LocalsAt(answer, locals, remotes, j), remotes[j])
  }

  // Their positions among the first n.
  ghost function Kept(answer: H264Answer, locals: seq<Codec>, remotes: seq<Codec>, n: nat): (r: seq<nat>)
    requires n <= |remotes|
    ensures forall k :: 0 <= k < |r| ==> r[k] < n && IsKeptAt(answer, locals, remotes, r[k])
    ensures forall k, l :: 0 <= k < l < |r| ==> r[k] < r[l]
    ensures forall j :: 0 <= j < n && IsKeptAt(answer, locals, remotes, j) ==> j in r
  {
    if n == 0 then []
    else Kept(answer, locals, remotes, n - 1) + (if IsKeptAt(answer, locals, remotes, n - 1) then [n - 1] else [])
  }

  // Entry e pairs the remote codec with the first local codec that matches it.
  ghost predicate PairsFirstMatch(answer: H264Answer, locals: seq<Codec>, remote: Codec, e: ExtendedCodec) {
    exists i: nat ::
      && MatchesAt(answer, locals, remote, i)
      && (forall k :: 0 <= k < i ==> !MatchesAt(answer, locals, remote, k))
      && var m := Match(answer, locals[i], remote).value;
         e == Extend(Adjusted(locals[i], m), Adjusted(remote, m))
  }

  // One remote codec: kept with its first match, or skipped.
  lemma OneRemote(answer: H264Answer, locals: seq<Codec>, done: seq<ExtendedCodec>, remote: Codec)
    requires ExtendOne(answer, locals, done, remote).Ok?
    ensures var media := ExtendOne(answer, locals, done, remote).value.1;
      if IsKept(answer, locals, remote) then
        |media| == |done| + 1 && media[..|done|] == done && PairsFirstMatch(answer, locals, remote, media[|done|])
      else media == done
  {
    if !IsRtx(remote.mimeType) {
      FirstMatchMeaning(answer, locals, remote, 0);
      var found := FirstMatch(answer, locals, remote, 0).value;
      if found.Some? {
        var (i, m) := found.value;
        assert MatchesAt(answer, locals, remote, i) && Match(answer, locals[i], remote).value == m;
        assert PairsFirstMatch(answer, locals, remote, Extend(Adjusted(locals[i], m), Adjusted(remote, m)));
      }
    }
  }

  ghost predicate AllPaired(answer: H264Answer, locals: seq<Codec>, remotes: seq<Codec>, kept: seq<nat>,
                            media: seq<ExtendedCodec>) {
    && |media| == |kept|
    && forall k :: 0 <= k < |kept| ==>
         && kept[k] < |remotes|
         && PairsFirstMatch(answer, LocalsAt(answer, locals, remotes, kept[k]), remotes[kept[k]], media[k])
  }

  lemma OneMorePaired(answer: H264Answer, locals: seq<Codec>, remotes: seq<Codec>, kept: seq<nat>,
                      media: seq<ExtendedCodec>, n: nat, media': seq<ExtendedCodec>)
    requires AllPaired(answer, locals, remotes, kept, media) && n < |remotes|
    requires |media'| == |media| + 1 && media'[..|media|] == media
    requires PairsFirstMatch(answer, LocalsAt(answer, locals, remotes, n), remotes[n], media'[|media|])
    ensures AllPaired(answer, locals, remotes, kept + [n], media')
  {
    hide PairsFirstMatch, LocalsAt;
    assert forall k :: 0 <= k < |media| ==> media'[k] == media'[..|media|][k];
  }

  ghost predicate Filtered(answer: H264Answer, locals: seq<Codec>, remotes: seq<Codec>, n: nat)
    requires n <= |remotes|
  {
    ExtendUpTo(answer, locals, remotes, n).Ok? ==>
      AllPaired(answer, locals, remotes, Kept(answer, locals, remotes, n),
                ExtendUpTo(answer, locals, remotes, n).value.1)
  }

  lemma NextFiltered(answer: H264Answer, locals: seq<Codec>, remotes: seq<Codec>, n: nat)
    requires n < |remotes| && Filtered(answer, locals, remotes, n)
    ensures Filtered(answer, locals, remotes, n + 1)
  {
    hide ExtendOne, PairsFirstMatch, AllPaired, IsKept;
    if ExtendUpTo(answer, locals, remotes, n + 1).Ok? {
      var (before, done) := ExtendUpTo(answer, locals, remotes, n).value;
      OneRemote(answer, before, done, remotes[n]);
      if IsKeptAt(answer, locals, remotes, n) {
        OneMorePaired(answer, locals, remotes, Kept(answer, locals, remotes, n), done, n,
                      ExtendOne(answer, before, done, remotes[n]).value.1);
      } else {
        assert Kept(answer, locals, remotes, n + 1) == Kept(answer, locals, remotes, n);
      }
    }
  }

  lemma {:induction false} AllFiltered(answer: H264Answer, locals: seq<Codec>, remotes: seq<Codec>, n: nat)
    requires n <= |remotes|
    ensures Filtered(answer, locals, remotes, n)
  {
    if n > 0 {
      hide Filtered;
      AllFiltered(answer, locals, remotes, n - 1);
      NextFiltered(answer, locals, remotes, n - 1);
    }
  }

  // The in-place nested loop computes: exactly the remote codecs that are not RTX and have a match among
  // the local codecs as rewritten so far, in remote order, each with its first match.
  lemma FirstPassIsFilter(answer: H264Answer, locals: seq<Codec>, remotes: seq<Codec>, n: nat)
    requires n <= |remotes| && ExtendUpTo(answer, locals, remotes, n).Ok?
    ensures AllPaired(answer, locals, remotes, Kept(answer, locals, remotes, n),
                      ExtendUpTo(answer, locals, remotes, n).value.1)
  {
    hide ExtendUpTo, Kept, AllPaired;
    AllFiltered(answer, locals, remotes, n);
  }

  predicate NoH264(codecs: seq<Codec>) {
    forall i :: 0 <= i < |codecs| ==> Lower(codecs[i].mimeType) != "video/h264"
  }

  lemma OnePlainRemote(answer: H264Answer, locals: seq<Codec>, done: seq<ExtendedCodec>, remote: Codec)
    requires NoH264(locals) && ExtendOne(answer, locals, done, remote).Ok?
    ensures ExtendOne(answer, locals, done, remote).value.0 == locals
  {
    if !IsRtx(remote.mimeType) {
      FirstMatchMeaning(answer, locals, remote, 0);
      var found := FirstMatch(answer, locals, remote, 0).value;
      if found.Some? {
        assert found.value.1 == Same && locals[found.value.0 := locals[found.value.0]] == locals;
      }
    }
  }

  // Without H264 the local codecs are left alone, so all matching is against them as they were given.
  lemma {:induction false} LocalsStay(answer: H264Answer, locals: seq<Codec>, remotes: seq<Codec>, j: nat)
    requires j <= |remotes| && NoH264(locals)
    ensures LocalsAt(answer, locals, remotes, j) == locals
  {
    if j > 0 {
      LocalsStay(answer, locals, remotes, j - 1);
      var before := ExtendUpTo(answer, locals, remotes, j - 1);
      if ExtendUpTo(answer, locals, remotes, j).Ok? {
        OnePlainRemote(answer, before.value.0, before.value.1, remotes[j - 1]);
      }
    }
  }

  /* When negotiation throws */

  // A parameter that is there but cannot be read as text: validation lets null pass.
  predicate Unreadable(c: Codec, key: string) {
    key in c.parameters && (c.parameters[key].Null? || c.parameters[key].Other?)
  }

  // Comparing two codecs throws exactly if all else agrees and a profile cannot be read.
  lemma MatchThrows(answer: H264Answer, a: Codec, b: Codec)
    ensures Match(answer, a, b).Throws? <==>
      && Lower(a.mimeType) == Lower(b.mimeType) && a.clockRate == b.clockRate && a.channels == b.channels
      && (if Lower(a.mimeType) == "video/h264" then
            && ByteOf(a.parameters, "packetization-mode") == ByteOf(b.parameters, "packetization-mode")
            && (Unreadable(a, "profile-level-id") || Unreadable(b, "profile-level-id"))
          else
            && Lower(a.mimeType) == "video/vp9"
            && (Unreadable(a, "profile-id") || Unreadable(b, "profile-id")))
  {
  }

  // They match exactly if all else agrees, the profiles can be read, and those of H264 are compatible and
  // those of VP9 are the same text.
  lemma MatchMeaning(answer: H264Answer, a: Codec, b: Codec)
    ensures Match(answer, a, b).Ok? && !Match(answer, a, b).value.Differ? <==>
      && Lower(a.mimeType) == Lower(b.mimeType) && a.clockRate == b.clockRate && a.channels == b.channels
      && (Lower(a.mimeType) == "video/h264" ==>
            && ByteOf(a.parameters, "packetization-mode") == ByteOf(b.parameters, "packetization-mode")
            && !Unreadable(a, "profile-level-id") && !Unreadable(b, "profile-level-id")
            && answer(H264Of(a), H264Of(b)).Some?)
      && (Lower(a.mimeType) == "video/vp9" ==>
            && !Unreadable(a, "profile-id") && !Unreadable(b, "profile-id")
            && TextOf(a.parameters, "profile-id", "0") == TextOf(b.parameters, "profile-id", "0"))
  {
    assert |"video/h264"| != |"video/vp9"|;
  }

  // What libwebrtc is asked about.
  function H264Of(c: Codec): (p: H264) {
    var id := TextOf(c.parameters, "profile-level-id", "");
    H264(ByteOf(c.parameters, "level-asymmetry-allowed"), ByteOf(c.parameters, "packetization-mode"),
         if id.Ok? then id.value else "")
  }

  // The search for a remote codec reaches a local one it cannot be compared with before any match.
  ghost predicate SearchBlocked(answer: H264Answer, locals: seq<Codec>, remote: Codec, i: nat) {
    && i < |locals| && Match(answer, locals[i], remote).Throws?
    && forall k :: 0 <= k < i ==> Match(answer, locals[k], remote) == Ok(Differ)
  }

  lemma {:induction false} FirstMatchThrows(answer: H264Answer, locals: seq<Codec>, remote: Codec, from: nat)
    requires from <= |locals| && forall k :: 0 <= k < from ==> Match(answer, locals[k], remote) == Ok(Differ)
    ensures FirstMatch(answer, locals, remote, from).Throws?
       <==> exists i: nat :: SearchBlocked(answer, locals, remote, i)
    decreases |locals| - from
  {
    if from < |locals| {
      var m := Match(answer, locals[from], remote);
      if m.Throws? {
        assert SearchBlocked(answer, locals, remote, from);
      } else if m.value.Differ? {
        FirstMatchThrows(answer, locals, remote, from + 1);
      }
    }
  }

  ghost predicate BlockedAt(answer: H264Answer, locals: seq<Codec>, remotes: seq<Codec>, j: nat) {
    j < |remotes| && Blocked(answer, LocalsAt(answer, locals, remotes, j), remotes[j])
  }

  ghost predicate Blocked(answer: H264Answer, locals: seq<Codec>, remote: Codec) {
    !IsRtx(remote.mimeType) && exists i: nat :: SearchBlocked(answer, locals, remote, i)
  }

  lemma OneThrows(answer: H264Answer, locals: seq<Codec>, done: seq<ExtendedCodec>, remote: Codec)
    ensures ExtendOne(answer, locals, done, remote).Throws? <==> Blocked(answer, locals, remote)
  {
    FirstMatchThrows(answer, locals, remote, 0);
  }

  lemma NextThrows(answer: H264Answer, locals: seq<Codec>, remotes: seq<Codec>, n: nat)
    requires n < |remotes| && ExtendUpTo(answer, locals, remotes, n).Ok?
    ensures ExtendUpTo(answer, locals, remotes, n + 1).Throws? <==> BlockedAt(answer, locals, remotes, n)
  {
    var (before, done) := ExtendUpTo(answer, locals, remotes, n).value;
    OneThrows(answer, before, done, remotes[n]);
  }

  // One of the first n searches is blocked.
  ghost predicate BlockedBefore(answer: H264Answer, locals: seq<Codec>, remotes: seq<Codec>, n: nat) {
    n > 0 && (BlockedBefore(answer, locals, remotes, n - 1) || BlockedAt(answer, locals, remotes, n - 1))
  }

  lemma {:induction false} BlockedLater(answer: H264Answer, locals: seq<Codec>, remotes: seq<Codec>, n: nat, j: nat)
    requires j < n && BlockedAt(answer, locals, remotes, j)
    ensures BlockedBefore(answer, locals, remotes, n)
  {
    if j < n - 1 {
      BlockedLater(answer, locals, remotes, n - 1, j);
    }
  }

  lemma {:induction false} BlockedSomewhere(answer: H264Answer, locals: seq<Codec>, remotes: seq<Codec>, n: nat)
    returns (j: nat)
    requires BlockedBefore(answer, locals, remotes, n)
    ensures j < n && BlockedAt(answer, locals, remotes, j)
  {
    if BlockedAt(answer, locals, remotes, n - 1) {
      j := n - 1;
    } else {
      j := BlockedSomewhere(answer, locals, remotes, n - 1);
    }
  }

  lemma BlockedMeaning(answer: H264Answer, locals: seq<Codec>, remotes: seq<Codec>, n: nat)
    ensures BlockedBefore(answer, locals, remotes, n)
       <==> exists j: nat :: j < n && BlockedAt(answer, locals, remotes, j)
  {
    if BlockedBefore(answer, locals, remotes, n) {
      var j := BlockedSomewhere(answer, locals, remotes, n);
    }
    forall j: nat | j < n && BlockedAt(answer, locals, remotes, j) ensures BlockedBefore(answer, locals, remotes, n) {
      BlockedLater(answer, locals, remotes, n, j);
    }
  }

  // The first pass throws exactly if one of the searches is blocked.
  lemma {:induction false} FirstPassThrows(answer: H264Answer, locals: seq<Codec>, remotes: seq<Codec>, n: nat)
    requires n <= |remotes|
    ensures ExtendUpTo(answer, locals, remotes, n).Throws? <==> BlockedBefore(answer, locals, remotes, n)
  {
    if n > 0 {
      FirstPassThrows(answer, locals, remotes, n - 1);
      if ExtendUpTo(answer, locals, remotes, n - 1).Ok? {
        NextThrows(answer, locals, remotes, n - 1);
      }
    }
  }

  ghost predicate Readable(codecs: seq<Codec>) {
    forall i :: 0 <= i < |codecs| ==> !Unreadable(codecs[i], "profile-level-id") && !Unreadable(codecs[i], "profile-id")
  }

  lemma AdjustedReadable(c: Codec, m: Matching)
    requires !Unreadable(c, "profile-level-id") && !Unreadable(c, "profile-id")
    ensures !Unreadable(Adjusted(c, m), "profile-level-id") && !Unreadable(Adjusted(c, m), "profile-id")
  {
    assert |"profile-level-id"| != |"profile-id"|;
  }

  lemma OneReadable(answer: H264Answer, locals: seq<Codec>, done: seq<ExtendedCodec>, remote: Codec)
    requires Readable(locals) && Readable([remote])
    ensures var r := ExtendOne(answer, locals, done, remote); r.Ok? && Readable(r.value.0)
  {
    assert !Unreadable([remote][0], "profile-level-id") && !Unreadable([remote][0], "profile-id");
    forall i | 0 <= i < |locals| ensures Match(answer, locals[i], remote).Ok? {
      MatchThrows(answer, locals[i], remote);
    }
    OneThrows(answer, locals, done, remote);
    var locals' := ExtendOne(answer, locals, done, remote).value.0;
    if locals' != locals {
      var (i, m) := FirstMatch(answer, locals, remote, 0).value.value;
      AdjustedReadable(locals[i], m);
    }
  }

  // Negotiation goes through if every profile can be read.
  lemma {:induction false} ReadableGoesThrough(answer: H264Answer, locals: seq<Codec>, remotes: seq<Codec>, n: nat)
    requires n <= |remotes| && Readable(locals) && Readable(remotes)
    ensures var r := ExtendUpTo(answer, locals, remotes, n); r.Ok? && Readable(r.value.0)
  {
    if n > 0 {
      ReadableGoesThrough(answer, locals, remotes, n - 1);
      var (before, done) := ExtendUpTo(answer, locals, remotes, n - 1).value;
      OneReadable(answer, before, done, remotes[n - 1]);
    }
  }

  /* RTX, with H264 or without */

  // Rewriting for H264 touches one parameter only.
  ghost predicate Alike(c: Codec, c': Codec) {
    && c' == c.(parameters := c'.parameters)
    && Apt(c') == Apt(c)
    && (GoodCodec(c) ==> GoodCodec(c'))
  }

  lemma AdjustedAlike(c: Codec, m: Matching)
    ensures Alike(c, Adjusted(c, m))
  {
  }

  ghost predicate AllAlike(cs: seq<Codec>, cs': seq<Codec>) {
    |cs| == |cs'| && forall i :: 0 <= i < |cs| ==> Alike(cs[i], cs'[i])
  }

  // Every entry was made from a local and a remote codec that match, neither of them RTX.
  ghost predicate MadeFrom(e: ExtendedCodec, locals: seq<Codec>, remotes: seq<Codec>) {
    exists l, r, l', r' :: l in locals && r in remotes && Alike(l, l') && Alike(r, r')
      && Lower(l.mimeType) == Lower(r.mimeType) && l.clockRate == r.clockRate && l.channels == r.channels
      && !IsRtx(r.mimeType) && e == Extend(l', r')
  }

  lemma OneAlike(answer: H264Answer, locals: seq<Codec>, before: seq<Codec>, done: seq<ExtendedCodec>, remote: Codec)
    requires AllAlike(locals, before) && ExtendOne(answer, before, done, remote).Ok?
    ensures AllAlike(locals, ExtendOne(answer, before, done, remote).value.0)
  {
  }

  lemma {:induction false} FirstPassAlike(answer: H264Answer, locals: seq<Codec>, remotes: seq<Codec>, n: nat)
    requires n <= |remotes| && ExtendUpTo(answer, locals, remotes, n).Ok?
    ensures AllAlike(locals, ExtendUpTo(answer, locals, remotes, n).value.0)
  {
    if n == 0 {
      SelfAlike(locals);
    } else {
      FirstPassAlike(answer, locals, remotes, n - 1);
      var (before, done) := ExtendUpTo(answer, locals, remotes, n - 1).value;
      OneAlike(answer, locals, before, done, remotes[n - 1]);
    }
  }

  // The entry one remote codec adds.
  lemma OneMadeFrom(answer: H264Answer, locals: seq<Codec>, before: seq<Codec>, done: seq<ExtendedCodec>,
                    remote: Codec, remotes: seq<Codec>)
    requires AllAlike(locals, before) && remote in remotes && ExtendOne(answer, before, done, remote).Ok?
    ensures var media := ExtendOne(answer, before, done, remote).value.1;
      media == done || (|media| == |done| + 1 && media[..|done|] == done && MadeFrom(media[|done|], locals, remotes))
  {
    var media := ExtendOne(answer, before, done, remote).value.1;
    if media != done {
      FirstMatchMeaning(answer, before, remote, 0);
      var (i, m) := FirstMatch(answer, before, remote, 0).value.value;
      var l', r' := Adjusted(before[i], m), Adjusted(remote, m);
      AdjustedAlike(before[i], m);
      AdjustedAlike(remote, m);
      AlikeTransitive(locals[i], before[i], l');
      assert locals[i] in locals && Alike(locals[i], l') && Alike(remote, r');
      assert media == done + [Extend(l', r')];
    }
  }

  ghost predicate AllMadeFrom(es: seq<ExtendedCodec>, locals: seq<Codec>, remotes: seq<Codec>) {
    forall k :: 0 <= k < |es| ==> MadeFrom(es[k], locals, remotes)
  }

  lemma MoreMadeFrom(done: seq<ExtendedCodec>, media: seq<ExtendedCodec>, locals: seq<Codec>, remotes: seq<Codec>)
    requires AllMadeFrom(done, locals, remotes)
    requires || media == done
             || (|media| == |done| + 1 && media[..|done|] == done && MadeFrom(media[|done|], locals, remotes))
    ensures AllMadeFrom(media, locals, remotes)
  {
    hide MadeFrom;
  }

  lemma {:induction false} FirstPassMadeFrom(answer: H264Answer, locals: seq<Codec>, remotes: seq<Codec>, n: nat)
    requires n <= |remotes| && ExtendUpTo(answer, locals, remotes, n).Ok?
    ensures AllMadeFrom(ExtendUpTo(answer, locals, remotes, n).value.1, locals, remotes)
  {
    if n > 0 {
      FirstPassMadeFrom(answer, locals, remotes, n - 1);
      FirstPassAlike(answer, locals, remotes, n - 1);
      var (before, done) := ExtendUpTo(answer, locals, remotes, n - 1).value;
      OneMadeFrom(answer, locals, before, done, remotes[n - 1], remotes);
      MoreMadeFrom(done, ExtendOne(answer, before, done, remotes[n - 1]).value.1, locals, remotes);
    }
  }

  lemma AlikeTransitive(a: Codec, b: Codec, c: Codec)
    requires Alike(a, b) && Alike(b, c)
    ensures Alike(a, c)
  {
  }

  ghost predicate HasRtx(codecs: seq<Codec>, media: Option<int>) {
    exists c :: c in codecs && IsRtxFor(c, media)
  }

  // Some RTX codec for the media payload type has exactly this (possibly missing) payload type.
  ghost predicate RtxFrom(codecs: seq<Codec>, media: Option<int>, rtx: Option<int>) {
    exists c :: c in codecs && IsRtxFor(c, media) && c.payloadType == rtx
  }

  // If both sides have an RTX codec whose apt is their media payload type, the entry has the payload
  // types of two such codecs; otherwise it has none.
  ghost predicate RtxPaired(e: ExtendedCodec, locals: seq<Codec>, remotes: seq<Codec>) {
    if HasRtx(locals, e.localPayloadType) && HasRtx(remotes, e.remotePayloadType) then
      && RtxFrom(locals, e.localPayloadType, e.localRtxPayloadType)
      && RtxFrom(remotes, e.remotePayloadType, e.remoteRtxPayloadType)
    else e.localRtxPayloadType == None && e.remoteRtxPayloadType == None
  }

  lemma {:induction false} FirstRtxFound(codecs: seq<Codec>, pt: Option<int>, from: nat)
    requires from <= |codecs| && FirstRtx(codecs, pt, from).None?
    ensures forall k :: from <= k < |codecs| ==> !IsRtxFor(codecs[k], pt)
    decreases |codecs| - from
  {
    if from < |codecs| {
      FirstRtxFound(codecs, pt, from + 1);
    }
  }

  // The search in rewritten codecs, told in terms of the original ones.
  lemma RtxSearch(codecs: seq<Codec>, codecs': seq<Codec>, pt: Option<int>)
    requires AllAlike(codecs, codecs')
    ensures var r := FirstRtx(codecs', pt, 0);
      if r.Some? then HasRtx(codecs, pt) && RtxFrom(codecs, pt, r.value.payloadType) else !HasRtx(codecs, pt)
  {
    var r := FirstRtx(codecs', pt, 0);
    if r.Some? {
      var i :| 0 <= i < |codecs'| && codecs'[i] == r.value;
      assert codecs[i] in codecs && IsRtxFor(codecs[i], pt);
    } else {
      FirstRtxFound(codecs', pt, 0);
      assert forall i :: 0 <= i < |codecs| ==> IsRtxFor(codecs[i], pt) == IsRtxFor(codecs'[i], pt);
    }
  }

  lemma WithRtxPaired(m: ExtendedCodec, locals: seq<Codec>, locals': seq<Codec>, remotes: seq<Codec>)
    requires AllAlike(locals, locals') && m.localRtxPayloadType == None && m.remoteRtxPayloadType == None
    ensures var e := WithRtx(m, locals', remotes);
      RtxPaired(e, locals, remotes) && e.(localRtxPayloadType := None, remoteRtxPayloadType := None) == m
  {
    SelfAlike(remotes);
    RtxSearch(locals, locals', m.localPayloadType);
    RtxSearch(remotes, remotes, m.remotePayloadType);
  }

  // Entries of the negotiated capabilities: made from matching codecs that are not RTX, and paired
  // with RTX codecs of each side.
  lemma EntryMeaning(answer: H264Answer, local: Capabilities, remote: Capabilities, k: nat)
    requires ExtendedOf(answer, local, remote).Ok? && k < |ExtendedOf(answer, local, remote).value.codecs|
    ensures var e := ExtendedOf(answer, local, remote).value.codecs[k];
      && MadeFrom(e.(localRtxPayloadType := None, remoteRtxPayloadType := None), local.codecs, remote.codecs)
      && !IsRtx(e.mimeType)
      && RtxPaired(e, local.codecs, remote.codecs)
  {
    FirstPassMadeFrom(answer, local.codecs, remote.codecs, |remote.codecs|);
    FirstPassAlike(answer, local.codecs, remote.codecs, |remote.codecs|);
    var (locals', media) := ExtendUpTo(answer, local.codecs, remote.codecs, |remote.codecs|).value;
    MadeFromIsMedia(media[k], local.codecs, remote.codecs);
    WithRtxPaired(media[k], local.codecs, locals', remote.codecs);
  }

  lemma MadeFromIsMedia(m: ExtendedCodec, locals: seq<Codec>, remotes: seq<Codec>)
    requires MadeFrom(m, locals, remotes)
    ensures !IsRtx(m.mimeType) && m.localRtxPayloadType == None && m.remoteRtxPayloadType == None
  {
  }

  lemma SelfAlike(codecs: seq<Codec>)
    ensures AllAlike(codecs, codecs)
  {
  }

  predicate SameMedia(a: Codec, b: Codec) {
    Lower(a.mimeType) == Lower(b.mimeType) && a.clockRate == b.clockRate && a.channels == b.channels
  }

  lemma LocalsAlike(answer: H264Answer, locals: seq<Codec>, remotes: seq<Codec>, j: nat)
    requires j <= |remotes|
    ensures AllAlike(locals, LocalsAt(answer, locals, remotes, j))
  {
    SelfAlike(locals);
    if ExtendUpTo(answer, locals, remotes, j).Ok? {
      FirstPassAlike(answer, locals, remotes, j);
    }
  }

  // A codec that is neither H264 nor VP9 is kept exactly if it is not RTX and some local codec agrees with
  // it in MIME type, clock rate and channels, whatever matching has rewritten before.
  lemma PlainCodecKept(answer: H264Answer, locals: seq<Codec>, remotes: seq<Codec>, j: nat)
    requires j < |remotes|
    requires Lower(remotes[j].mimeType) != "video/h264" && Lower(remotes[j].mimeType) != "video/vp9"
    ensures IsKeptAt(answer, locals, remotes, j) <==>
      !IsRtx(remotes[j].mimeType) && exists i :: 0 <= i < |locals| && SameMedia(locals[i], remotes[j])
  {
    LocalsAlike(answer, locals, remotes, j);
    var locals' := LocalsAt(answer, locals, remotes, j);
    hide LocalsAt, Match, GoodCodec, Apt;
    forall i: nat | i < |locals|
      ensures MatchesAt(answer, locals', remotes[j], i) <==> SameMedia(locals[i], remotes[j])
    {
      assert Alike(locals[i], locals'[i]);
      MatchMeaning(answer, locals'[i], remotes[j]);
    }
  }

  /* Well-formed extended capabilities */

  ghost predicate GoodEntry(e: ExtendedCodec) {
    && KindOf(e.mimeType) == Some(e.kind) && !IsRtx(e.mimeType)
    && (e.channels.Some? <==> e.kind == "audio")
    && ParamsAllowed(e.localParameters)
    && (e.localRtxPayloadType.Some? ==> e.localPayloadType.Some?)
    && (e.remoteRtxPayloadType.Some? ==> e.remotePayloadType.Some?)
  }

  ghost predicate GoodExtended(e: Extended) {
    && (forall k :: 0 <= k < |e.codecs| ==> GoodEntry(e.codecs[k]))
    && (forall k :: 0 <= k < |e.headerExtensions| ==>
          IsKind(e.headerExtensions[k].kind) && e.headerExtensions[k].uri != "")
  }

  // An extended extension comes from one of the first n remote extensions.
  ghost predicate ExtensionFrom(e: ExtendedExtension, remotes: seq<Extension>, n: nat) {
    exists i ::
      && 0 <= i < n && i < |remotes|
      && e.kind == remotes[i].kind && e.uri == remotes[i].uri && e.direction == Mirrored(remotes[i].direction)
  }

  lemma {:induction false} ExtensionsMadeFrom(locals: seq<Extension>, remotes: seq<Extension>, n: nat, k: nat)
    requires n <= |remotes| && k < |ExtensionsUpTo(locals, remotes, n)|
    ensures ExtensionFrom(ExtensionsUpTo(locals, remotes, n)[k], remotes, n)
  {
    var before, e := ExtensionsUpTo(locals, remotes, n - 1), ExtensionsUpTo(locals, remotes, n)[k];
    if k < |before| {
      ExtensionsMadeFrom(locals, remotes, n - 1, k);
    } else {
      assert e.kind == remotes[n - 1].kind;
    }
  }

  /* What the negotiated capabilities lack */

  // The router leaves out nothing that is negotiated: kept codecs have payload types, and extensions the
  // local side has too have a known direction.
  ghost predicate RouterComplete(answer: H264Answer, local: Capabilities, remote: Capabilities) {
    && CodecsGiven(answer, local, remote)
    && (forall j :: 0 <= j < |remote.headerExtensions| ==>
          FirstSameExtension(local.headerExtensions, remote.headerExtensions[j], 0).Some? ==>
            !remote.headerExtensions[j].direction.OtherDirection?)
  }

  ghost predicate Complete(ext: Extended) {
    && (forall k :: 0 <= k < |ext.codecs| ==> ext.codecs[k].remotePayloadType.Some?)
    && AllDirected(ext.headerExtensions)
  }

  ghost function KeptCodecs(answer: H264Answer, local: Capabilities, remote: Capabilities): (kept: seq<nat>)
    ensures forall k :: 0 <= k < |kept| ==>
      kept[k] < |remote.codecs| && IsKeptAt(answer, local.codecs, remote.codecs, kept[k])
    ensures forall j :: 0 <= j < |remote.codecs| && IsKeptAt(answer, local.codecs, remote.codecs, j) ==> j in kept
  {
    Kept(answer, local.codecs, remote.codecs, |remote.codecs|)
  }

  // Entry k comes from the k-th codec kept.
  lemma EntryComesFrom(answer: H264Answer, local: Capabilities, remote: Capabilities, k: nat)
    requires ExtendedOf(answer, local, remote).Ok? && k < |KeptCodecs(answer, local, remote)|
    ensures |ExtendedOf(answer, local, remote).value.codecs| == |KeptCodecs(answer, local, remote)|
    ensures ExtendedOf(answer, local, remote).value.codecs[k].remotePayloadType
         == remote.codecs[KeptCodecs(answer, local, remote)[k]].payloadType
  {
    FirstPassIsFilter(answer, local.codecs, remote.codecs, |remote.codecs|);
    var media := ExtendUpTo(answer, local.codecs, remote.codecs, |remote.codecs|).value.1;
    var j := KeptCodecs(answer, local, remote)[k];
    assert PairsFirstMatch(answer, LocalsAt(answer, local.codecs, remote.codecs, j), remote.codecs[j], media[k]);
    PairKeepsPayloadType(answer, LocalsAt(answer, local.codecs, remote.codecs, j), remote.codecs[j], media[k]);
  }

  lemma PairKeepsPayloadType(answer: H264Answer, locals: seq<Codec>, remote: Codec, e: ExtendedCodec)
    requires PairsFirstMatch(answer, locals, remote, e)
    ensures e.remotePayloadType == remote.payloadType
  {
  }

  lemma EntryCount(answer: H264Answer, local: Capabilities, remote: Capabilities)
    requires ExtendedOf(answer, local, remote).Ok?
    ensures |ExtendedOf(answer, local, remote).value.codecs| == |KeptCodecs(answer, local, remote)|
  {
    FirstPassIsFilter(answer, local.codecs, remote.codecs, |remote.codecs|);
  }

  ghost predicate CodecsGiven(answer: H264Answer, local: Capabilities, remote: Capabilities) {
    forall j :: 0 <= j < |remote.codecs| && IsKeptAt(answer, local.codecs, remote.codecs, j) ==>
      remote.codecs[j].payloadType.Some?
  }

  lemma CodecsComplete(answer: H264Answer, local: Capabilities, remote: Capabilities)
    requires ExtendedOf(answer, local, remote).Ok?
    ensures (forall k :: 0 <= k < |ExtendedOf(answer, local, remote).value.codecs| ==>
               ExtendedOf(answer, local, remote).value.codecs[k].remotePayloadType.Some?)
       <==> CodecsGiven(answer, local, remote)
  {
    var kept, codecs := KeptCodecs(answer, local, remote), ExtendedOf(answer, local, remote).value.codecs;
    EntryCount(answer, local, remote);
    forall k | 0 <= k < |kept| ensures codecs[k].remotePayloadType == remote.codecs[kept[k]].payloadType {
      EntryComesFrom(answer, local, remote, k);
    }
    SameGaps(answer, local, remote, kept, codecs);
  }

  lemma SameGaps(answer: H264Answer, local: Capabilities, remote: Capabilities, kept: seq<nat>,
                 codecs: seq<ExtendedCodec>)
    requires kept == KeptCodecs(answer, local, remote) && |codecs| == |kept|
    requires forall k :: 0 <= k < |kept| ==> codecs[k].remotePayloadType == remote.codecs[kept[k]].payloadType
    ensures (forall k :: 0 <= k < |codecs| ==> codecs[k].remotePayloadType.Some?)
       <==> CodecsGiven(answer, local, remote)
  {
  }

  predicate AllDirected(extensions: seq<ExtendedExtension>) {
    forall k :: 0 <= k < |extensions| ==> extensions[k].direction.Some?
  }

  lemma OneMoreDirected(extensions: seq<ExtendedExtension>, e: ExtendedExtension)
    ensures AllDirected(extensions + [e]) <==> AllDirected(extensions) && e.direction.Some?
  {
    var more := extensions + [e];
    assert more[|extensions|] == e && forall k :: 0 <= k < |extensions| ==> more[k] == extensions[k];
  }

  lemma {:induction false} ExtensionsComplete(locals: seq<Extension>, remotes: seq<Extension>, n: nat)
    requires n <= |remotes|
    ensures AllDirected(ExtensionsUpTo(locals, remotes, n))
       <==> (forall j :: 0 <= j < n && FirstSameExtension(locals, remotes[j], 0).Some? ==>
               !remotes[j].direction.OtherDirection?)
  {
    if n > 0 {
      hide AllDirected, FirstSameExtension;
      ExtensionsComplete(locals, remotes, n - 1);
      var before, after := ExtensionsUpTo(locals, remotes, n - 1), ExtensionsUpTo(locals, remotes, n);
      if FirstSameExtension(locals, remotes[n - 1], 0).Some? {
        OneMoreDirected(before, after[|before|]);
        assert after == before + [after[|before|]] && after[|before|].direction == Mirrored(remotes[n - 1].direction);
      } else {
        assert after == before;
      }
    }
  }

  // Nothing is missing in the extended capabilities exactly if the router leaves out nothing negotiated.
  lemma CompleteIff(answer: H264Answer, local: Capabilities, remote: Capabilities)
    requires ExtendedOf(answer, local, remote).Ok?
    ensures Complete(ExtendedOf(answer, local, remote).value) <==> RouterComplete(answer, local, remote)
  {
    CodecsComplete(answer, local, remote);
    ExtensionsComplete(local.headerExtensions, remote.headerExtensions, |remote.headerExtensions|);
  }

  // Valid capabilities on both sides negotiate to well-formed extended capabilities.
  lemma NegotiationIsGood(answer: H264Answer, local: Capabilities, remote: Capabilities)
    requires GoodCapabilities(local) && GoodCapabilities(remote) && ExtendedOf(answer, local, remote).Ok?
    ensures GoodExtended(ExtendedOf(answer, local, remote).value)
  {
    var e := ExtendedOf(answer, local, remote).value;
    forall k | 0 <= k < |e.codecs| ensures GoodEntry(e.codecs[k]) {
      EntryMeaning(answer, local, remote, k);
      EntryIsGood(e.codecs[k], local.codecs, remote.codecs);
    }
    forall k | 0 <= k < |e.headerExtensions|
      ensures IsKind(e.headerExtensions[k].kind) && e.headerExtensions[k].uri != ""
    {
      ExtensionsMadeFrom(local.headerExtensions, remote.headerExtensions, |remote.headerExtensions|, k);
    }
  }

  lemma EntryIsGood(e: ExtendedCodec, locals: seq<Codec>, remotes: seq<Codec>)
    requires MadeFrom(e.(localRtxPayloadType := None, remoteRtxPayloadType := None), locals, remotes)
    requires !IsRtx(e.mimeType) && RtxPaired(e, locals, remotes)
    requires forall i :: 0 <= i < |locals| ==> GoodCodec(locals[i])
    ensures GoodEntry(e)
  {
    hide KindOf, IsRtx, Lower, Apt, ParamsAllowed;
    var m := e.(localRtxPayloadType := None, remoteRtxPayloadType := None);
    var l, r, l', r' :| l in locals && r in remotes && Alike(l, l') && Alike(r, r')
      && Lower(l.mimeType) == Lower(r.mimeType) && l.clockRate == r.clockRate && l.channels == r.channels
      && !IsRtx(r.mimeType) && m == Extend(l', r');
    assert GoodCodec(l) && GoodCodec(l');
  }
}
