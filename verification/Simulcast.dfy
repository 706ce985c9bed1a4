/** Legacy simulcast in an SDP media object: writing SSRC lines and groups and reading them back.

`AddLegacySimulcast` rewrites a media object so that it announces several streams; later
`GetRtpEncodings` and `GetCname` read the encodings and the CNAME back out of the SDP. SSRCs are
32-bit and their arithmetic wraps; group members travel as decimal text.
*/
module Simulcast {

  import opened Common
  import opened Text

  type Ssrc = n: int | 0 <= n < UINT32

  // A member that is missing or not a string is None.
  datatype SsrcLine = SsrcLine(id: Ssrc, attribute: Option<string>, value: string)

  datatype SsrcGroup = SsrcGroup(semantics: Option<string>, ssrcs: Option<string>)

  datatype Media = Media(ssrcs: seq<SsrcLine>, ssrcGroups: Option<seq<SsrcGroup>>)

  datatype Encoding = Encoding(ssrc: Ssrc, rtx: Option<Ssrc>)

  /* Writer */

  // std::find_if over the a=ssrc lines for one attribute.
  function FirstLine(lines: seq<SsrcLine>, attribute: string): (r: Result<SsrcLine>) {
    if lines == [] then Throws
    else if lines[0].attribute == Some(attribute) then Ok(lines[0])
    else FirstLine(lines[1..], attribute)
  }

  // The RTX SSRC grouped with `first`, or 0. The kind of group is not looked at.
  function FirstRtx(groups: seq<SsrcGroup>, first: Ssrc): (r: Result<Ssrc>) {
    if groups == [] then Ok(0)
    else if groups[0].semantics.None? || groups[0].ssrcs.None? then FirstRtx(groups[1..], first)
    else
      var v := Tokens(groups[0].ssrcs.value, ' ');
      if v == [] then Throws
      else
        var head :- Stoull(v[0]);
        if head != first then FirstRtx(groups[1..], first)
        else if |v| < 2 then Throws
        else
          var rtx :- Stoull(v[1]);
          Ok(rtx % UINT32)
  }

  // What the writer takes from the offer.
  datatype Source = Source(first: Ssrc, firstRtx: Ssrc, cname: string, msid: string)

  function ReadSource(media: Media): (r: Result<Source>) {
    var msidLine :- FirstLine(media.ssrcs, "msid");
    var v := Tokens(msidLine.value, ' ');
    if |v| < 2 then Throws
    else
      var rtx :- (if media.ssrcGroups.None? then Ok(0) else FirstRtx(media.ssrcGroups.value, msidLine.id));
      var cnameLine :- FirstLine(media.ssrcs, "cname");
      Ok(Source(msidLine.id, rtx, cnameLine.value, v[0] + " " + v[1]))
  }

  // n consecutive SSRCs; uint32_t addition wraps.
  function Range(first: Ssrc, n: nat): (r: seq<Ssrc>)
    ensures |r| == n
  {
    if n == 0 then [] else Range(first, n - 1) + [(first + n - 1) % UINT32]
  }

  function RtxRange(source: Source, n: nat): (r: seq<Ssrc>) {
    if source.firstRtx == 0 then [] else Range(source.firstRtx, n)
  }

  function LinePair(id: Ssrc, source: Source): (r: seq<SsrcLine>) {
    [SsrcLine(id, Some("cname"), source.cname), SsrcLine(id, Some("msid"), source.msid)]
  }

  function Lines(ids: seq<Ssrc>, source: Source): (r: seq<SsrcLine>) {
    if ids == [] then []
    else Lines(ids[..|ids| - 1], source) + LinePair(ids[|ids| - 1], source)
  }

  function Fid(ssrc: Ssrc, rtx: Ssrc): (g: SsrcGroup) {
    SsrcGroup(Some("FID"), Some(Decimal(ssrc) + " " + Decimal(rtx)))
  }

  function Decimals(ids: seq<Ssrc>): (r: seq<string>) {
    if ids == [] then [] else Decimals(ids[..|ids| - 1]) + [Decimal(ids[|ids| - 1])]
  }

  function Sim(ssrcs: seq<Ssrc>): (g: SsrcGroup) {
    SsrcGroup(Some("SIM"), Some(Joined(Decimals(ssrcs), ' ')))
  }

  function Fids(ssrcs: seq<Ssrc>, rtxs: seq<Ssrc>): (r: seq<SsrcGroup>)
    requires |rtxs| <= |ssrcs|
    ensures |r| == |rtxs|
  {
    if rtxs == [] then []
    else
      var n := |rtxs| - 1;
      Fids(ssrcs, rtxs[..n]) + [Fid(ssrcs[n], rtxs[n])]
  }

  function Render(source: Source, n: nat): (m: Media) {
    var ssrcs, rtxs := Range(source.first, n), RtxRange(source, n);
    Media(Lines(ssrcs, source) + Lines(rtxs, source), Some([Sim(ssrcs)] + Fids(ssrcs, rtxs)))
  }

  function WithLegacySimulcast(media: Media, numStreams: nat): (r: Result<Media>) {
    if numStreams <= 1 then Ok(media)
    else
      var source :- ReadSource(media);
      Ok(Render(source, numStreams))
  }

  // addLegacySimulcast; numStreams is a uint8_t.
  method AddLegacySimulcast(media: Media, numStreams: nat) returns (r: Result<Media>)
    requires numStreams < 256
    ensures r == WithLegacySimulcast(media, numStreams)
  {
    if numStreams <= 1 {
      return Ok(media);
    }
    var source :- ReadSource(media);
    var ssrcs: seq<Ssrc>, rtxSsrcs: seq<Ssrc> := [], [];
    for i := 0 to numStreams
      invariant ssrcs == Range(source.first, i)
      invariant rtxSsrcs == RtxRange(source, i)
    {
      ssrcs := ssrcs + [(source.first + i) % UINT32];
      if source.firstRtx != 0 {
        rtxSsrcs := rtxSsrcs + [(source.firstRtx + i) % UINT32];
      }
    }
    var ssrcsLine := JoinSsrcs(ssrcs);
    var groups := [SsrcGroup(Some("SIM"), Some(ssrcsLine))];
    var lines := WriteLines(ssrcs, source);
    var rtxGroups, rtxLines := WriteRtx(ssrcs, rtxSsrcs, source);
    r := Ok(Media(lines + rtxLines, Some(groups + rtxGroups)));
  }

  method WriteRtx(ssrcs: seq<Ssrc>, rtxs: seq<Ssrc>, source: Source)
    returns (groups: seq<SsrcGroup>, lines: seq<SsrcLine>)
    requires |rtxs| <= |ssrcs|
    ensures groups == Fids(ssrcs, rtxs) && lines == Lines(rtxs, source)
  {
    groups, lines := [], [];
    for i := 0 to |rtxs|
      invariant groups == Fids(ssrcs, rtxs[..i])
      invariant lines == Lines(rtxs[..i], source)
    {
      assert rtxs[..i + 1][..i] == rtxs[..i];
      groups := groups + [Fid(ssrcs[i], rtxs[i])];
      lines := lines + LinePair(rtxs[i], source);
    }
    assert rtxs[..|rtxs|] == rtxs;
  }

  // The uint32_t overload of join.
  method JoinSsrcs(ssrcs: seq<Ssrc>) returns (s: string)
    ensures s == Joined(Decimals(ssrcs), ' ')
  {
    var texts := [];
    for i := 0 to |ssrcs|
      invariant texts == Decimals(ssrcs[..i])
    {
      assert ssrcs[..i + 1][..i] == ssrcs[..i];
      texts := texts + [Decimal(ssrcs[i])];
    }
    assert ssrcs[..|ssrcs|] == ssrcs;
    s := Join(texts, ' ');
  }

  method WriteLines(ids: seq<Ssrc>, source: Source) returns (lines: seq<SsrcLine>)
    ensures lines == Lines(ids, source)
  {
    lines := [];
    for i := 0 to |ids|
      invariant lines == Lines(ids[..i], source)
    {
      assert ids[..i + 1][..i] == ids[..i];
      lines := lines + LinePair(ids[i], source);
    }
    assert ids[..|ids|] == ids;
  }

  /* Reader */

  // std::list::unique: of every run of equal neighbours one is kept.
  function Unique(v: seq<Ssrc>): (r: seq<Ssrc>) {
    if |v| <= 1 then v
    else if v[0] == v[1] then Unique(v[1..])
    else [v[0]] + Unique(v[1..])
  }

  // std::list::remove, for each of `xs`.
  function Without(v: seq<Ssrc>, xs: seq<Ssrc>): (r: seq<Ssrc>) {
    if v == [] then []
    else (if v[0] in xs then [] else [v[0]]) + Without(v[1..], xs)
  }

  function Ids(lines: seq<SsrcLine>): (r: seq<Ssrc>)
    ensures |r| == |lines|
  {
    if lines == [] then [] else Ids(lines[..|lines| - 1]) + [lines[|lines| - 1].id]
  }

  // The loop over the groups: strike RTX SSRCs off the list and remember whose they are.
  function ReadGroups(groups: seq<SsrcGroup>, ssrcs: seq<Ssrc>, rtxOf: map<Ssrc, Ssrc>)
    : (r: Result<(seq<Ssrc>, map<Ssrc, Ssrc>)>)
  {
    if groups == [] then Ok((ssrcs, rtxOf))
    else if groups[0].semantics.None? then Throws
    else if groups[0].semantics.value != "FID" then ReadGroups(groups[1..], ssrcs, rtxOf)
    else if groups[0].ssrcs.None? then Throws
    else
      var v := Tokens(groups[0].ssrcs.value, ' ');
      if |v| < 2 then Throws
      else
        var ssrc :- Stoull(v[0]);
        var rtx :- Stoull(v[1]);
        ReadGroups(groups[1..], Without(ssrcs, [rtx % UINT32]), rtxOf[ssrc % UINT32 := rtx % UINT32])
  }

  function EncodingFor(ssrc: Ssrc, rtxOf: map<Ssrc, Ssrc>): (e: Encoding) {
    Encoding(ssrc, if ssrc in rtxOf then Some(rtxOf[ssrc]) else None)
  }

  function EncodingsOf(ssrcs: seq<Ssrc>, rtxOf: map<Ssrc, Ssrc>): (r: seq<Encoding>)
    ensures |r| == |ssrcs|
  {
    if ssrcs == [] then []
    else EncodingsOf(ssrcs[..|ssrcs| - 1], rtxOf) + [EncodingFor(ssrcs[|ssrcs| - 1], rtxOf)]
  }

  function Encodings(media: Media): (r: Result<seq<Encoding>>) {
    if media.ssrcs == [] then Throws
    else
      var ssrcs := Unique(Ids(media.ssrcs));
      var read :- (if media.ssrcGroups.None? then Ok((ssrcs, map[]))
                   else ReadGroups(media.ssrcGroups.value, ssrcs, map[]));
      Ok(EncodingsOf(read.0, read.1))
  }

  // getRtpEncodings.
  method GetRtpEncodings(media: Media) returns (r: Result<seq<Encoding>>)
    ensures r == Encodings(media)
  {
    var ssrcs: seq<Ssrc> := [];
    for i := 0 to |media.ssrcs|
      invariant ssrcs == Ids(media.ssrcs[..i])
    {
      assert media.ssrcs[..i + 1][..i] == media.ssrcs[..i];
      ssrcs := ssrcs + [media.ssrcs[i].id];
    }
    assert media.ssrcs[..|media.ssrcs|] == media.ssrcs;
    if ssrcs == [] {
      return Throws;
    }
    ssrcs := Unique(ssrcs);
    var rtxOf: map<Ssrc, Ssrc> := map[];
    if media.ssrcGroups.Some? {
      var groups := media.ssrcGroups.value;
      ghost var all := ReadGroups(groups, ssrcs, map[]);
      assert groups[0..] == groups;
      for i := 0 to |groups|
        invariant ReadGroups(groups[i..], ssrcs, rtxOf) == all
      {
        var line := groups[i];
        assert groups[i..][1..] == groups[i + 1..];
        if line.semantics.None? {
          return Throws;
        }
        if line.semantics.value == "FID" {
          if line.ssrcs.None? {
            return Throws;
          }
          var v := Split(line.ssrcs.value, ' ');
          if |v| < 2 {
            return Throws;
          }
          var ssrc :- Stoull(v[0]);
          var rtx :- Stoull(v[1]);
          ssrcs := Without(ssrcs, [rtx % UINT32]);
          rtxOf := rtxOf[ssrc % UINT32 := rtx % UINT32];
        }
      }
    }
    var encodings := [];
    for i := 0 to |ssrcs|
      invariant encodings == EncodingsOf(ssrcs[..i], rtxOf)
    {
      assert ssrcs[..i + 1][..i] == ssrcs[..i];
      encodings := encodings + [EncodingFor(ssrcs[i], rtxOf)];
    }
    assert ssrcs[..|ssrcs|] == ssrcs;
    return Ok(encodings);
  }

  // getCname: the value of the first line that has any attribute.
  function GetCname(lines: seq<SsrcLine>): (cname: string) {
    if lines == [] then ""
    else if lines[0].attribute.Some? then lines[0].value
    else GetCname(lines[1..])
  }

  /* Round trip */

  // What a reader should get: stream i has SSRC first + i and, if there is RTX, RTX SSRC firstRtx + i.
  function Stream(source: Source, i: nat): (e: Encoding) {
    Encoding((source.first + i) % UINT32,
             if source.firstRtx == 0 then None else Some((source.firstRtx + i) % UINT32))
  }

  function Streams(source: Source, n: nat): (r: seq<Encoding>)
    ensures |r| == n
  {
    if n == 0 then [] else Streams(source, n - 1) + [Stream(source, n - 1)]
  }

  ghost predicate Disjoint(a: seq<Ssrc>, b: seq<Ssrc>) {
    forall x :: x in a ==> x !in b
  }

  lemma {:induction false} RangeAt(first: Ssrc, n: nat, i: nat)
    requires i < n
    ensures Range(first, n)[i] == (first + i) % UINT32
  {
    if i < n - 1 {
      RangeAt(first, n - 1, i);
    }
  }

  lemma {:induction false} FidsAt(ssrcs: seq<Ssrc>, rtxs: seq<Ssrc>, i: nat)
    requires i < |rtxs| <= |ssrcs|
    ensures Fids(ssrcs, rtxs)[i] == Fid(ssrcs[i], rtxs[i])
    decreases |rtxs|
  {
    if i < |rtxs| - 1 {
      FidsAt(ssrcs, rtxs[..|rtxs| - 1], i);
    }
  }

  lemma {:induction false} EncodingsAt(ssrcs: seq<Ssrc>, rtxOf: map<Ssrc, Ssrc>, i: nat)
    requires i < |ssrcs|
    ensures EncodingsOf(ssrcs, rtxOf)[i] == EncodingFor(ssrcs[i], rtxOf)
  {
    if i < |ssrcs| - 1 {
      EncodingsAt(ssrcs[..|ssrcs| - 1], rtxOf, i);
    }
  }

  lemma {:induction false} StreamsAt(source: Source, n: nat, i: nat)
    requires i < n
    ensures Streams(source, n)[i] == Stream(source, i)
  {
    if i < n - 1 {
      StreamsAt(source, n - 1, i);
    }
  }

  ghost predicate Distinct(v: seq<Ssrc>) {
    forall i, j :: 0 <= i < j < |v| ==> v[i] != v[j]
  }

  lemma RangeDistinct(first: Ssrc, n: nat)
    requires n < 256
    ensures Distinct(Range(first, n))
  {
    forall i, j | 0 <= i < j < n ensures Range(first, n)[i] != Range(first, n)[j] {
      RangeAt(first, n, i);
      RangeAt(first, n, j);
    }
  }

  function Doubled(v: seq<Ssrc>): (r: seq<Ssrc>) {
    if v == [] then [] else Doubled(v[..|v| - 1]) + [v[|v| - 1], v[|v| - 1]]
  }

  lemma {:induction false} IdsOfLines(ids: seq<Ssrc>, source: Source)
    ensures Ids(Lines(ids, source)) == Doubled(ids)
  {
    if ids != [] {
      IdsOfLines(ids[..|ids| - 1], source);
      var a, b := Lines(ids[..|ids| - 1], source), LinePair(ids[|ids| - 1], source);
      IdsConcat(a, b);
    }
  }

  lemma {:induction false} IdsConcat(a: seq<SsrcLine>, b: seq<SsrcLine>)
    ensures Ids(a + b) == Ids(a) + Ids(b)
  {
    if b == [] {
      assert a + b == a;
    } else {
      assert (a + b)[..|a + b| - 1] == a + b[..|b| - 1];
      IdsConcat(a, b[..|b| - 1]);
    }
  }

  lemma {:induction false} DoubledConcat(a: seq<Ssrc>, b: seq<Ssrc>)
    ensures Doubled(a + b) == Doubled(a) + Doubled(b)
  {
    if b == [] {
      assert a + b == a;
    } else {
      assert (a + b)[..|a + b| - 1] == a + b[..|b| - 1];
      DoubledConcat(a, b[..|b| - 1]);
    }
  }

  ghost predicate NeighboursDiffer(v: seq<Ssrc>) {
    forall i :: 0 <= i < |v| - 1 ==> v[i] != v[i + 1]
  }

  // Unique undoes the doubling.
  lemma {:induction false} UniqueOfDoubled(v: seq<Ssrc>)
    requires NeighboursDiffer(v)
    ensures Unique(Doubled(v)) == v
  {
    if v != [] {
      assert v == [v[0]] + v[1..];
      DoubledConcat([v[0]], v[1..]);
      assert Doubled([v[0]]) == [v[0], v[0]];
      var d := Doubled(v[1..]);
      var all := [v[0], v[0]] + d;
      UniqueOfDoubled(v[1..]);
      assert all[1..] == [v[0]] + d;
      assert Unique(all) == Unique([v[0]] + d);
      if |v| == 1 {
        assert d == [];
      } else {
        DoubledHead(v[1..]);
        assert ([v[0]] + d)[1..] == d;
      }
    }
  }

  lemma {:induction false} DoubledHead(v: seq<Ssrc>)
    requires v != []
    ensures |Doubled(v)| >= 2 && Doubled(v)[0] == v[0]
  {
    if |v| > 1 {
      DoubledHead(v[..|v| - 1]);
    }
  }

  lemma {:induction false} WithoutConcat(a: seq<Ssrc>, b: seq<Ssrc>, xs: seq<Ssrc>)
    ensures Without(a + b, xs) == Without(a, xs) + Without(b, xs)
  {
    if a == [] {
      assert a + b == b;
    } else {
      assert (a + b)[1..] == a[1..] + b;
      WithoutConcat(a[1..], b, xs);
    }
  }

  lemma {:induction false} WithoutDisjoint(v: seq<Ssrc>, xs: seq<Ssrc>)
    requires Disjoint(v, xs)
    ensures Without(v, xs) == v
  {
    if v != [] {
      WithoutDisjoint(v[1..], xs);
    }
  }

  lemma {:induction false} WithoutAll(v: seq<Ssrc>, xs: seq<Ssrc>)
    requires forall x :: x in v ==> x in xs
    ensures Without(v, xs) == []
  {
    if v != [] {
      WithoutAll(v[1..], xs);
    }
  }

  lemma {:induction false} WithoutTwice(v: seq<Ssrc>, x: Ssrc, xs: seq<Ssrc>)
    ensures Without(Without(v, [x]), xs) == Without(v, [x] + xs)
  {
    if v != [] {
      WithoutTwice(v[1..], x, xs);
      assert v[0] in [x] + xs <==> v[0] == x || v[0] in xs;
      if v[0] == x {
        assert Without(v, [x]) == Without(v[1..], [x]);
        assert Without(v, [x] + xs) == Without(v[1..], [x] + xs);
      } else {
        assert Without(v, [x]) == [v[0]] + Without(v[1..], [x]);
        assert Without(v, [x])[1..] == Without(v[1..], [x]);
      }
    }
  }

  lemma {:induction false} WithoutMembers(v: seq<Ssrc>, xs: seq<Ssrc>)
    ensures Disjoint(Without(v, xs), xs)
  {
    if v != [] {
      WithoutMembers(v[1..], xs);
    }
  }

  // Reading a FID group gives back the two numbers it was printed from.
  lemma FidTokens(ssrc: Ssrc, rtx: Ssrc)
    ensures Tokens(Fid(ssrc, rtx).ssrcs.value, ' ') == [Decimal(ssrc), Decimal(rtx)]
    ensures Stoull(Decimal(ssrc)) == Ok(ssrc) && Stoull(Decimal(rtx)) == Ok(rtx)
  {
    var v := [Decimal(ssrc), Decimal(rtx)];
    assert Joined(v[1..], ' ') == Decimal(rtx);
    SplitUndoesJoin(v, ' ');
    assert AllFreeOf(v, ' ');
    StoullOfDecimal(ssrc);
    StoullOfDecimal(rtx);
  }

  // The map the reader builds from pairs k, k+1, ...
  function Zip(ssrcs: seq<Ssrc>, rtxs: seq<Ssrc>, rtxOf: map<Ssrc, Ssrc>): (r: map<Ssrc, Ssrc>)
    requires |rtxs| <= |ssrcs|
  {
    if rtxs == [] then rtxOf else Zip(ssrcs[1..], rtxs[1..], rtxOf[ssrcs[0] := rtxs[0]])
  }

  lemma ReadFid(ssrc: Ssrc, rtx: Ssrc, rest: seq<SsrcGroup>, list: seq<Ssrc>, rtxOf: map<Ssrc, Ssrc>)
    ensures ReadGroups([Fid(ssrc, rtx)] + rest, list, rtxOf)
         == ReadGroups(rest, Without(list, [rtx]), rtxOf[ssrc := rtx])
  {
    FidTokens(ssrc, rtx);
    assert ([Fid(ssrc, rtx)] + rest)[1..] == rest;
  }

  lemma {:induction false} ReadFids(ssrcs: seq<Ssrc>, rtxs: seq<Ssrc>, list: seq<Ssrc>, rtxOf: map<Ssrc, Ssrc>)
    requires |rtxs| <= |ssrcs|
    ensures ReadGroups(Fids(ssrcs, rtxs), list, rtxOf)
         == Ok((Without(list, rtxs), Zip(ssrcs, rtxs, rtxOf)))
    decreases |rtxs|
  {
    if rtxs == [] {
      WithoutDisjoint(list, []);
    } else {
      var s, r := ssrcs[0], rtxs[0];
      FidsFront(ssrcs, rtxs);
      ReadFid(s, r, Fids(ssrcs[1..], rtxs[1..]), list, rtxOf);
      ReadFids(ssrcs[1..], rtxs[1..], Without(list, [r]), rtxOf[s := r]);
      WithoutTwice(list, r, rtxs[1..]);
      assert [r] + rtxs[1..] == rtxs;
    }
  }

  lemma FidsFront(ssrcs: seq<Ssrc>, rtxs: seq<Ssrc>)
    requires 0 < |rtxs| <= |ssrcs|
    ensures Fids(ssrcs, rtxs) == [Fid(ssrcs[0], rtxs[0])] + Fids(ssrcs[1..], rtxs[1..])
  {
    forall i | 0 <= i < |rtxs|
      ensures Fids(ssrcs, rtxs)[i] == ([Fid(ssrcs[0], rtxs[0])] + Fids(ssrcs[1..], rtxs[1..]))[i]
    {
      FidsAt(ssrcs, rtxs, i);
      if i > 0 {
        FidsAt(ssrcs[1..], rtxs[1..], i - 1);
      }
    }
  }

  lemma {:induction false} ZipKeeps(ssrcs: seq<Ssrc>, rtxs: seq<Ssrc>, rtxOf: map<Ssrc, Ssrc>, s: Ssrc)
    requires |rtxs| <= |ssrcs| && s in rtxOf && s !in ssrcs
    ensures s in Zip(ssrcs, rtxs, rtxOf) && Zip(ssrcs, rtxs, rtxOf)[s] == rtxOf[s]
    decreases |rtxs|
  {
    if rtxs != [] {
      ZipKeeps(ssrcs[1..], rtxs[1..], rtxOf[ssrcs[0] := rtxs[0]], s);
    }
  }

  lemma {:induction false} ZipPairs(ssrcs: seq<Ssrc>, rtxs: seq<Ssrc>, rtxOf: map<Ssrc, Ssrc>, i: nat)
    requires |rtxs| <= |ssrcs| && i < |rtxs|
    requires Distinct(ssrcs)
    ensures ssrcs[i] in Zip(ssrcs, rtxs, rtxOf) && Zip(ssrcs, rtxs, rtxOf)[ssrcs[i]] == rtxs[i]
    decreases |rtxs|
  {
    if i == 0 {
      ZipKeeps(ssrcs[1..], rtxs[1..], rtxOf[ssrcs[0] := rtxs[0]], ssrcs[0]);
    } else {
      ZipPairs(ssrcs[1..], rtxs[1..], rtxOf[ssrcs[0] := rtxs[0]], i - 1);
    }
  }

  // The reader on the writer's output, in terms of SSRC lists.
  lemma ReadRendered(source: Source, n: nat)
    requires 2 <= n < 256
    ensures var ssrcs, rtxs := Range(source.first, n), RtxRange(source, n);
      Encodings(Render(source, n)) ==
      Ok(EncodingsOf(Without(Unique(Doubled(ssrcs + rtxs)), rtxs), Zip(ssrcs, rtxs, map[])))
  {
    hide Tokens, Unique, Doubled, Range, Lines, Ids, Fids, Without, Zip;
    var ssrcs, rtxs := Range(source.first, n), RtxRange(source, n);
    var m := Render(source, n);
    var a, b := Lines(ssrcs, source), Lines(rtxs, source);
    IdsOfLines(ssrcs, source);
    IdsOfLines(rtxs, source);
    IdsConcat(a, b);
    DoubledConcat(ssrcs, rtxs);
    LinesHead(ssrcs, source);
    var list := Unique(Doubled(ssrcs + rtxs));
    var groups := [Sim(ssrcs)] + Fids(ssrcs, rtxs);
    assert groups[0].semantics == Some("SIM") && "SIM"[0] != "FID"[0];
    assert groups[1..] == Fids(ssrcs, rtxs);
    ReadFids(ssrcs, rtxs, list, map[]);
  }

  // Reading what was written gives exactly the streams announced, for every first SSRC and RTX
  // SSRC, wrapping or not, if and only if the two ranges do not overlap.
  lemma RoundTrip(source: Source, n: nat)
    requires 2 <= n < 256
    ensures Encodings(Render(source, n)) == Ok(Streams(source, n))
       <==> Disjoint(Range(source.first, n), RtxRange(source, n))
  {
    ReadRendered(source, n);
    var ssrcs, rtxs := Range(source.first, n), RtxRange(source, n);
    if Disjoint(ssrcs, rtxs) {
      ListIsMediaSsrcs(source, n);
      EncodingsAreStreams(source, n);
    } else {
      OverlapRead(source, n);
    }
  }

  lemma EncodingsAreStreams(source: Source, n: nat)
    requires n < 256
    ensures EncodingsOf(Range(source.first, n), Zip(Range(source.first, n), RtxRange(source, n), map[]))
         == Streams(source, n)
  {
    var ssrcs, rtxs := Range(source.first, n), RtxRange(source, n);
    RangeDistinct(source.first, n);
    forall i | 0 <= i < n
      ensures EncodingFor(ssrcs[i], Zip(ssrcs, rtxs, map[])) == Stream(source, i)
    {
      RangeAt(source.first, n, i);
      if source.firstRtx != 0 {
        RangeAt(source.firstRtx, n, i);
        ZipPairs(ssrcs, rtxs, map[], i);
      }
    }
    forall i | 0 <= i < n
      ensures EncodingsOf(ssrcs, Zip(ssrcs, rtxs, map[]))[i] == Streams(source, n)[i]
    {
      EncodingsAt(ssrcs, Zip(ssrcs, rtxs, map[]), i);
      StreamsAt(source, n, i);
    }
  }

  // An SSRC in both ranges is struck off, so the stream it belongs to is missing.
  lemma OverlapRead(source: Source, n: nat)
    requires !Disjoint(Range(source.first, n), RtxRange(source, n))
    ensures var rtxs := RtxRange(source, n);
      forall v, rtxOf :: EncodingsOf(Without(v, rtxs), rtxOf) != Streams(source, n)
  {
    hide Range, RtxRange, Without, EncodingsOf, Streams;
    var ssrcs, rtxs := Range(source.first, n), RtxRange(source, n);
    var x :| x in ssrcs && x in rtxs;
    var i :| 0 <= i < n && ssrcs[i] == x;
    StreamsAt(source, n, i);
    RangeAt(source.first, n, i);
    forall v, rtxOf ensures EncodingsOf(Without(v, rtxs), rtxOf) != Streams(source, n) {
      WithoutMembers(v, rtxs);
      var es := EncodingsOf(Without(v, rtxs), rtxOf);
      if |es| == n {
        EncodingsAt(Without(v, rtxs), rtxOf, i);
        assert es[i].ssrc in Without(v, rtxs);
      }
    }
  }

  lemma ListIsMediaSsrcs(source: Source, n: nat)
    requires 2 <= n < 256
    requires Disjoint(Range(source.first, n), RtxRange(source, n))
    ensures var ssrcs, rtxs := Range(source.first, n), RtxRange(source, n);
      Without(Unique(Doubled(ssrcs + rtxs)), rtxs) == ssrcs
  {
    var ssrcs, rtxs := Range(source.first, n), RtxRange(source, n);
    RangeDistinct(source.first, n);
    RangeDistinct(source.firstRtx, n);
    assert NeighboursDiffer(ssrcs + rtxs) by {
      assert rtxs != [] ==> ssrcs[n - 1] in ssrcs && rtxs[0] in rtxs;
    }
    UniqueOfDoubled(ssrcs + rtxs);
    WithoutConcat(ssrcs, rtxs, rtxs);
    WithoutDisjoint(ssrcs, rtxs);
    WithoutAll(rtxs, rtxs);
    assert ssrcs + [] == ssrcs;
  }

  // The CNAME the writer found is the one read back.
  lemma CnameRoundTrip(source: Source, n: nat)
    requires 2 <= n < 256
    ensures GetCname(Render(source, n).ssrcs) == source.cname
  {
    var ssrcs := Range(source.first, n);
    LinesHead(ssrcs, source);
  }

  lemma {:induction false} LinesHead(ids: seq<Ssrc>, source: Source)
    requires ids != []
    ensures Lines(ids, source) != [] && Lines(ids, source)[0] == SsrcLine(ids[0], Some("cname"), source.cname)
  {
    if |ids| > 1 {
      LinesHead(ids[..|ids| - 1], source);
    }
  }

  // Ranges that overlap lose streams: here the second stream has the first RTX SSRC.
  lemma OverlapLosesStreams()
    ensures Encodings(Render(Source(1, 2, "c", "s t"), 2)) != Ok(Streams(Source(1, 2, "c", "s t"), 2))
  {
    var source := Source(1, 2, "c", "s t");
    RoundTrip(source, 2);
    RangeAt(1, 2, 1);
    RangeAt(2, 2, 0);
    assert Range(source.first, 2)[1] in RtxRange(source, 2);
  }

  /* Writing twice */

  lemma {:induction false} DecimalsAt(ids: seq<Ssrc>, i: nat)
    requires i < |ids|
    ensures |Decimals(ids)| == |ids| && Decimals(ids)[i] == Decimal(ids[i])
  {
    if i < |ids| - 1 {
      DecimalsAt(ids[..|ids| - 1], i);
    } else if i > 0 {
      DecimalsAt(ids[..|ids| - 1], i - 1);
    }
  }

  lemma SimTokens(ssrcs: seq<Ssrc>)
    requires |ssrcs| >= 2
    ensures Tokens(Joined(Decimals(ssrcs), ' '), ' ') == Decimals(ssrcs)
    ensures |Decimals(ssrcs)| == |ssrcs|
    ensures Stoull(Decimals(ssrcs)[0]) == Ok(ssrcs[0]) && Stoull(Decimals(ssrcs)[1]) == Ok(ssrcs[1])
  {
    DecimalsAt(ssrcs, 0);
    DecimalsAt(ssrcs, 1);
    StoullOfDecimal(ssrcs[0]);
    StoullOfDecimal(ssrcs[1]);
    forall i | 0 <= i < |ssrcs| ensures Decimals(ssrcs)[i] == Decimal(ssrcs[i]) {
      DecimalsAt(ssrcs, i);
    }
    SplitUndoesJoin(Decimals(ssrcs), ' ');
  }

  // A stream id and a track id, as the writer puts them together.
  ghost predicate TwoTokens(msid: string) {
    exists streamId, trackId ::
      msid == streamId + " " + trackId && FreeOf(streamId, ' ') && FreeOf(trackId, ' ') && trackId != ""
  }

  lemma {:induction false} LinesSecond(ids: seq<Ssrc>, source: Source)
    requires ids != []
    ensures |Lines(ids, source)| >= 2 && Lines(ids, source)[..2] == LinePair(ids[0], source)
  {
    if |ids| > 1 {
      LinesSecond(ids[..|ids| - 1], source);
    }
  }

  lemma RenderedLinesFound(source: Source, n: nat)
    requires 2 <= n < 256
    ensures FirstLine(Render(source, n).ssrcs, "cname") == Ok(LinePair(source.first, source)[0])
    ensures FirstLine(Render(source, n).ssrcs, "msid") == Ok(LinePair(source.first, source)[1])
  {
    var lines := Render(source, n).ssrcs;
    RangeAt(source.first, n, 0);
    LinesSecond(Range(source.first, n), source);
    assert lines[0] == LinePair(source.first, source)[0] && lines[1] == LinePair(source.first, source)[1];
    assert "cname"[0] != "msid"[0];
    assert FirstLine(lines[1..], "msid") == Ok(lines[1]);
  }

  lemma SimReadAsRtx(ssrcs: seq<Ssrc>, rest: seq<SsrcGroup>)
    requires |ssrcs| >= 2
    ensures FirstRtx([Sim(ssrcs)] + rest, ssrcs[0]) == Ok(ssrcs[1])
  {
    SimTokens(ssrcs);
  }

  lemma MsidTokens(msid: string)
    requires TwoTokens(msid)
    ensures |Tokens(msid, ' ')| == 2 && Tokens(msid, ' ')[0] + " " + Tokens(msid, ' ')[1] == msid
  {
    var streamId, trackId :|
      msid == streamId + " " + trackId && FreeOf(streamId, ' ') && FreeOf(trackId, ' ') && trackId != "";
    var v := [streamId, trackId];
    assert Joined(v[1..], ' ') == trackId;
    SplitUndoesJoin(v, ' ');
    assert AllFreeOf(v, ' ');
  }

  lemma ReadSourceParts(media: Media, source: Source, rtx: Ssrc)
    requires FirstLine(media.ssrcs, "cname") == Ok(LinePair(source.first, source)[0])
    requires FirstLine(media.ssrcs, "msid") == Ok(LinePair(source.first, source)[1])
    requires media.ssrcGroups.Some? && FirstRtx(media.ssrcGroups.value, source.first) == Ok(rtx)
    requires TwoTokens(source.msid)
    ensures ReadSource(media) == Ok(source.(firstRtx := rtx))
  {
    MsidTokens(source.msid);
  }

  // The writer finds its own CNAME and msid again, but takes the second media SSRC, which follows
  // the first one in the SIM group, for the RTX SSRC: it looks for no particular kind of group.
  lemma SecondWriteMisreadsSim(source: Source, n: nat)
    requires 2 <= n < 256 && TwoTokens(source.msid)
    ensures ReadSource(Render(source, n)) == Ok(source.(firstRtx := (source.first + 1) % UINT32))
  {
    RenderedLinesFound(source, n);
    RenderedRtx(source, n);
    ReadSourceParts(Render(source, n), source, (source.first + 1) % UINT32);
  }

  lemma RenderedRtx(source: Source, n: nat)
    requires n >= 2
    ensures FirstRtx(Render(source, n).ssrcGroups.value, source.first) == Ok((source.first + 1) % UINT32)
  {
    hide FirstRtx, Range, Fids, Sim;
    var ssrcs := Range(source.first, n);
    RangeAt(source.first, n, 0);
    RangeAt(source.first, n, 1);
    SimReadAsRtx(ssrcs, Fids(ssrcs, RtxRange(source, n)));
  }

  // Hence a media object written twice reads back as the streams the second write announces exactly if
  // the SSRC misread for RTX has wrapped to 0, which stands for none.
  lemma WritingTwice(source: Source, n: nat)
    requires 2 <= n < 256 && TwoTokens(source.msid)
    ensures WithLegacySimulcast(Render(source, n), n).Ok?
    ensures var again := source.(firstRtx := (source.first + 1) % UINT32);
      Encodings(WithLegacySimulcast(Render(source, n), n).value) == Ok(Streams(again, n)) <==>
        source.first == UINT32 - 1
  {
    SecondWriteMisreadsSim(source, n);
    MisreadRoundTrip(source.(firstRtx := (source.first + 1) % UINT32), n);
  }

  lemma MisreadRoundTrip(source: Source, n: nat)
    requires 2 <= n < 256 && source.firstRtx == (source.first + 1) % UINT32
    ensures Encodings(Render(source, n)) == Ok(Streams(source, n)) <==> source.first == UINT32 - 1
  {
    RoundTrip(source, n);
    MisreadOverlaps(source, n);
  }

  lemma MisreadOverlaps(source: Source, n: nat)
    requires n >= 2 && source.firstRtx == (source.first + 1) % UINT32
    ensures Disjoint(Range(source.first, n), RtxRange(source, n)) <==> source.first == UINT32 - 1
  {
    hide Range;
    if source.firstRtx != 0 {
      SecondIsAlsoRtx(source, n);
      assert Range(source.first, n)[1] in Range(source.first, n);
    }
  }

  lemma SecondIsAlsoRtx(source: Source, n: nat)
    requires n >= 2 && source.firstRtx == (source.first + 1) % UINT32 && source.firstRtx != 0
    ensures Range(source.first, n)[1] in RtxRange(source, n)
  {
    RangeAt(source.first, n, 1);
    RangeAt(source.firstRtx, n, 0);
  }

  /* Which SSRC is taken for RTX */

  // A group line with its SSRCs as numbers.
  datatype Group = Group(semantics: string, ssrcs: seq<Ssrc>)

  function Line(g: Group): (line: SsrcGroup) {
    SsrcGroup(Some(g.semantics), Some(Joined(Decimals(g.ssrcs), ' ')))
  }

  function GroupLines(groups: seq<Group>): (lines: seq<SsrcGroup>) {
    if groups == [] then [] else [Line(groups[0])] + GroupLines(groups[1..])
  }

  ghost predicate WellFormed(groups: seq<Group>) {
    forall i :: 0 <= i < |groups| ==> |groups[i].ssrcs| >= 2
  }

  predicate StartsWith(g: Group, first: Ssrc) {
    g.ssrcs != [] && g.ssrcs[0] == first
  }

  // The first group that starts with this SSRC, and the first such FID group.
  function Headed(groups: seq<Group>, first: Ssrc): (r: Option<Group>)
    ensures r.Some? ==> r.value in groups && StartsWith(r.value, first)
  {
    if groups == [] then None
    else if StartsWith(groups[0], first) then Some(groups[0])
    else Headed(groups[1..], first)
  }

  function HeadedFid(groups: seq<Group>, first: Ssrc): (r: Option<Group>)
    ensures r.Some? ==> r.value in groups
  {
    if groups == [] then None
    else if groups[0].semantics == "FID" && StartsWith(groups[0], first) then Some(groups[0])
    else HeadedFid(groups[1..], first)
  }

  // The RTX SSRC the offer names for an SSRC: its partner in a FID group, 0 if there is none.
  function FidPartner(groups: seq<Group>, first: Ssrc): (rtx: Ssrc)
    requires WellFormed(groups)
  {
    var g := HeadedFid(groups, first);
    if g.Some? then g.value.ssrcs[1] else 0
  }

  lemma FirstRtxStep(g: Group, rest: seq<SsrcGroup>, first: Ssrc)
    requires |g.ssrcs| >= 2
    ensures FirstRtx([Line(g)] + rest, first) == if g.ssrcs[0] == first then Ok(g.ssrcs[1]) else FirstRtx(rest, first)
  {
    SimTokens(g.ssrcs);
    assert ([Line(g)] + rest)[1..] == rest;
  }

  // Through the decimal text the writer takes the second SSRC of the first group that starts with the
  // media SSRC, whatever the group is for.
  lemma {:induction false} RtxTaken(groups: seq<Group>, first: Ssrc)
    requires WellFormed(groups)
    ensures FirstRtx(GroupLines(groups), first) ==
            Ok(if Headed(groups, first).Some? then Headed(groups, first).value.ssrcs[1] else 0)
  {
    if groups != [] {
      RtxTaken(groups[1..], first);
      FirstRtxStep(groups[0], GroupLines(groups[1..]), first);
    }
  }

  lemma {:induction false} HeadedByFid(groups: seq<Group>, first: Ssrc)
    ensures Headed(groups, first).None? ==> HeadedFid(groups, first).None?
    ensures Headed(groups, first).Some? && Headed(groups, first).value.semantics == "FID" ==>
      HeadedFid(groups, first) == Headed(groups, first)
  {
    if groups != [] {
      HeadedByFid(groups[1..], first);
    }
  }

  // So it takes the RTX SSRC the offer names exactly if no group starts with the media SSRC, or the
  // first that does is a FID group, or its second SSRC is that RTX SSRC anyway.
  lemma RtxIsFidPartner(groups: seq<Group>, first: Ssrc)
    requires WellFormed(groups)
    ensures FirstRtx(GroupLines(groups), first) == Ok(FidPartner(groups, first)) <==>
      var g := Headed(groups, first);
      g.None? || g.value.semantics == "FID" || g.value.ssrcs[1] == FidPartner(groups, first)
  {
    RtxTaken(groups, first);
    HeadedByFid(groups, first);
  }

  // If no other group pairs the media SSRC with that RTX SSRC, the kind of the first group decides.
  lemma RtxNeedsFidFirst(groups: seq<Group>, first: Ssrc)
    requires WellFormed(groups)
    requires forall g :: g in groups && g.semantics != "FID" && StartsWith(g, first) ==>
      g.ssrcs[1] != FidPartner(groups, first)
    ensures FirstRtx(GroupLines(groups), first) == Ok(FidPartner(groups, first)) <==>
      var g := Headed(groups, first); g.None? || g.value.semantics == "FID"
  {
    RtxIsFidPartner(groups, first);
  }

  // A simulcast offer that lists its SIM group first: SSRC 2 is taken instead of the RTX SSRC 9.
  lemma SimBeforeFid()
    ensures var groups := [Group("SIM", [1, 2]), Group("FID", [1, 9])];
      FidPartner(groups, 1) == 9 && FirstRtx(GroupLines(groups), 1) == Ok(2)
  {
    var groups := [Group("SIM", [1, 2]), Group("FID", [1, 9])];
    assert "SIM"[0] != "FID"[0] && groups[1..][0] == groups[1];
    RtxTaken(groups, 1);
  }

  /* Scalability modes */

  predicate IsNonZeroDigit(c: char) {
    '1' <= c <= '9'
  }

  // [1-9]\d{0,1} at the start of the text: how many characters it takes when `T` or the end must follow.
  function LayerDigits(s: string): (k: nat)
    ensures k <= |s| && k <= 2
    ensures k > 0 ==> IsNonZeroDigit(s[0])
    ensures forall i :: 0 <= i < k ==> IsDigit(s[i])
  {
    if s == "" || !IsNonZeroDigit(s[0]) then 0
    else if |s| > 1 && IsDigit(s[1]) then 2 else 1
  }

  // parseScalabilityMode: spatial and temporal layers, 1 and 1 if the text does not match.
  function ParseScalabilityMode(mode: string): (layers: (nat, nat))
    ensures 1 <= layers.0 <= 99 && 1 <= layers.1 <= 99
  {
    if mode == "" || (mode[0] != 'L' && mode[0] != 'S') then (1, 1)
    else
      var k := LayerDigits(mode[1..]);
      if k == 0 || 1 + k >= |mode| || mode[1 + k] != 'T' then (1, 1)
      else
        var rest := mode[k + 2..];
        var l := LayerDigits(rest);
        if l == 0 || exists i :: l <= i < |rest| && IsLineTerminator(rest[i]) then (1, 1)
        else
          LayerBounds(mode[1..][..k]);
          LayerBounds(rest[..l]);
          (DigitsValue(mode[1..][..k]), DigitsValue(rest[..l]))
  }

  lemma LayerBounds(s: string)
    requires 1 <= |s| <= 2 && IsNonZeroDigit(s[0]) && forall i :: 0 <= i < |s| ==> IsDigit(s[i])
    ensures 1 <= DigitsValue(s) <= 99
  {
    if |s| == 2 {
      assert DigitsValue(s[..1]) == (s[0] - '0') as nat;
    }
  }

  // The handler narrows the number of spatial layers to a uint8_t before it writes the streams:
  // nothing is lost, so the whole path from a mode string to the encodings read back is exact.
  lemma ModeToEncodings(mode: string, media: Media, source: Source)
    requires ReadSource(media) == Ok(source)
    requires ParseScalabilityMode(mode).0 > 1
    ensures var n := ParseScalabilityMode(mode).0;
      && WithLegacySimulcast(media, n % 256).Ok?
      && var written := WithLegacySimulcast(media, n % 256).value;
      && GetCname(written.ssrcs) == source.cname
      && (Disjoint(Range(source.first, n), RtxRange(source, n)) <==>
          Encodings(written) == Ok(Streams(source, n)))
  {
    var n := ParseScalabilityMode(mode).0;
    assert n % 256 == n;
    assert WithLegacySimulcast(media, n) == Ok(Render(source, n));
    RoundTrip(source, n);
    CnameRoundTrip(source, n);
  }
}
