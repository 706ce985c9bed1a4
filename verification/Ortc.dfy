/** Capability negotiation: from two sets of capabilities to the extended ones. */
module Ortc {

  import opened Common
  import opened Text
  import opened Rtp

  /* Matching codecs */

  // ^(audio|video)/rtx$ in any case.
  predicate IsRtx(mimeType: string) {
    Lower(mimeType) == "audio/rtx" || Lower(mimeType) == "video/rtx"
  }

  // std::to_string of a number read as int32_t.
  function Int32Text(n: int): (s: string) {
    var low := n % UINT32;
    if low < UINT32 / 2 then Decimal(low) else "-" + Decimal(UINT32 - low)
  }

  function Truncated(r: real): (n: int) {
    if r >= 0.0 then r.Floor else -(-r).Floor
  }

  // A parameter read as text; null cannot be.
  function TextOf(parameters: Params, key: string, default: string): (r: Result<string>) {
    if key !in parameters then Ok(default)
    else match parameters[key]
      case Text(s) => Ok(s)
      case Integer(n) => Ok(Int32Text(n))
      case Fraction(r) => Ok(Int32Text(Truncated(r)))
      case Null => Throws
      case Other => Throws
  }

  function ByteOf(parameters: Params, key: string): (b: nat) {
    if key in parameters && parameters[key].Integer? then parameters[key].number % 256 else 0
  }

  // What libwebrtc makes of two sets of H264 parameters: None if the profiles differ, else the
  // profile-level-id for the answer, if any.
  datatype H264 = H264(levelAsymmetryAllowed: nat, packetizationMode: nat, profileLevelId: string)

  type H264Answer = (H264, H264) -> Option<Option<string>>

  datatype Matching = Differ | Same | SameWith(profileLevelId: Option<string>)

  function MatchH264(answer: H264Answer, a: Params, b: Params): (r: Result<Matching>) {
    var aMode, bMode := ByteOf(a, "packetization-mode"), ByteOf(b, "packetization-mode");
    if aMode != bMode then Ok(Differ)
    else
      var aId :- TextOf(a, "profile-level-id", "");
      var bId :- TextOf(b, "profile-level-id", "");
      var id := answer(H264(ByteOf(a, "level-asymmetry-allowed"), aMode, aId),
                       H264(ByteOf(b, "level-asymmetry-allowed"), bMode, bId));
      Ok(if id.None? then Differ else SameWith(id.value))
  }

  function MatchVp9(a: Params, b: Params): (r: Result<Matching>) {
    var aId :- TextOf(a, "profile-id", "0");
    var bId :- TextOf(b, "profile-id", "0");
    Ok(if aId == bId then Same else Differ)
  }

  // matchCodecs with strict set.
  function Match(answer: H264Answer, a: Codec, b: Codec): (r: Result<Matching>)
    ensures r.Ok? && !r.value.Differ? ==>
      Lower(a.mimeType) == Lower(b.mimeType) && a.clockRate == b.clockRate && a.channels == b.channels
  {
    if Lower(a.mimeType) != Lower(b.mimeType) || a.clockRate != b.clockRate || a.channels != b.channels then Ok(Differ)
    else if Lower(a.mimeType) == "video/h264" then MatchH264(answer, a.parameters, b.parameters)
    else if Lower(a.mimeType) == "video/vp9" then MatchVp9(a.parameters, b.parameters)
    else Ok(Same)
  }

  // What matchCodecs with modify set does to each of the two codecs.
  function Adjusted(c: Codec, m: Matching): (c': Codec) {
    if !m.SameWith? then c
    else if m.profileLevelId.Some? then
      c.(parameters := c.parameters["profile-level-id" := Text(m.profileLevelId.value)])
    else c.(parameters := c.parameters - {"profile-level-id"})
  }

  // The first of locals[i..] that matches, and how.
  function FirstMatch(answer: H264Answer, locals: seq<Codec>, remote: Codec, i: nat)
    : (r: Result<Option<(nat, Matching)>>)
    requires i <= |locals|
    ensures r.Ok? && r.value.Some? ==> i <= r.value.value.0 < |locals|
    decreases |locals| - i
  {
    if i == |locals| then Ok(None)
    else
      var m :- Match(answer, locals[i], remote);
      if m.Differ? then FirstMatch(answer, locals, remote, i + 1) else Ok(Some((i, m)))
  }

  /* Extended capabilities; a payload type that is null is None. */

  datatype ExtendedCodec = ExtendedCodec(
    mimeType: string, kind: string, clockRate: int, channels: Option<int>,
    localPayloadType: Option<int>, localRtxPayloadType: Option<int>,
    remotePayloadType: Option<int>, remoteRtxPayloadType: Option<int>,
    localParameters: Params, remoteParameters: Params, rtcpFeedback: seq<Feedback>)

  datatype ExtendedExtension = ExtendedExtension(
    kind: string, uri: string, sendId: int, recvId: int, encrypt: bool, direction: Option<Direction>)

  datatype Extended = Extended(codecs: seq<ExtendedCodec>, headerExtensions: seq<ExtendedExtension>)

  // reduceRtcpFeedback: the feedback of a that b has too, in the order of a.
  function CommonFeedback(a: seq<Feedback>, b: seq<Feedback>): (r: seq<Feedback>) {
    if a == [] then []
    else CommonFeedback(a[..|a| - 1], b) + (if a[|a| - 1] in b then [a[|a| - 1]] else [])
  }

  method ReduceRtcpFeedback(a: seq<Feedback>, b: seq<Feedback>) returns (r: seq<Feedback>)
    ensures r == CommonFeedback(a, b)
  {
    r := [];
    for i := 0 to |a|
      invariant r == CommonFeedback(a[..i], b)
    {
      assert a[..i + 1][..i] == a[..i];
      if a[i] in b {
        r := r + [a[i]];
      }
    }
    assert a[..|a|] == a;
  }

  // Feedback survives exactly if both sides have it.
  lemma {:induction false} CommonFeedbackMembers(a: seq<Feedback>, b: seq<Feedback>, fb: Feedback)
    ensures fb in CommonFeedback(a, b) <==> fb in a && fb in b
  {
    if a != [] {
      CommonFeedbackMembers(a[..|a| - 1], b, fb);
      assert a == a[..|a| - 1] + [a[|a| - 1]];
    }
  }

  function Extend(local: Codec, remote: Codec): (e: ExtendedCodec) {
    ExtendedCodec(local.mimeType, local.kind, local.clockRate, local.channels, local.payloadType, None,
                  remote.payloadType, None, local.parameters, remote.parameters,
                  CommonFeedback(local.rtcpFeedback, remote.rtcpFeedback))
  }

  // The first pass over the first n remote codecs. Matching H264 codecs rewrites them in place, so
  // the local codecs change along the way.
  function ExtendUpTo(answer: H264Answer, locals: seq<Codec>, remotes: seq<Codec>, n: nat)
    : (r: Result<(seq<Codec>, seq<ExtendedCodec>)>)
    requires n <= |remotes|
    ensures r.Ok? ==> |r.value.0| == |locals|
  {
    if n == 0 then Ok((locals, []))
    else
      var before :- ExtendUpTo(answer, locals, remotes, n - 1);
      ExtendOne(answer, before.0, before.1, remotes[n - 1])
  }

  function ExtendOne(answer: H264Answer, locals: seq<Codec>, done: seq<ExtendedCodec>, remote: Codec)
    : (r: Result<(seq<Codec>, seq<ExtendedCodec>)>)
    ensures r.Ok? ==> |r.value.0| == |locals|
  {
    if IsRtx(remote.mimeType) then Ok((locals, done))
    else
      var found :- FirstMatch(answer, locals, remote, 0);
      if found.None? then Ok((locals, done))
      else
        var (i, m) := found.value;
        var local := Adjusted(locals[i], m);
        Ok((locals[i := local], done + [Extend(local, Adjusted(remote, m))]))
  }

  // The payload type an RTX codec retransmits; null equals no number.
  function Apt(c: Codec): (pt: Option<int>) {
    if "apt" in c.parameters && c.parameters["apt"].Integer? then Some(c.parameters["apt"].number) else None
  }

  predicate IsRtxFor(c: Codec, pt: Option<int>) {
    IsRtx(c.mimeType) && pt.Some? && Apt(c) == pt
  }

  // The first RTX codec for a payload type among codecs[i..].
  function FirstRtx(codecs: seq<Codec>, pt: Option<int>, i: nat): (r: Option<Codec>)
    requires i <= |codecs|
    ensures r.Some? ==> r.value in codecs && IsRtxFor(r.value, pt)
    decreases |codecs| - i
  {
    if i == |codecs| then None
    else if IsRtxFor(codecs[i], pt) then Some(codecs[i])
    else FirstRtx(codecs, pt, i + 1)
  }

  function WithRtx(e: ExtendedCodec, locals: seq<Codec>, remotes: seq<Codec>): (e': ExtendedCodec) {
    var local, remote := FirstRtx(locals, e.localPayloadType, 0), FirstRtx(remotes, e.remotePayloadType, 0);
    if local.None? || remote.None? then e
    else e.(localRtxPayloadType := local.value.payloadType, remoteRtxPayloadType := remote.value.payloadType)
  }

  function AllWithRtx(es: seq<ExtendedCodec>, locals: seq<Codec>, remotes: seq<Codec>): (r: seq<ExtendedCodec>)
    ensures |r| == |es| && forall k :: 0 <= k < |r| ==> r[k] == WithRtx(es[k], locals, remotes)
  {
    if es == [] then [] else AllWithRtx(es[..|es| - 1], locals, remotes) + [WithRtx(es[|es| - 1], locals, remotes)]
  }

  // The direction of a remote extension seen from this side; unknown text leaves it out.
  function Mirrored(direction: Direction): (r: Option<Direction>) {
    match direction
    case SendRecv => Some(SendRecv)
    case RecvOnly => Some(SendOnly)
    case SendOnly => Some(RecvOnly)
    case Inactive => Some(Inactive)
    case OtherDirection(_) => None
  }

  function FirstSameExtension(locals: seq<Extension>, remote: Extension, i: nat): (r: Option<Extension>)
    requires i <= |locals|
    ensures r.Some? ==> r.value in locals && r.value.kind == remote.kind && r.value.uri == remote.uri
    decreases |locals| - i
  {
    if i == |locals| then None
    else if locals[i].kind == remote.kind && locals[i].uri == remote.uri then Some(locals[i])
    else FirstSameExtension(locals, remote, i + 1)
  }

  function ExtensionsUpTo(locals: seq<Extension>, remotes: seq<Extension>, n: nat): (r: seq<ExtendedExtension>)
    requires n <= |remotes|
  {
    if n == 0 then []
    else
      var remote := remotes[n - 1];
      var local := FirstSameExtension(locals, remote, 0);
      ExtensionsUpTo(locals, remotes, n - 1) +
      (if local.None? then []
       else [ExtendedExtension(remote.kind, remote.uri, local.value.preferredId, remote.preferredId,
                               local.value.preferredEncrypt, Mirrored(remote.direction))])
  }

  function ExtendedOf(answer: H264Answer, local: Capabilities, remote: Capabilities): (r: Result<Extended>) {
    var codecs :- ExtendUpTo(answer, local.codecs, remote.codecs, |remote.codecs|);
    Ok(Extended(AllWithRtx(codecs.1, codecs.0, remote.codecs),
                ExtensionsUpTo(local.headerExtensions, remote.headerExtensions, |remote.headerExtensions|)))
  }

  // getExtendedRtpCapabilities on capabilities that have been validated.
  method GetExtendedRtpCapabilities(answer: H264Answer, local: Capabilities, remote: Capabilities)
    returns (r: Result<Extended>)
    ensures r == ExtendedOf(answer, local, remote)
  {
    var first := MatchMediaCodecs(answer, local.codecs, remote.codecs);
    if first.Throws? {
      return Throws;
    }
    var (localCodecs, media) := first.value;
    var codecs := MatchRtxCodecs(media, localCodecs, remote.codecs);
    var extensions := MatchHeaderExtensions(local.headerExtensions, remote.headerExtensions);
    return Ok(Extended(codecs, extensions));
  }

  method MatchRtxCodecs(media: seq<ExtendedCodec>, locals: seq<Codec>, remotes: seq<Codec>)
    returns (codecs: seq<ExtendedCodec>)
    ensures codecs == AllWithRtx(media, locals, remotes)
  {
    codecs := [];
    for k := 0 to |media|
      invariant codecs == AllWithRtx(media[..k], locals, remotes)
    {
      assert media[..k + 1][..k] == media[..k];
      codecs := codecs + [WithRtx(media[k], locals, remotes)];
    }
    assert media[..|media|] == media;
  }

  method MatchHeaderExtensions(locals: seq<Extension>, remotes: seq<Extension>)
    returns (extensions: seq<ExtendedExtension>)
    ensures extensions == ExtensionsUpTo(locals, remotes, |remotes|)
  {
    extensions := [];
    for n := 0 to |remotes|
      invariant extensions == ExtensionsUpTo(locals, remotes, n)
    {
      var remote := remotes[n];
      var local := FirstSameExtension(locals, remote, 0);
      if local.Some? {
        extensions := extensions + [ExtendedExtension(remote.kind, remote.uri, local.value.preferredId,
                                                      remote.preferredId, local.value.preferredEncrypt,
                                                      Mirrored(remote.direction))];
      }
    }
  }

  // The nested loop over remote and local codecs, which rewrites matching H264 codecs.
  method MatchMediaCodecs(answer: H264Answer, localCodecs: seq<Codec>, remoteCodecs: seq<Codec>)
    returns (r: Result<(seq<Codec>, seq<ExtendedCodec>)>)
    ensures r == ExtendUpTo(answer, localCodecs, remoteCodecs, |remoteCodecs|)
  {
    var locals, media := localCodecs, [];
    for n := 0 to |remoteCodecs|
      invariant |locals| == |localCodecs|
      invariant ExtendUpTo(answer, localCodecs, remoteCodecs, n) == Ok((locals, media))
    {
      var remote := remoteCodecs[n];
      if !IsRtx(remote.mimeType) {
        var i := 0;
        var matching := Differ;
        while i < |locals| && matching.Differ?
          invariant 0 <= i <= |locals|
          invariant FirstMatch(answer, locals, remote, 0) ==
                    if matching.Differ? then FirstMatch(answer, locals, remote, i) else Ok(Some((i, matching)))
          invariant !matching.Differ? ==> i < |locals|
          decreases |locals| - i, matching.Differ?
        {
          var m := Match(answer, locals[i], remote);
          if m.Throws? {
            ExtendThrows(answer, localCodecs, remoteCodecs, n + 1);
            return Throws;
          }
          if m.value.Differ? {
            i := i + 1;
          } else {
            matching := m.value;
          }
        }
        if !matching.Differ? {
          locals := locals[i := Adjusted(locals[i], matching)];
          media := media + [Extend(locals[i], Adjusted(remote, matching))];
        }
      }
    }
    return Ok((locals, media));
  }

  lemma {:induction false} ExtendThrows(answer: H264Answer, locals: seq<Codec>, remotes: seq<Codec>, n: nat)
    requires n <= |remotes| && ExtendUpTo(answer, locals, remotes, n).Throws?
    ensures ExtendUpTo(answer, locals, remotes, |remotes|).Throws?
    decreases |remotes| - n
  {
    if n < |remotes| {
      ExtendThrows(answer, locals, remotes, n + 1);
    }
  }
}
