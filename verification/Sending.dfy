/** The parameters a transport sends with, and their reduction to one codec. */
module Sending {

  import opened Common
  import opened Text
  import opened Rtp
  import opened Validation
  import opened Ortc
  import opened Negotiated

  // A codec of sending parameters; a payload type that is null is None.
  datatype SendCodec = SendCodec(
    mimeType: string, payloadType: Option<int>, clockRate: int, channels: Option<int>, parameters: Params,
    rtcpFeedback: seq<Feedback>)

  datatype SendParameters = SendParameters(codecs: seq<SendCodec>, headerExtensions: seq<ExtensionParameters>)

  /* Codecs: the first media codec of the kind and its RTX codec. */

  function FirstOfKind(kind: string, entries: seq<ExtendedCodec>, from: nat): (k: nat)
    requires from <= |entries|
    ensures from <= k <= |entries| && (k < |entries| ==> entries[k].kind == kind)
    ensures forall i :: from <= i < k ==> entries[i].kind != kind
    decreases |entries| - from
  {
    if from == |entries| || entries[from].kind == kind then from else FirstOfKind(kind, entries, from + 1)
  }

  function Media(e: ExtendedCodec, remote: bool): (c: SendCodec) {
    SendCodec(e.mimeType, e.localPayloadType, e.clockRate, e.channels,
              if remote then e.remoteParameters else e.localParameters, e.rtcpFeedback)
  }

  // The payload type is read as uint8_t.
  function Retransmission(e: ExtendedCodec): (c: SendCodec)
    requires e.localPayloadType.Some?
  {
    SendCodec(e.kind + "/rtx", e.localRtxPayloadType, e.clockRate, None,
              map["apt" := Integer(e.localPayloadType.value % 256)], [])
  }

  function CodecsOf(e: ExtendedCodec, remote: bool): (r: Result<seq<SendCodec>>) {
    if e.localRtxPayloadType.None? then Ok([Media(e, remote)])
    else if e.localPayloadType.None? then Throws
    else Ok([Media(e, remote), Retransmission(e)])
  }

  function SendingCodecs(kind: string, entries: seq<ExtendedCodec>, remote: bool): (r: Result<seq<SendCodec>>) {
    var k := FirstOfKind(kind, entries, 0);
    if k == |entries| then Ok([]) else CodecsOf(entries[k], remote)
  }

  method CollectCodecs(kind: string, entries: seq<ExtendedCodec>, remote: bool) returns (r: Result<seq<SendCodec>>)
    ensures r == SendingCodecs(kind, entries, remote)
  {
    var codecs: seq<SendCodec> := [];
    for k := 0 to |entries|
      invariant codecs == [] && FirstOfKind(kind, entries, 0) == FirstOfKind(kind, entries, k)
    {
      var e := entries[k];
      if e.kind == kind {
        codecs := [Media(e, remote)];
        if e.localRtxPayloadType.Some? {
          if e.localPayloadType.None? {
            return Throws;
          }
          codecs := codecs + [Retransmission(e)];
          assert codecs == [Media(e, remote), Retransmission(e)];
        }
        return Ok(codecs);
      }
    }
    return Ok(codecs);
  }

  /* Header extensions */

  predicate ForSending(kind: string, e: ExtendedExtension) {
    e.kind == kind && (e.direction == Some(SendRecv) || e.direction == Some(SendOnly))
  }

  // An extension whose direction is missing cannot be read.
  function SendingExtensions(kind: string, entries: seq<ExtendedExtension>, n: nat)
    : (r: Result<seq<ExtensionParameters>>)
    requires n <= |entries|
  {
    if n == 0 then Ok([])
    else
      var before :- SendingExtensions(kind, entries, n - 1);
      var e := entries[n - 1];
      if e.kind == kind && e.direction.None? then Throws
      else Ok(if ForSending(kind, e) then before + [ExtensionParameters(e.uri, e.sendId, e.encrypt, map[])] else before)
  }

  method CollectExtensions(kind: string, entries: seq<ExtendedExtension>) returns (r: Result<seq<ExtensionParameters>>)
    ensures r == SendingExtensions(kind, entries, |entries|)
  {
    var extensions: seq<ExtensionParameters> := [];
    for n := 0 to |entries|
      invariant SendingExtensions(kind, entries, n) == Ok(extensions)
    {
      var e := entries[n];
      if e.kind == kind {
        if e.direction.None? {
          ExtensionsThrow(kind, entries, n + 1);
          return Throws;
        }
        if e.direction == Some(SendRecv) || e.direction == Some(SendOnly) {
          extensions := extensions + [ExtensionParameters(e.uri, e.sendId, e.encrypt, map[])];
        }
      }
    }
    return Ok(extensions);
  }

  lemma {:induction false} ExtensionsThrow(kind: string, entries: seq<ExtendedExtension>, n: nat)
    requires n <= |entries| && SendingExtensions(kind, entries, n).Throws?
    ensures SendingExtensions(kind, entries, |entries|).Throws?
    decreases |entries| - n
  {
    if n < |entries| {
      ExtensionsThrow(kind, entries, n + 1);
    }
  }

  // Among the first n extensions one with this URI is negotiated for sending.
  predicate SendsExtension(kind: string, entries: seq<ExtendedExtension>, n: nat, uri: string) {
    exists i :: 0 <= i < n && i < |entries| && ForSending(kind, entries[i]) && entries[i].uri == uri
  }

  predicate HasUri(extensions: seq<ExtensionParameters>, uri: string) {
    exists i :: 0 <= i < |extensions| && extensions[i].uri == uri
  }

  lemma {:induction false} UriNegotiated(kind: string, entries: seq<ExtendedExtension>, n: nat, uri: string)
    requires n <= |entries| && SendingExtensions(kind, entries, n).Ok?
    ensures HasUri(SendingExtensions(kind, entries, n).value, uri) <==> SendsExtension(kind, entries, n, uri)
  {
    if n > 0 {
      UriNegotiated(kind, entries, n - 1, uri);
      var before, after := SendingExtensions(kind, entries, n - 1).value, SendingExtensions(kind, entries, n).value;
      if HasUri(before, uri) {
        var i :| 0 <= i < |before| && before[i].uri == uri;
        assert after[i].uri == uri;
      }
      if ForSending(kind, entries[n - 1]) {
        assert after[|before|].uri == entries[n - 1].uri;
      }
    }
  }

  /* RTCP feedback of the remote parameters */

  const TRANSPORT_CC_URI := "http://www.ietf.org/id/draft-holmer-rmcat-transport-wide-cc-extensions-01"
  const ABS_SEND_TIME_URI := "http://www.webrtc.org/experiments/rtp-hdrext/abs-send-time"

  const TRANSPORT_CC := "transport-cc"
  const GOOG_REMB := "goog-remb"

  function Dropped(extensions: seq<ExtensionParameters>): (kinds: set<string>) {
    if HasUri(extensions, TRANSPORT_CC_URI) then {GOOG_REMB}
    else if HasUri(extensions, ABS_SEND_TIME_URI) then {TRANSPORT_CC}
    else {TRANSPORT_CC, GOOG_REMB}
  }

  // Among the first n entries, those of no such kind.
  function WithoutUpTo(feedback: seq<Feedback>, kinds: set<string>, n: nat): (r: seq<Feedback>)
    requires n <= |feedback|
  {
    if n == 0 then []
    else
      var before := WithoutUpTo(feedback, kinds, n - 1);
      if feedback[n - 1].kind in kinds then before else before + [feedback[n - 1]]
  }

  function Without(feedback: seq<Feedback>, kinds: set<string>): (r: seq<Feedback>) {
    WithoutUpTo(feedback, kinds, |feedback|)
  }

  lemma {:induction false} UpToMembers(feedback: seq<Feedback>, kinds: set<string>, n: nat, fb: Feedback)
    requires n <= |feedback|
    ensures fb in WithoutUpTo(feedback, kinds, n) <==> fb.kind !in kinds && exists i :: 0 <= i < n && feedback[i] == fb
  {
    if n > 0 {
      UpToMembers(feedback, kinds, n - 1, fb);
    }
  }

  lemma WithoutMembers(feedback: seq<Feedback>, kinds: set<string>, fb: Feedback)
    ensures fb in Without(feedback, kinds) <==> fb in feedback && fb.kind !in kinds
  {
    UpToMembers(feedback, kinds, |feedback|, fb);
  }

  lemma EraseNext<T>(done: seq<T>, all: seq<T>, n: nat)
    requires n < |all|
    ensures var r := done + all[n..];
      && r[|done|] == all[n]
      && r[..|done|] + r[|done| + 1..] == done + all[n + 1..]
      && r == done + [all[n]] + all[n + 1..]
  {
  }

  // The loop that erases entries while it walks over them keeps the order of the rest.
  method EraseKinds(feedback: seq<Feedback>, kinds: set<string>) returns (r: seq<Feedback>)
    ensures r == Without(feedback, kinds)
  {
    r := feedback;
    var it := 0;
    ghost var n := 0;
    while it < |r|
      invariant n <= |feedback| && it == |WithoutUpTo(feedback, kinds, n)|
      invariant r == WithoutUpTo(feedback, kinds, n) + feedback[n..]
      decreases |feedback| - n
    {
      EraseNext(WithoutUpTo(feedback, kinds, n), feedback, n);
      if r[it].kind in kinds {
        r := r[..it] + r[it + 1..];
      } else {
        it := it + 1;
      }
      n := n + 1;
    }
  }

  function Thinned(codecs: seq<SendCodec>, kinds: set<string>): (r: seq<SendCodec>)
    ensures |r| == |codecs|
    ensures forall k :: 0 <= k < |r| ==> r[k] == codecs[k].(rtcpFeedback := Without(codecs[k].rtcpFeedback, kinds))
  {
    seq(|codecs|, k requires 0 <= k < |codecs| => codecs[k].(rtcpFeedback := Without(codecs[k].rtcpFeedback, kinds)))
  }

  method ThinFeedback(codecs: seq<SendCodec>, kinds: set<string>) returns (r: seq<SendCodec>)
    ensures r == Thinned(codecs, kinds)
  {
    r := codecs;
    for k := 0 to |codecs|
      invariant |r| == |codecs| && r[k..] == codecs[k..]
      invariant forall i :: 0 <= i < k ==> r[i] == Thinned(codecs, kinds)[i]
    {
      assert r[k] == r[k..][0] == codecs[k..][0] == codecs[k];
      var feedback := EraseKinds(r[k].rtcpFeedback, kinds);
      assert r[k + 1..] == r[k..][1..] && codecs[k + 1..] == codecs[k..][1..];
      r := r[k := r[k].(rtcpFeedback := feedback)];
    }
  }

  /* The parameters */

  function SendingOf(kind: string, ext: Extended): (r: Result<SendParameters>) {
    var codecs :- SendingCodecs(kind, ext.codecs, false);
    var extensions :- SendingExtensions(kind, ext.headerExtensions, |ext.headerExtensions|);
    Ok(SendParameters(codecs, extensions))
  }

  function SendingRemoteOf(kind: string, ext: Extended): (r: Result<SendParameters>) {
    var codecs :- SendingCodecs(kind, ext.codecs, true);
    var extensions :- SendingExtensions(kind, ext.headerExtensions, |ext.headerExtensions|);
    Ok(SendParameters(Thinned(codecs, Dropped(extensions)), extensions))
  }

  method GetSendingRtpParameters(kind: string, ext: Extended) returns (r: Result<SendParameters>)
    ensures r == SendingOf(kind, ext)
  {
    var codecs := CollectCodecs(kind, ext.codecs, false);
    if codecs.Throws? {
      return Throws;
    }
    var extensions := CollectExtensions(kind, ext.headerExtensions);
    if extensions.Throws? {
      return Throws;
    }
    return Ok(SendParameters(codecs.value, extensions.value));
  }

  method GetSendingRemoteRtpParameters(kind: string, ext: Extended) returns (r: Result<SendParameters>)
    ensures r == SendingRemoteOf(kind, ext)
  {
    var codecs := CollectCodecs(kind, ext.codecs, true);
    if codecs.Throws? {
      return Throws;
    }
    var extensions := CollectExtensions(kind, ext.headerExtensions);
    if extensions.Throws? {
      return Throws;
    }
    var thinned: seq<SendCodec>;
    if HasUri(extensions.value, TRANSPORT_CC_URI) {
      thinned := ThinFeedback(codecs.value, {GOOG_REMB});
    } else if HasUri(extensions.value, ABS_SEND_TIME_URI) {
      thinned := ThinFeedback(codecs.value, {TRANSPORT_CC});
    } else {
      thinned := ThinFeedback(codecs.value, {TRANSPORT_CC, GOOG_REMB});
    }
    return Ok(SendParameters(thinned, extensions.value));
  }

  // Of the feedback that both sides have, transport-cc stays if its header extension is sent, and
  // goog-remb if abs-send-time is sent and the extension of transport-cc is not; so never both.
  lemma CongestionFeedback(kind: string, ext: Extended, fb: Feedback)
    requires SendingRemoteOf(kind, ext).Ok? && SendingRemoteOf(kind, ext).value.codecs != []
    ensures var e := ext.codecs[FirstOfKind(kind, ext.codecs, 0)];
      var n := |ext.headerExtensions|;
      fb in SendingRemoteOf(kind, ext).value.codecs[0].rtcpFeedback <==>
        && fb in e.rtcpFeedback
        && (fb.kind == TRANSPORT_CC ==> SendsExtension(kind, ext.headerExtensions, n, TRANSPORT_CC_URI))
        && (fb.kind == GOOG_REMB ==>
              && SendsExtension(kind, ext.headerExtensions, n, ABS_SEND_TIME_URI)
              && !SendsExtension(kind, ext.headerExtensions, n, TRANSPORT_CC_URI))
  {
    var n := |ext.headerExtensions|;
    UriNegotiated(kind, ext.headerExtensions, n, TRANSPORT_CC_URI);
    UriNegotiated(kind, ext.headerExtensions, n, ABS_SEND_TIME_URI);
    var e := ext.codecs[FirstOfKind(kind, ext.codecs, 0)];
    WithoutMembers(e.rtcpFeedback, Dropped(SendingExtensions(kind, ext.headerExtensions, n).value), fb);
    assert |TRANSPORT_CC| != |GOOG_REMB|;
  }

  /* Reduction to the requested codec */

  // matchCodecs without strict; what is requested has not been validated.
  predicate MatchesRequested(c: SendCodec, requested: RawCodec)
    requires requested.mimeType.Given?
  {
    && Lower(c.mimeType) == Lower(requested.mimeType.value)
    && requested.clockRate == Given(c.clockRate)
    && requested.channels == Back(c.channels)
  }

  function FirstRequested(codecs: seq<SendCodec>, requested: RawCodec, from: nat): (k: nat)
    requires from <= |codecs| && requested.mimeType.Given?
    ensures from <= k <= |codecs| && (k < |codecs| ==> MatchesRequested(codecs[k], requested))
    ensures forall i :: from <= i < k ==> !MatchesRequested(codecs[i], requested)
    decreases |codecs| - from
  {
    if from == |codecs| || MatchesRequested(codecs[from], requested) then from
    else FirstRequested(codecs, requested, from + 1)
  }

  function WithFollowingRtx(codecs: seq<SendCodec>, k: nat): (r: seq<Item<SendCodec>>)
    requires k < |codecs|
  {
    if k + 1 < |codecs| && IsRtx(codecs[k + 1].mimeType) then [Object(codecs[k]), Object(codecs[k + 1])]
    else [Object(codecs[k])]
  }

  // reduceCodecs. Reading past the end appends null: it is returned if no codec is requested, and
  // asking null for its MIME type throws.
  function Reduced(codecs: seq<SendCodec>, requested: Item<RawCodec>): (r: Result<seq<Item<SendCodec>>>) {
    if requested.NotObject? then Ok(if codecs == [] then [NotObject] else WithFollowingRtx(codecs, 0))
    else if codecs == [] || !requested.value.mimeType.Given? then Throws
    else
      var k := FirstRequested(codecs, requested.value, 0);
      if k + 1 < |codecs| then Ok(WithFollowingRtx(codecs, k)) else Throws
  }

  method ReduceCodecs(codecs: seq<SendCodec>, requested: Item<RawCodec>) returns (r: Result<seq<Item<SendCodec>>>)
    ensures r == Reduced(codecs, requested)
  {
    if requested.NotObject? {
      if codecs == [] {
        return Ok([NotObject]);
      }
      var filtered := [Object(codecs[0])];
      if |codecs| > 1 && IsRtx(codecs[1].mimeType) {
        filtered := filtered + [Object(codecs[1])];
        assert filtered == [Object(codecs[0]), Object(codecs[1])];
      }
      return Ok(filtered);
    }
    for idx := 0 to |codecs|
      invariant idx > 0 ==>
        && requested.value.mimeType.Given?
        && FirstRequested(codecs, requested.value, 0) == FirstRequested(codecs, requested.value, idx)
    {
      if !requested.value.mimeType.Given? {
        return Throws;
      }
      if MatchesRequested(codecs[idx], requested.value) {
        if idx + 1 == |codecs| {
          return Throws;
        }
        var filtered := [Object(codecs[idx])];
        if IsRtx(codecs[idx + 1].mimeType) {
          filtered := filtered + [Object(codecs[idx + 1])];
          assert filtered == [Object(codecs[idx]), Object(codecs[idx + 1])];
        }
        return Ok(filtered);
      }
    }
    return Throws;
  }

  /* What negotiated capabilities are good for */

  lemma RtxMimeType(kind: string)
    requires |kind| == 5 && IsKind(Lower(kind))
    ensures IsRtx(kind + "/rtx") && KindOf(kind + "/rtx") == Some(kind)
  {
  }

  // A kind has codecs to send exactly if some entry is of that kind (canSend): one media codec and
  // possibly its RTX codec, whose apt is the media payload type if that fits in a byte.
  lemma SendableKinds(kind: string, ext: Extended, remote: bool)
    requires GoodExtended(ext)
    ensures SendingCodecs(kind, ext.codecs, remote).Ok?
    ensures var codecs := SendingCodecs(kind, ext.codecs, remote).value;
      && MediaThenRtx(codecs)
      && (codecs != [] <==> exists k :: 0 <= k < |ext.codecs| && ext.codecs[k].kind == kind)
      && (codecs != [] ==> KindOf(codecs[0].mimeType) == Some(kind))
      && (|codecs| == 2 ==>
            && KindOf(codecs[1].mimeType) == Some(kind)
            && codecs[0].payloadType.Some? && codecs[1].payloadType.Some?
            && (codecs[1].parameters == map["apt" := Integer(codecs[0].payloadType.value)] <==>
                0 <= codecs[0].payloadType.value < 256))
  {
    var k := FirstOfKind(kind, ext.codecs, 0);
    if k < |ext.codecs| {
      var e := ext.codecs[k];
      assert GoodEntry(e);
      RtxMimeType(kind);
      if e.localPayloadType.Some? {
        assert map["apt" := Integer(e.localPayloadType.value % 256)]["apt"] == Integer(e.localPayloadType.value % 256);
      }
    }
  }

  predicate MediaThenRtx(codecs: seq<SendCodec>) {
    |codecs| <= 2 && (codecs != [] ==> !IsRtx(codecs[0].mimeType)) && (|codecs| == 2 ==> IsRtx(codecs[1].mimeType))
  }

  // Requesting a codec works exactly if it is the media codec and there is an RTX codec after it.
  // What comes out is then everything there is.
  lemma RequestWorks(codecs: seq<SendCodec>, requested: Item<RawCodec>)
    requires MediaThenRtx(codecs)
    ensures Reduced(codecs, requested).Ok? <==>
      || requested.NotObject?
      || (|codecs| == 2 && requested.value.mimeType.Given? && MatchesRequested(codecs[0], requested.value))
    ensures Reduced(codecs, requested).Ok? && codecs != [] ==> Reduced(codecs, requested).value == All(codecs)
  {
  }

  function All(codecs: seq<SendCodec>): (items: seq<Item<SendCodec>>)
    ensures |items| == |codecs| && forall i :: 0 <= i < |items| ==> items[i] == Object(codecs[i])
  {
    seq(|codecs|, i requires 0 <= i < |codecs| => Object(codecs[i]))
  }

  /* Offer and answer */

  // The position of the first offered codec with a payload type; the number of codecs if none has it.
  function OfferWith(offer: seq<SendCodec>, payloadType: Option<int>, from: nat): (k: nat)
    requires from <= |offer|
    ensures from <= k <= |offer| && (k < |offer| ==> offer[k].payloadType == payloadType)
    ensures forall i :: from <= i < k ==> offer[i].payloadType != payloadType
    decreases |offer| - from
  {
    if from == |offer| || offer[from].payloadType == payloadType then from else OfferWith(offer, payloadType, from + 1)
  }

  // Both lists of codecs, reduced alike, differ in parameters and feedback only. Looking up an answer
  // codec in the offer by payload type never fails; it finds its counterpart unless RTX has the
  // payload type of the media codec.
  lemma AnswerFindsOffer(kind: string, ext: Extended, requested: Item<RawCodec>)
    requires GoodExtended(ext) && SendingOf(kind, ext).Ok?
    ensures SendingRemoteOf(kind, ext).Ok?
    ensures var offer, answer := SendingOf(kind, ext).value.codecs, SendingRemoteOf(kind, ext).value.codecs;
      && |offer| == |answer|
      && (Reduced(offer, requested).Ok? <==> Reduced(answer, requested).Ok?)
      && (Reduced(offer, requested).Ok? && offer != [] ==>
            Reduced(offer, requested).value == All(offer) && Reduced(answer, requested).value == All(answer))
      && forall i :: 0 <= i < |offer| ==>
           && answer[i] == offer[i].(parameters := answer[i].parameters, rtcpFeedback := answer[i].rtcpFeedback)
           && OfferWith(offer, answer[i].payloadType, 0) < |offer|
           && (OfferWith(offer, answer[i].payloadType, 0) == i <==>
               i == 0 || offer[0].payloadType != offer[1].payloadType)
  {
    hide Reduced, IsRtx, GoodExtended;
    SendableKinds(kind, ext, false);
    SendableKinds(kind, ext, true);
    var offer, answer := SendingOf(kind, ext).value.codecs, SendingRemoteOf(kind, ext).value.codecs;
    assert forall i :: 0 <= i < |offer| ==>
      answer[i] == offer[i].(parameters := answer[i].parameters, rtcpFeedback := answer[i].rtcpFeedback);
    RequestWorks(offer, requested);
    RequestWorks(answer, requested);
  }

  /* The parameters of a new producer are validated. */

  function RawOfSendCodec(c: SendCodec): (raw: RawCodec) {
    RawCodec(Given(c.mimeType), Nullable(c.payloadType), Given(c.clockRate), Back(c.channels), Given(c.parameters),
             Given(Objects(RawOfFeedback, c.rtcpFeedback)))
  }

  // So a media codec without RTX cannot be requested, not even by its own description.
  lemma LoneCodecCannotBeRequested(c: SendCodec)
    ensures MatchesRequested(c, RawOfSendCodec(c)) && Reduced([c], Object(RawOfSendCodec(c))).Throws?
  {
  }

  // A number or null; null has the wrong type.
  function Nullable<T>(value: Option<T>): (field: Field<T>) {
    if value.Some? then Given(value.value) else Malformed
  }

  lemma SendCodecValid(c: SendCodec)
    requires KindOf(c.mimeType).Some? && ParamsAllowed(c.parameters)
    ensures ValidateCodecParameters(Object(RawOfSendCodec(c))).Ok? <==> c.payloadType.Some?
  {
    EachOk(ValidateFeedback, Objects(RawOfFeedback, c.rtcpFeedback), c.rtcpFeedback);
  }

  lemma AllSendCodecsValid(codecs: seq<SendCodec>)
    requires forall i :: 0 <= i < |codecs| ==> KindOf(codecs[i].mimeType).Some? && ParamsAllowed(codecs[i].parameters)
    ensures Each(ValidateCodecParameters, Objects(RawOfSendCodec, codecs)).Ok?
       <==> forall i :: 0 <= i < |codecs| ==> codecs[i].payloadType.Some?
  {
    forall i | 0 <= i < |codecs|
      ensures ValidateCodecParameters(Object(RawOfSendCodec(codecs[i]))).Ok? <==> codecs[i].payloadType.Some?
    {
      SendCodecValid(codecs[i]);
    }
    EachSucceeds(ValidateCodecParameters, Objects(RawOfSendCodec, codecs));
  }

  lemma SendCodecsAllowed(kind: string, ext: Extended, i: nat)
    requires GoodExtended(ext) && SendingCodecs(kind, ext.codecs, false).Ok?
    requires i < |SendingCodecs(kind, ext.codecs, false).value|
    ensures ParamsAllowed(SendingCodecs(kind, ext.codecs, false).value[i].parameters)
  {
  }

  lemma SendCodecsValid(kind: string, ext: Extended)
    requires GoodExtended(ext) && SendingCodecs(kind, ext.codecs, false).Ok?
    ensures var codecs := SendingCodecs(kind, ext.codecs, false).value;
      Each(ValidateCodecParameters, Objects(RawOfSendCodec, codecs)).Ok? <==>
        (codecs != [] ==> codecs[0].payloadType.Some?)
  {
    SendableKinds(kind, ext, false);
    var codecs := SendingCodecs(kind, ext.codecs, false).value;
    forall i | 0 <= i < |codecs| ensures ParamsAllowed(codecs[i].parameters) {
      SendCodecsAllowed(kind, ext, i);
    }
    AllSendCodecsValid(codecs);
  }

  lemma {:induction false} SendExtensionsValid(kind: string, entries: seq<ExtendedExtension>, n: nat)
    requires n <= |entries| && SendingExtensions(kind, entries, n).Ok?
    requires forall k :: 0 <= k < |entries| ==> entries[k].uri != ""
    ensures forall i :: 0 <= i < |SendingExtensions(kind, entries, n).value| ==>
      var e := SendingExtensions(kind, entries, n).value[i]; e.uri != "" && e.parameters == map[]
  {
    if n > 0 {
      SendExtensionsValid(kind, entries, n - 1);
    }
  }

  // A list of codecs after reduction; null stays null.
  function RawItems(codecs: seq<Item<SendCodec>>): (r: seq<Item<RawCodec>>)
    ensures |r| == |codecs|
  {
    seq(|codecs|, i requires 0 <= i < |codecs| =>
      if codecs[i].NotObject? then NotObject else Object(RawOfSendCodec(codecs[i].value)))
  }

  // The parameters of a new producer.
  function ProducerParameters(codecs: seq<Item<SendCodec>>, extensions: seq<ExtensionParameters>, mid: Field<string>,
                              encodings: Field<seq<Item<RawEncoding>>>, rtcp: Field<RawRtcp>): (raw: RawParameters) {
    RawParameters(mid, Given(RawItems(codecs)), Given(Objects(RawOfExtensionParameters, extensions)), encodings, rtcp)
  }

  lemma ReducedCodecsValid(kind: string, ext: Extended, requested: Item<RawCodec>)
    requires GoodExtended(ext) && SendingCodecs(kind, ext.codecs, false).Ok?
    requires Reduced(SendingCodecs(kind, ext.codecs, false).value, requested).Ok?
    ensures var codecs := SendingCodecs(kind, ext.codecs, false).value;
      Each(ValidateCodecParameters, RawItems(Reduced(codecs, requested).value)).Ok? <==>
        codecs != [] && codecs[0].payloadType.Some?
  {
    SendableKinds(kind, ext, false);
    SendCodecsValid(kind, ext);
    var codecs := SendingCodecs(kind, ext.codecs, false).value;
    RequestWorks(codecs, requested);
    if codecs == [] {
      assert RawItems([NotObject])[0] == NotObject;
      EachSucceeds(ValidateCodecParameters, RawItems([NotObject]));
    } else {
      assert RawItems(All(codecs)) == Objects(RawOfSendCodec, codecs);
    }
  }

  // Whatever codec was requested and whatever valid MID, encodings and RTCP parameters are added, the
  // parameters pass validation exactly if there is a media codec and it has a payload type.
  lemma ProducerParametersValid(kind: string, ext: Extended, requested: Item<RawCodec>, mid: Field<string>,
                                encodings: Field<seq<Item<RawEncoding>>>, rtcp: Field<RawRtcp>)
    requires GoodExtended(ext) && SendingOf(kind, ext).Ok?
    requires Reduced(SendingOf(kind, ext).value.codecs, requested).Ok?
    requires !BadText(mid) && !encodings.Malformed? && Each(ValidateEncoding, Default(encodings, [])).Ok?
    requires !rtcp.Malformed? && ValidateRtcp(Default(rtcp, RawRtcp(Absent, Absent))).Ok?
    ensures var s := SendingOf(kind, ext).value;
      var codecs := Reduced(s.codecs, requested).value;
      ValidateParameters(Object(ProducerParameters(codecs, s.headerExtensions, mid, encodings, rtcp))).Ok? <==>
        s.codecs != [] && s.codecs[0].payloadType.Some?
  {
    hide Reduced, SendingCodecs, SendingExtensions, RawItems;
    var s := SendingOf(kind, ext).value;
    var codecs := Reduced(s.codecs, requested).value;
    ReducedCodecsValid(kind, ext, requested);
    SendExtensionsValid(kind, ext.headerExtensions, |ext.headerExtensions|);
    EachSucceeds(ValidateExtensionParameters, Objects(RawOfExtensionParameters, s.headerExtensions));
    PartsSucceed(ProducerParameters(codecs, s.headerExtensions, mid, encodings, rtcp));
  }

  // What Send reads after the transport has been set up: null has no MIME type.
  predicate HasMimeType(codecs: seq<Item<SendCodec>>) {
    codecs != [] && codecs[0].Object?
  }

  // It is there exactly if the kind has codecs to send.
  lemma MimeTypeIff(kind: string, ext: Extended, requested: Item<RawCodec>, remote: bool)
    requires GoodExtended(ext) && SendingCodecs(kind, ext.codecs, remote).Ok?
    requires Reduced(SendingCodecs(kind, ext.codecs, remote).value, requested).Ok?
    ensures HasMimeType(Reduced(SendingCodecs(kind, ext.codecs, remote).value, requested).value)
       <==> exists k :: 0 <= k < |ext.codecs| && ext.codecs[k].kind == kind
  {
    SendableKinds(kind, ext, remote);
    RequestWorks(SendingCodecs(kind, ext.codecs, remote).value, requested);
  }
}
