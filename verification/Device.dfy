/** Loading a device: the capabilities it can receive with, and what it can produce and consume. */
module Device {

  import opened Common
  import opened Text
  import opened Rtp
  import opened Validation
  import opened Ortc
  import opened Negotiated
  import opened Sending

  /* Receiving capabilities */

  function RecvMedia(e: ExtendedCodec): (raw: RawCodec) {
    RawCodec(Given(e.mimeType), Nullable(e.remotePayloadType), Given(e.clockRate), Back(e.channels),
             Given(e.localParameters), Given(Objects(RawOfFeedback, e.rtcpFeedback)))
  }

  // The payload type is read as uint8_t.
  function RecvRtx(e: ExtendedCodec): (raw: RawCodec)
    requires e.remotePayloadType.Some?
  {
    RawCodec(Given(e.kind + "/rtx"), Nullable(e.remoteRtxPayloadType), Given(e.clockRate), Absent,
             Given(map["apt" := Integer(e.remotePayloadType.value % 256)]), Given([]))
  }

  function RecvCodecs(entries: seq<ExtendedCodec>, n: nat): (r: Result<seq<Item<RawCodec>>>)
    requires n <= |entries|
  {
    if n == 0 then Ok([])
    else
      var before :- RecvCodecs(entries, n - 1);
      var e := entries[n - 1];
      if e.remoteRtxPayloadType.Some? && e.remotePayloadType.None? then Throws
      else Ok(WithEntry(before, e))
  }

  function WithEntry(before: seq<Item<RawCodec>>, e: ExtendedCodec): (r: seq<Item<RawCodec>>)
    requires e.remoteRtxPayloadType.Some? ==> e.remotePayloadType.Some?
  {
    var media := before + [Object(RecvMedia(e))];
    if e.remoteRtxPayloadType.None? then media else media + [Object(RecvRtx(e))]
  }

  // An extension whose direction is missing cannot be read.
  function RecvExtensions(entries: seq<ExtendedExtension>, n: nat): (r: Result<seq<Item<RawExtension>>>)
    requires n <= |entries|
  {
    if n == 0 then Ok([])
    else
      var before :- RecvExtensions(entries, n - 1);
      var e := entries[n - 1];
      if e.direction.None? then Throws
      else if e.direction.value != SendRecv && e.direction.value != RecvOnly then Ok(before)
      else Ok(before + [Object(RawExtension(Given(e.kind), Given(e.uri), Given(e.recvId), Given(e.encrypt),
                                            Given(e.direction.value)))])
  }

  function RecvOf(ext: Extended): (r: Result<RawCapabilities>) {
    var codecs :- RecvCodecs(ext.codecs, |ext.codecs|);
    var extensions :- RecvExtensions(ext.headerExtensions, |ext.headerExtensions|);
    Ok(RawCapabilities(Given(codecs), Given(extensions)))
  }

  lemma {:induction false} CodecsThrow(entries: seq<ExtendedCodec>, n: nat)
    requires n <= |entries| && RecvCodecs(entries, n).Throws?
    ensures RecvCodecs(entries, |entries|).Throws?
    decreases |entries| - n
  {
    if n < |entries| {
      CodecsThrow(entries, n + 1);
    }
  }

  lemma {:induction false} ExtensionsThrow(entries: seq<ExtendedExtension>, n: nat)
    requires n <= |entries| && RecvExtensions(entries, n).Throws?
    ensures RecvExtensions(entries, |entries|).Throws?
    decreases |entries| - n
  {
    if n < |entries| {
      ExtensionsThrow(entries, n + 1);
    }
  }

  method GetRecvRtpCapabilities(ext: Extended) returns (r: Result<RawCapabilities>)
    ensures r == RecvOf(ext)
  {
    var codecs: seq<Item<RawCodec>> := [];
    for n := 0 to |ext.codecs|
      invariant RecvCodecs(ext.codecs, n) == Ok(codecs)
    {
      var e := ext.codecs[n];
      codecs := codecs + [Object(RecvMedia(e))];
      if e.remoteRtxPayloadType.Some? {
        if e.remotePayloadType.None? {
          CodecsThrow(ext.codecs, n + 1);
          return Throws;
        }
        codecs := codecs + [Object(RecvRtx(e))];
      }
    }
    var extensions: seq<Item<RawExtension>> := [];
    for n := 0 to |ext.headerExtensions|
      invariant RecvExtensions(ext.headerExtensions, n) == Ok(extensions)
    {
      var e := ext.headerExtensions[n];
      if e.direction.None? {
        ExtensionsThrow(ext.headerExtensions, n + 1);
        return Throws;
      }
      if e.direction.value == SendRecv || e.direction.value == RecvOnly {
        extensions := extensions +
          [Object(RawExtension(Given(e.kind), Given(e.uri), Given(e.recvId), Given(e.encrypt),
                               Given(e.direction.value)))];
      }
    }
    return Ok(RawCapabilities(Given(codecs), Given(extensions)));
  }

  /* They are valid exactly if nothing that is needed is missing. */

  lemma {:induction false} EachSnoc<T, U>(f: T -> Result<U>, xs: seq<T>, x: T)
    ensures Each(f, xs + [x]).Ok? <==> Each(f, xs).Ok? && f(x).Ok?
    ensures Each(f, xs + [x]).Ok? ==> Each(f, xs + [x]).value == Each(f, xs).value + [f(x).value]
  {
    SamePrefix(f, xs, x, |xs|);
  }

  lemma {:induction false} SamePrefix<T, U>(f: T -> Result<U>, xs: seq<T>, x: T, n: nat)
    requires n <= |xs|
    ensures EachUpTo(f, xs + [x], n) == EachUpTo(f, xs, n)
  {
    if n > 0 {
      SamePrefix(f, xs, x, n - 1);
    }
  }

  lemma MediaValid(e: ExtendedCodec)
    requires GoodEntry(e)
    ensures var c := ValidateCapability(Object(RecvMedia(e)));
      && (c.Ok? <==> e.remotePayloadType.Some?)
      && (c.Ok? ==> c.value.payloadType == e.remotePayloadType && !IsRtx(c.value.mimeType))
  {
    EachOk(ValidateFeedback, Objects(RawOfFeedback, e.rtcpFeedback), e.rtcpFeedback);
  }

  lemma RtxValid(e: ExtendedCodec)
    requires GoodEntry(e) && e.remoteRtxPayloadType.Some?
    ensures var c := ValidateCapability(Object(RecvRtx(e))); c.Ok? && IsRtx(c.value.mimeType)
  {
    RtxMimeType(e.kind);
  }

  predicate Announces(codecs: seq<Codec>, payloadType: int) {
    exists i :: 0 <= i < |codecs| && !IsRtx(codecs[i].mimeType) && codecs[i].payloadType == Some(payloadType)
  }

  predicate Receives(entries: seq<ExtendedCodec>, n: nat, payloadType: int) {
    exists k :: 0 <= k < n && k < |entries| && entries[k].remotePayloadType == Some(payloadType)
  }

  lemma AnnouncesMore(codecs: seq<Codec>, c: Codec, payloadType: int)
    ensures Announces(codecs + [c], payloadType)
       <==> Announces(codecs, payloadType) || (!IsRtx(c.mimeType) && c.payloadType == Some(payloadType))
  {
    var more := codecs + [c];
    assert more[|codecs|] == c;
    assert forall i :: 0 <= i < |codecs| ==> more[i] == codecs[i];
  }

  lemma OneEntryValid(before: seq<Item<RawCodec>>, e: ExtendedCodec, payloadType: int)
    requires GoodEntry(e)
    ensures var valid, more := Each(ValidateCapability, before), Each(ValidateCapability, WithEntry(before, e));
      && (more.Ok? <==> valid.Ok? && e.remotePayloadType.Some?)
      && (more.Ok? ==>
            (Announces(more.value, payloadType) <==>
             Announces(valid.value, payloadType) || e.remotePayloadType == Some(payloadType)))
  {
    var valid, media := Each(ValidateCapability, before), before + [Object(RecvMedia(e))];
    MediaValid(e);
    EachSnoc(ValidateCapability, before, Object(RecvMedia(e)));
    if Each(ValidateCapability, media).Ok? {
      AnnouncesMore(valid.value, ValidateCapability(Object(RecvMedia(e))).value, payloadType);
    }
    if e.remoteRtxPayloadType.Some? {
      RtxValid(e);
      EachSnoc(ValidateCapability, media, Object(RecvRtx(e)));
      if Each(ValidateCapability, media).Ok? {
        AnnouncesMore(Each(ValidateCapability, media).value, ValidateCapability(Object(RecvRtx(e))).value, payloadType);
      }
    }
  }

  // The items are valid exactly if the first n entries have remote payload types, and announce those.
  ghost predicate Reflects(items: seq<Item<RawCodec>>, entries: seq<ExtendedCodec>, n: nat, payloadType: int)
    requires n <= |entries|
  {
    match Each(ValidateCapability, items)
    case Throws => exists k :: 0 <= k < n && entries[k].remotePayloadType.None?
    case Ok(codecs) =>
      && (forall k :: 0 <= k < n ==> entries[k].remotePayloadType.Some?)
      && (Announces(codecs, payloadType) <==> Receives(entries, n, payloadType))
  }

  lemma ReflectsMore(before: seq<Item<RawCodec>>, entries: seq<ExtendedCodec>, n: nat, payloadType: int)
    requires n < |entries| && GoodEntry(entries[n]) && Reflects(before, entries, n, payloadType)
    ensures Reflects(WithEntry(before, entries[n]), entries, n + 1, payloadType)
  {
    OneEntryValid(before, entries[n], payloadType);
  }

  lemma ReflectsNone(entries: seq<ExtendedCodec>, payloadType: int)
    ensures Reflects([], entries, 0, payloadType)
  {
  }

  ghost predicate GoodUpTo(entries: seq<ExtendedCodec>, n: nat)
    requires n <= |entries|
  {
    n == 0 || (GoodUpTo(entries, n - 1) && GoodEntry(entries[n - 1]))
  }

  lemma {:induction false} AllGood(entries: seq<ExtendedCodec>, n: nat)
    requires n <= |entries| && forall k :: 0 <= k < |entries| ==> GoodEntry(entries[k])
    ensures GoodUpTo(entries, n)
  {
    if n > 0 {
      AllGood(entries, n - 1);
    }
  }

  lemma {:induction false} RecvCodecsValid(entries: seq<ExtendedCodec>, n: nat, payloadType: int)
    requires n <= |entries| && GoodUpTo(entries, n)
    ensures RecvCodecs(entries, n).Ok? && Reflects(RecvCodecs(entries, n).value, entries, n, payloadType)
  {
    hide Reflects, WithEntry, IsRtx, KindOf, ParamsAllowed;
    if n == 0 {
      ReflectsNone(entries, payloadType);
    } else {
      RecvCodecsValid(entries, n - 1, payloadType);
      ReflectsMore(RecvCodecs(entries, n - 1).value, entries, n - 1, payloadType);
    }
  }

  lemma {:induction false} RecvExtensionsValid(entries: seq<ExtendedExtension>, n: nat)
    requires n <= |entries| && forall k :: 0 <= k < |entries| ==> IsKind(entries[k].kind) && entries[k].uri != ""
    ensures RecvExtensions(entries, n).Ok? <==> forall k :: 0 <= k < n ==> entries[k].direction.Some?
    ensures RecvExtensions(entries, n).Ok? ==> Each(ValidateExtension, RecvExtensions(entries, n).value).Ok?
  {
    if n > 0 {
      RecvExtensionsValid(entries, n - 1);
      if RecvExtensions(entries, n).Ok? {
        var before, after := RecvExtensions(entries, n - 1).value, RecvExtensions(entries, n).value;
        if after != before {
          EachSnoc(ValidateExtension, before, after[|before|]);
          assert after == before + [after[|before|]];
        }
      }
    }
  }

  function ValidRecvOf(ext: Extended): (r: Result<Capabilities>) {
    var recv :- RecvOf(ext);
    ValidateCapabilities(Object(recv))
  }

  // The third validation of Load succeeds exactly if no payload type and no direction is missing; the
  // media payload types announced are then the remote ones of the entries.
  lemma RecvValid(ext: Extended, payloadType: int)
    requires GoodExtended(ext)
    ensures ValidRecvOf(ext).Ok? <==> Complete(ext)
    ensures ValidRecvOf(ext).Ok? ==>
      (Announces(ValidRecvOf(ext).value.codecs, payloadType) <==> Receives(ext.codecs, |ext.codecs|, payloadType))
  {
    AllGood(ext.codecs, |ext.codecs|);
    RecvCodecsValid(ext.codecs, |ext.codecs|, payloadType);
    RecvExtensionsValid(ext.headerExtensions, |ext.headerExtensions|);
  }

  /* What can be received */

  // canReceive.
  function CanReceiveOf(raw: Item<RawParameters>, entries: seq<ExtendedCodec>): (r: Result<bool>) {
    var p :- ValidateParameters(raw);
    if p.codecs == [] then Ok(false)
    else Ok(p.codecs[0].payloadType.Some? && Receives(entries, |entries|, p.codecs[0].payloadType.value))
  }

  lemma FirstHasPayloadType(raw: Item<RawParameters>)
    requires ValidateParameters(raw).Ok? && ValidateParameters(raw).value.codecs != []
    ensures ValidateParameters(raw).value.codecs[0].payloadType.Some?
  {
    EachAt(ValidateCodecParameters, raw.value.codecs.value, 0);
  }

  method CanReceive(raw: Item<RawParameters>, entries: seq<ExtendedCodec>) returns (r: Result<bool>)
    ensures r == CanReceiveOf(raw, entries)
  {
    var validated := ValidateRtpParameters(raw);
    if validated.Throws? {
      return Throws;
    }
    var codecs := validated.value.codecs;
    if codecs == [] {
      return Ok(false);
    }
    FirstHasPayloadType(raw);
    var payloadType := codecs[0].payloadType.value;
    for k := 0 to |entries|
      invariant !Receives(entries, k, payloadType)
    {
      if entries[k].remotePayloadType == Some(payloadType) {
        return Ok(true);
      }
    }
    return Ok(false);
  }

  // Consuming is possible exactly if the first codec of the parameters is one of the media codecs the
  // device has announced.
  lemma ReceivesWhatItAnnounces(ext: Extended, raw: Item<RawParameters>)
    requires GoodExtended(ext) && ValidRecvOf(ext).Ok? && ValidateParameters(raw).Ok?
    ensures var codecs := ValidateParameters(raw).value.codecs;
      && (codecs != [] ==> codecs[0].payloadType.Some?)
      && CanReceiveOf(raw, ext.codecs) ==
         Ok(codecs != [] && Announces(ValidRecvOf(ext).value.codecs, codecs[0].payloadType.value))
  {
    var codecs := ValidateParameters(raw).value.codecs;
    if codecs != [] {
      FirstHasPayloadType(raw);
      RecvValid(ext, codecs[0].payloadType.value);
    }
  }

  /* Loading */

  datatype Loaded = Loaded(extended: Extended, recv: Capabilities)

  // The native capabilities and libwebrtc's H264 answers are given.
  function LoadOf(answer: H264Answer, native: Item<RawCapabilities>,
                  router: Item<RawCapabilities>): (r: Result<Loaded>) {
    var remote :- ValidateCapabilities(router);
    var local :- ValidateCapabilities(native);
    var ext :- ExtendedOf(answer, local, remote);
    var recv :- ValidRecvOf(ext);
    Ok(Loaded(ext, recv))
  }

  lemma LoadedIsGood(answer: H264Answer, native: Item<RawCapabilities>, router: Item<RawCapabilities>)
    requires LoadOf(answer, native, router).Ok?
    ensures GoodExtended(LoadOf(answer, native, router).value.extended)
    ensures Complete(LoadOf(answer, native, router).value.extended)
  {
    ValidatedAreGood(router);
    ValidatedAreGood(native);
    NegotiationIsGood(answer, ValidateCapabilities(native).value, ValidateCapabilities(router).value);
    RecvValid(LoadOf(answer, native, router).value.extended, 0);
  }

  // With valid capabilities, loading succeeds exactly if no search for a matching codec runs into a
  // profile that cannot be read, and the router leaves out nothing that is negotiated.
  lemma LoadSucceeds(answer: H264Answer, native: Item<RawCapabilities>, router: Item<RawCapabilities>)
    requires ValidateCapabilities(native).Ok? && ValidateCapabilities(router).Ok?
    ensures var local, remote := ValidateCapabilities(native).value, ValidateCapabilities(router).value;
      LoadOf(answer, native, router).Ok? <==>
        && !BlockedBefore(answer, local.codecs, remote.codecs, |remote.codecs|)
        && RouterComplete(answer, local, remote)
  {
    var local, remote := ValidateCapabilities(native).value, ValidateCapabilities(router).value;
    FirstPassThrows(answer, local.codecs, remote.codecs, |remote.codecs|);
    if ExtendedOf(answer, local, remote).Ok? {
      ValidatedAreGood(router);
      ValidatedAreGood(native);
      NegotiationIsGood(answer, local, remote);
      RecvValid(ExtendedOf(answer, local, remote).value, 0);
      CompleteIff(answer, local, remote);
    }
  }

  // So it is enough that all profiles can be read and the router gives every codec a payload type and
  // every extension a known direction.
  lemma LoadsCompleteRouter(answer: H264Answer, native: Item<RawCapabilities>, router: Item<RawCapabilities>)
    requires ValidateCapabilities(native).Ok? && ValidateCapabilities(router).Ok?
    requires Readable(ValidateCapabilities(native).value.codecs) && Readable(ValidateCapabilities(router).value.codecs)
    requires var codecs := ValidateCapabilities(router).value.codecs;
      forall i :: 0 <= i < |codecs| ==> codecs[i].payloadType.Some?
    requires var extensions := ValidateCapabilities(router).value.headerExtensions;
      forall i :: 0 <= i < |extensions| ==> !extensions[i].direction.OtherDirection?
    ensures LoadOf(answer, native, router).Ok?
  {
    var local, remote := ValidateCapabilities(native).value, ValidateCapabilities(router).value;
    ReadableGoesThrough(answer, local.codecs, remote.codecs, |remote.codecs|);
    FirstPassThrows(answer, local.codecs, remote.codecs, |remote.codecs|);
    LoadSucceeds(answer, native, router);
  }

  // A router codec that is kept but has no payload type makes Load throw.
  lemma MissingPayloadType(answer: H264Answer, native: Item<RawCapabilities>, router: Item<RawCapabilities>, j: nat)
    requires ValidateCapabilities(native).Ok? && ValidateCapabilities(router).Ok?
    requires var local, remote := ValidateCapabilities(native).value, ValidateCapabilities(router).value;
      IsKeptAt(answer, local.codecs, remote.codecs, j) && remote.codecs[j].payloadType.None?
    ensures LoadOf(answer, native, router).Throws?
  {
    hide LoadOf, IsKept, BlockedBefore;
    LoadSucceeds(answer, native, router);
  }

  // So does an extension that both sides have and whose direction at the router is unknown text.
  lemma UnknownDirection(answer: H264Answer, native: Item<RawCapabilities>, router: Item<RawCapabilities>, j: nat)
    requires ValidateCapabilities(native).Ok? && ValidateCapabilities(router).Ok?
    requires var local, remote := ValidateCapabilities(native).value, ValidateCapabilities(router).value;
      && j < |remote.headerExtensions| && remote.headerExtensions[j].direction.OtherDirection?
      && FirstSameExtension(local.headerExtensions, remote.headerExtensions[j], 0).Some?
    ensures LoadOf(answer, native, router).Throws?
  {
    hide LoadOf, BlockedBefore;
    LoadSucceeds(answer, native, router);
  }

  /* Valid capabilities that make Load throw */

  function Json(codecs: seq<Codec>, extensions: seq<Extension>): (raw: Item<RawCapabilities>) {
    Object(RawOfCapabilities(Capabilities(codecs, extensions)))
  }

  lemma JsonIsValid(codecs: seq<Codec>, extensions: seq<Extension>)
    requires GoodCapabilities(Capabilities(codecs, extensions))
    ensures ValidateCapabilities(Json(codecs, extensions)) == Ok(Capabilities(codecs, extensions))
  {
    GoodAreValid(Capabilities(codecs, extensions));
  }

  // A codec without a payload type, against the same with one.
  lemma LoneCodecWithoutPayloadType(answer: H264Answer, codec: Codec, payloadType: int)
    requires GoodCodec(codec) && !IsRtx(codec.mimeType)
    requires Lower(codec.mimeType) != "video/h264" && Lower(codec.mimeType) != "video/vp9"
    ensures var native, router := Json([codec.(payloadType := Some(payloadType))], []),
                                  Json([codec.(payloadType := None)], []);
      ValidateCapabilities(native).Ok? && ValidateCapabilities(router).Ok? && LoadOf(answer, native, router).Throws?
  {
    var local, remote := codec.(payloadType := Some(payloadType)), codec.(payloadType := None);
    JsonIsValid([local], []);
    JsonIsValid([remote], []);
    assert SameMedia([local][0], remote);
    PlainCodecKept(answer, [local], [remote], 0);
    MissingPayloadType(answer, Json([local], []), Json([remote], []), 0);
  }

  // VP9 with a profile of null.
  lemma NullProfile(answer: H264Answer, payloadType: int)
    ensures var vp9 := Codec("video/VP9", "video", Some(payloadType), 90000, None, map["profile-id" := Null], []);
      ValidateCapabilities(Json([vp9], [])).Ok? && LoadOf(answer, Json([vp9], []), Json([vp9], [])).Throws?
  {
    var vp9 := Codec("video/VP9", "video", Some(payloadType), 90000, None, map["profile-id" := Null], []);
    assert Lower("video/VP9") == "video/vp9" && "video/VP9"[..5] == "video" && Lower("video") == "video";
    assert "profile-id"[0] != "apt"[0];
    JsonIsValid([vp9], []);
    hide LoadOf, ValidateCapabilities, GoodCodec, KindOf;
    LoadSucceeds(answer, Json([vp9], []), Json([vp9], []));
    MatchThrows(answer, vp9, vp9);
    assert LocalsAt(answer, [vp9], [vp9], 0) == [vp9];
    assert SearchBlocked(answer, [vp9], vp9, 0);
    assert BlockedAt(answer, [vp9], [vp9], 0);
  }

  // An extension whose direction the router spells in any other way.
  lemma MisspeltDirection(answer: H264Answer, extension: Extension, text: string)
    requires GoodExtension(extension)
    ensures var native, router := Json([], [extension.(direction := SendRecv)]),
                                  Json([], [extension.(direction := OtherDirection(text))]);
      ValidateCapabilities(native).Ok? && ValidateCapabilities(router).Ok? && LoadOf(answer, native, router).Throws?
  {
    var local, remote := extension.(direction := SendRecv), extension.(direction := OtherDirection(text));
    JsonIsValid([], [local]);
    JsonIsValid([], [remote]);
    UnknownDirection(answer, Json([], [local]), Json([], [remote]), 0);
  }

  predicate CanSend(kind: string, entries: seq<ExtendedCodec>) {
    exists k :: 0 <= k < |entries| && entries[k].kind == kind
  }

  function WithKinds(producible: map<string, bool>, entries: seq<ExtendedCodec>): (r: map<string, bool>)
    ensures forall kind :: IsKind(kind) ==> kind in r && r[kind] == CanSend(kind, entries)
  {
    producible["audio" := CanSend("audio", entries)]["video" := CanSend("video", entries)]
  }

  class Device {
    var loaded: bool
    var extendedRtpCapabilities: Extended
    var recvRtpCapabilities: Capabilities
    var canProduceByKind: map<string, bool>

    // A loaded device holds well-formed capabilities, announces what they say and knows what it can
    // produce.
    ghost predicate Valid()
      reads this
    {
      loaded ==>
        && GoodExtended(extendedRtpCapabilities)
        && ValidRecvOf(extendedRtpCapabilities) == Ok(recvRtpCapabilities)
        && forall kind :: IsKind(kind) ==>
             kind in canProduceByKind && canProduceByKind[kind] == CanSend(kind, extendedRtpCapabilities.codecs)
    }

    constructor ()
      ensures Valid() && !loaded
    {
      loaded := false;
      extendedRtpCapabilities := Extended([], []);
      recvRtpCapabilities := Capabilities([], []);
      canProduceByKind := map["audio" := false, "video" := false];
    }

    method Load(answer: H264Answer, native: Item<RawCapabilities>, router: Item<RawCapabilities>)
      returns (r: Result<()>)
      requires Valid()
      modifies this
      ensures Valid()
      ensures old(loaded) ==> r.Throws? && unchanged(this)
      ensures !old(loaded) ==> loaded == r.Ok? == LoadOf(answer, native, router).Ok?
      ensures r.Ok? ==> LoadOf(answer, native, router) == Ok(Loaded(extendedRtpCapabilities, recvRtpCapabilities))
    {
      hide ValidateCapabilities, ExtendedOf, RecvOf, GoodExtended, Complete;
      if loaded {
        return Throws;
      }
      var remote := ValidateRtpCapabilities(router);
      if remote.Throws? {
        return Throws;
      }
      var local := ValidateRtpCapabilities(native);
      if local.Throws? {
        return Throws;
      }
      var ext := GetExtendedRtpCapabilities(answer, local.value, remote.value);
      if ext.Throws? {
        return Throws;
      }
      extendedRtpCapabilities := ext.value;
      canProduceByKind := WithKinds(canProduceByKind, ext.value.codecs);
      var recv := GetRecvRtpCapabilities(extendedRtpCapabilities);
      if recv.Throws? {
        return Throws;
      }
      var valid := ValidateRtpCapabilities(Object(recv.value));
      if valid.Throws? {
        return Throws;
      }
      recvRtpCapabilities := valid.value;
      LoadedIsGood(answer, native, router);
      loaded := true;
      return Ok(());
    }

    // Producing a kind is possible exactly if there are codecs to send for it.
    method CanProduce(kind: string) returns (r: Result<bool>)
      requires Valid()
      ensures r.Ok? <==> loaded && IsKind(kind)
      ensures r.Ok? ==>
        var codecs := SendingCodecs(kind, extendedRtpCapabilities.codecs, false);
        codecs.Ok? && r.value == (codecs.value != [])
    {
      if !loaded || (kind != "audio" && kind != "video") {
        return Throws;
      }
      SendableKinds(kind, extendedRtpCapabilities, false);
      return Ok(canProduceByKind[kind]);
    }
  }
}
