/** The validators of ortc.cpp: they reject ill-formed JSON and fill in defaults in place. */
module Validation {

  import opened Common
  import opened Text
  import opened Rtp

  /* Validating the entries of an array one after the other. */

  function EachUpTo<T, U>(f: T -> Result<U>, xs: seq<T>, n: nat): (r: Result<seq<U>>)
    requires n <= |xs|
    ensures r.Ok? ==> |r.value| == n
  {
    if n == 0 then Ok([])
    else
      var before :- EachUpTo(f, xs, n - 1);
      var last :- f(xs[n - 1]);
      Ok(before + [last])
  }

  function Each<T, U>(f: T -> Result<U>, xs: seq<T>): (r: Result<seq<U>>) {
    EachUpTo(f, xs, |xs|)
  }

  method ValidateEach<T, U>(f: T -> Result<U>, xs: seq<T>) returns (r: Result<seq<U>>)
    ensures r == Each(f, xs)
  {
    var done: seq<U> := [];
    for i := 0 to |xs|
      invariant EachUpTo(f, xs, i) == Ok(done)
    {
      var next := f(xs[i]);
      if next.Throws? {
        EachThrows(f, xs, i + 1);
        return Throws;
      }
      done := done + [next.value];
    }
    return Ok(done);
  }

  lemma {:induction false} EachThrows<T, U>(f: T -> Result<U>, xs: seq<T>, n: nat)
    requires n <= |xs| && EachUpTo(f, xs, n).Throws?
    ensures Each(f, xs).Throws?
    decreases |xs| - n
  {
    if n < |xs| {
      EachThrows(f, xs, n + 1);
    }
  }

  // Each entry of the result is the validated entry.
  lemma {:induction false} EntryAt<T, U>(f: T -> Result<U>, xs: seq<T>, n: nat, i: nat)
    requires i < n <= |xs| && EachUpTo(f, xs, n).Ok?
    ensures f(xs[i]) == Ok(EachUpTo(f, xs, n).value[i])
  {
    if i < n - 1 {
      EntryAt(f, xs, n - 1, i);
    }
  }

  lemma EachAt<T, U>(f: T -> Result<U>, xs: seq<T>, i: nat)
    requires Each(f, xs).Ok? && i < |xs|
    ensures |Each(f, xs).value| == |xs| && f(xs[i]) == Ok(Each(f, xs).value[i])
  {
    EntryAt(f, xs, |xs|, i);
  }

  // It succeeds exactly if every entry is accepted.
  lemma {:induction false} UpToSucceeds<T, U>(f: T -> Result<U>, xs: seq<T>, n: nat)
    requires n <= |xs|
    ensures EachUpTo(f, xs, n).Ok? <==> forall i :: 0 <= i < n ==> f(xs[i]).Ok?
  {
    if n > 0 {
      UpToSucceeds(f, xs, n - 1);
    }
  }

  lemma EachSucceeds<T, U>(f: T -> Result<U>, xs: seq<T>)
    ensures Each(f, xs).Ok? <==> forall i :: 0 <= i < |xs| ==> f(xs[i]).Ok?
  {
    UpToSucceeds(f, xs, |xs|);
  }

  lemma EachOk<T, U>(f: T -> Result<U>, xs: seq<T>, ys: seq<U>)
    requires |xs| == |ys| && forall i :: 0 <= i < |xs| ==> f(xs[i]) == Ok(ys[i])
    ensures Each(f, xs) == Ok(ys)
  {
    EachSucceeds(f, xs);
    forall i | 0 <= i < |xs| ensures Each(f, xs).value[i] == ys[i] {
      EachAt(f, xs, i);
    }
    assert Each(f, xs).value == ys;
  }

  function Objects<T, U>(raw: T -> U, xs: seq<T>): (r: seq<Item<U>>)
    ensures |r| == |xs| && forall i :: 0 <= i < |r| ==> r[i] == Object(raw(xs[i]))
  {
    seq(|xs|, i requires 0 <= i < |xs| => Object(raw(xs[i])))
  }

  // A validator that accepts each of its own results unchanged does so for arrays.
  lemma EachIdempotent<T, U>(f: Item<T> -> Result<U>, raw: U -> T, xs: seq<Item<T>>)
    requires Each(f, xs).Ok?
    requires forall i :: 0 <= i < |xs| && f(xs[i]).Ok? ==> f(Object(raw(f(xs[i]).value))) == f(xs[i])
    ensures Each(f, Objects(raw, Each(f, xs).value)) == Each(f, xs)
  {
    var ys := Each(f, xs).value;
    var again := Objects(raw, ys);
    forall i | 0 <= i < |ys| ensures f(again[i]) == Ok(ys[i]) {
      EachAt(f, xs, i);
    }
    EachOk(f, again, ys);
  }

  function Default<T>(field: Field<T>, default: T): (value: T) {
    if field.Given? then field.value else default
  }

  function Optional<T>(field: Field<T>): (value: Option<T>) {
    if field.Given? then Some(field.value) else None
  }

  function Back<T>(value: Option<T>): (field: Field<T>) {
    if value.Some? then Given(value.value) else Absent
  }

  /* RTCP feedback */

  function ValidateFeedback(raw: Item<RawFeedback>): (r: Result<Feedback>) {
    if raw.NotObject? || !raw.value.kind.Given? then Throws
    else Ok(Feedback(raw.value.kind.value, Default(raw.value.parameter, "")))
  }

  function RawOfFeedback(fb: Feedback): (raw: RawFeedback) {
    RawFeedback(Given(fb.kind), Given(fb.parameter))
  }

  /* Codecs */

  // The media component of a MIME type that matches ^(audio|video)/(.+), in any case.
  function KindOf(mimeType: string): (kind: Option<string>)
    ensures kind.Some? ==> |kind.value| == 5 && IsKind(Lower(kind.value))
  {
    if |mimeType| > 6 && mimeType[5] == '/' && IsKind(Lower(mimeType[..5]))
       && forall i :: 6 <= i < |mimeType| ==> !IsLineTerminator(mimeType[i])
    then Some(mimeType[..5]) else None
  }

  predicate IsKind(kind: string) {
    kind == "audio" || kind == "video"
  }

  predicate ParamsAllowed(parameters: Params) {
    && (forall key :: key in parameters ==> !parameters[key].Other?)
    && ("apt" in parameters ==> parameters["apt"].Integer?)
  }

  // validateRtpCodecCapability and validateRtpCodecParameters, which differ in whether the payload
  // type is mandatory.
  function ValidateCodec(raw: Item<RawCodec>, mandatory: bool): (r: Result<Codec>) {
    if raw.NotObject? || !raw.value.mimeType.Given? then Throws
    else
      var c, mimeType := raw.value, raw.value.mimeType.value;
      var kind := KindOf(mimeType);
      if kind.None? || c.payloadType.Malformed? || (mandatory && c.payloadType.Absent?) || !c.clockRate.Given?
      then Throws
      else
        var parameters := Default(c.parameters, map[]);
        if !ParamsAllowed(parameters) then Throws
        else
          var feedback :- Each(ValidateFeedback, Default(c.rtcpFeedback, []));
          Ok(Codec(mimeType, kind.value, Optional(c.payloadType), c.clockRate.value,
                   if kind.value == "audio" then Some(Default(c.channels, 1)) else None, parameters, feedback))
  }

  function ValidateCapability(raw: Item<RawCodec>): (r: Result<Codec>) {
    ValidateCodec(raw, false)
  }

  function ValidateCodecParameters(raw: Item<RawCodec>): (r: Result<Codec>) {
    ValidateCodec(raw, true)
  }

  function RawOfCodec(c: Codec): (raw: RawCodec) {
    RawCodec(Given(c.mimeType), Back(c.payloadType), Given(c.clockRate), Back(c.channels),
             Given(c.parameters), Given(Objects(RawOfFeedback, c.rtcpFeedback)))
  }

  // What validation guarantees about a codec.
  ghost predicate GoodCodec(c: Codec) {
    && KindOf(c.mimeType) == Some(c.kind)
    && (c.channels.Some? <==> c.kind == "audio")
    && ParamsAllowed(c.parameters)
  }

  lemma ValidatedIsGood(raw: Item<RawCodec>, mandatory: bool)
    requires ValidateCodec(raw, mandatory).Ok?
    ensures GoodCodec(ValidateCodec(raw, mandatory).value)
    ensures mandatory ==> ValidateCodec(raw, mandatory).value.payloadType.Some?
  {
  }

  // A good codec passes validation unchanged.
  lemma GoodIsValid(c: Codec, mandatory: bool)
    requires GoodCodec(c) && (mandatory ==> c.payloadType.Some?)
    ensures ValidateCodec(Object(RawOfCodec(c)), mandatory) == Ok(c)
  {
    EachOk(ValidateFeedback, Objects(RawOfFeedback, c.rtcpFeedback), c.rtcpFeedback);
  }

  /* Header extensions of capabilities */

  function ValidateExtension(raw: Item<RawExtension>): (r: Result<Extension>) {
    if raw.NotObject? then Throws
    else
      var e := raw.value;
      if !e.kind.Given? || !IsKind(e.kind.value) || !e.uri.Given? || e.uri.value == "" || !e.preferredId.Given?
         || e.preferredEncrypt.Malformed? || e.direction.Malformed? then Throws
      else Ok(Extension(e.kind.value, e.uri.value, e.preferredId.value, Default(e.preferredEncrypt, false),
                        Default(e.direction, SendRecv)))
  }

  function RawOfExtension(e: Extension): (raw: RawExtension) {
    RawExtension(Given(e.kind), Given(e.uri), Given(e.preferredId), Given(e.preferredEncrypt), Given(e.direction))
  }

  ghost predicate GoodExtension(e: Extension) {
    IsKind(e.kind) && e.uri != ""
  }

  /* Capabilities */

  function ValidateCapabilities(raw: Item<RawCapabilities>): (r: Result<Capabilities>) {
    if raw.NotObject? || raw.value.codecs.Malformed? then Throws
    else
      var codecs :- Each(ValidateCapability, Default(raw.value.codecs, []));
      if raw.value.headerExtensions.Malformed? then Throws
      else
        var extensions :- Each(ValidateExtension, Default(raw.value.headerExtensions, []));
        Ok(Capabilities(codecs, extensions))
  }

  // validateRtpCapabilities.
  method ValidateRtpCapabilities(raw: Item<RawCapabilities>) returns (r: Result<Capabilities>)
    ensures r == ValidateCapabilities(raw)
  {
    if raw.NotObject? || raw.value.codecs.Malformed? {
      return Throws;
    }
    var codecs := ValidateEach(ValidateCapability, Default(raw.value.codecs, []));
    if codecs.Throws? || raw.value.headerExtensions.Malformed? {
      return Throws;
    }
    var extensions := ValidateEach(ValidateExtension, Default(raw.value.headerExtensions, []));
    if extensions.Throws? {
      return Throws;
    }
    return Ok(Capabilities(codecs.value, extensions.value));
  }

  function RawOfCapabilities(caps: Capabilities): (raw: RawCapabilities) {
    RawCapabilities(Given(Objects(RawOfCodec, caps.codecs)), Given(Objects(RawOfExtension, caps.headerExtensions)))
  }

  ghost predicate GoodCapabilities(caps: Capabilities) {
    && (forall i :: 0 <= i < |caps.codecs| ==> GoodCodec(caps.codecs[i]))
    && (forall i :: 0 <= i < |caps.headerExtensions| ==> GoodExtension(caps.headerExtensions[i]))
  }

  lemma ValidatedAreGood(raw: Item<RawCapabilities>)
    requires ValidateCapabilities(raw).Ok?
    ensures GoodCapabilities(ValidateCapabilities(raw).value)
  {
    var caps := ValidateCapabilities(raw).value;
    var codecs, extensions := Default(raw.value.codecs, []), Default(raw.value.headerExtensions, []);
    forall i | 0 <= i < |caps.codecs| ensures GoodCodec(caps.codecs[i]) {
      EachAt(ValidateCapability, codecs, i);
      ValidatedIsGood(codecs[i], false);
    }
    forall i | 0 <= i < |caps.headerExtensions| ensures GoodExtension(caps.headerExtensions[i]) {
      EachAt(ValidateExtension, extensions, i);
    }
  }

  // Good capabilities pass validation unchanged, and nothing else comes out of it.
  lemma GoodAreValid(caps: Capabilities)
    requires GoodCapabilities(caps)
    ensures ValidateCapabilities(Object(RawOfCapabilities(caps))) == Ok(caps)
  {
    var codecs, extensions := Objects(RawOfCodec, caps.codecs), Objects(RawOfExtension, caps.headerExtensions);
    forall i | 0 <= i < |caps.codecs| ensures ValidateCapability(codecs[i]) == Ok(caps.codecs[i]) {
      GoodIsValid(caps.codecs[i], false);
    }
    EachOk(ValidateCapability, codecs, caps.codecs);
    EachOk(ValidateExtension, extensions, caps.headerExtensions);
  }

  // Validating capabilities a second time succeeds and changes nothing.
  lemma CapabilitiesIdempotent(raw: Item<RawCapabilities>)
    requires ValidateCapabilities(raw).Ok?
    ensures ValidateCapabilities(Object(RawOfCapabilities(ValidateCapabilities(raw).value)))
         == ValidateCapabilities(raw)
  {
    ValidatedAreGood(raw);
    GoodAreValid(ValidateCapabilities(raw).value);
  }

  /* RTP parameters */

  function ValidateExtensionParameters(raw: Item<RawExtensionParameters>): (r: Result<ExtensionParameters>) {
    if raw.NotObject? then Throws
    else
      var e := raw.value;
      var parameters := Default(e.parameters, map[]);
      if !e.uri.Given? || e.uri.value == "" || !e.id.Given? || e.encrypt.Malformed?
         || exists key :: key in parameters && (parameters[key].Null? || parameters[key].Other?) then Throws
      else Ok(ExtensionParameters(e.uri.value, e.id.value, Default(e.encrypt, false), parameters))
  }

  function RawOfExtensionParameters(e: ExtensionParameters): (raw: RawExtensionParameters) {
    RawExtensionParameters(Given(e.uri), Given(e.id), Given(e.encrypt), Given(e.parameters))
  }

  function ValidateEncoding(raw: Item<RawEncoding>): (r: Result<Encoding>) {
    if raw.NotObject? then Throws
    else
      var e := raw.value;
      if e.ssrc.Malformed? || BadText(e.rid) || e.rtx.Malformed? || (e.rtx.Given? && !e.rtx.value.Given?)
         || BadText(e.scalabilityMode) then Throws
      else Ok(Encoding(Optional(e.ssrc), Optional(e.rid), if e.rtx.Given? then Some(e.rtx.value.value) else None,
                       Default(e.dtx, false), Optional(e.scalabilityMode)))
  }

  // Optional text must be a non-empty string if it is there.
  predicate BadText(field: Field<string>) {
    field.Malformed? || (field.Given? && field.value == "")
  }

  function RawOfEncoding(e: Encoding): (raw: RawEncoding) {
    RawEncoding(Back(e.ssrc), Back(e.rid), if e.rtx.Some? then Given(Given(e.rtx.value)) else Absent, Given(e.dtx),
                Back(e.scalabilityMode))
  }

  function ValidateRtcp(raw: RawRtcp): (r: Result<Rtcp>) {
    if raw.cname.Malformed? then Throws else Ok(Rtcp(Optional(raw.cname), Default(raw.reducedSize, true)))
  }

  function ValidateParameters(raw: Item<RawParameters>): (r: Result<Parameters>) {
    if raw.NotObject? || BadText(raw.value.mid) || !raw.value.codecs.Given? then Throws
    else
      var p := raw.value;
      var codecs :- Each(ValidateCodecParameters, p.codecs.value);
      if p.headerExtensions.Malformed? then Throws
      else
        var extensions :- Each(ValidateExtensionParameters, Default(p.headerExtensions, []));
        if p.encodings.Malformed? then Throws
        else
          var encodings :- Each(ValidateEncoding, Default(p.encodings, []));
          if p.rtcp.Malformed? then Throws
          else
            var rtcp :- ValidateRtcp(Default(p.rtcp, RawRtcp(Absent, Absent)));
            Ok(Parameters(Optional(p.mid), codecs, extensions, encodings, rtcp))
  }

  // validateRtpParameters.
  method ValidateRtpParameters(raw: Item<RawParameters>) returns (r: Result<Parameters>)
    ensures r == ValidateParameters(raw)
  {
    if raw.NotObject? || BadText(raw.value.mid) || !raw.value.codecs.Given? {
      return Throws;
    }
    var p := raw.value;
    var codecs := ValidateEach(ValidateCodecParameters, p.codecs.value);
    if codecs.Throws? || p.headerExtensions.Malformed? {
      return Throws;
    }
    var extensions := ValidateEach(ValidateExtensionParameters, Default(p.headerExtensions, []));
    if extensions.Throws? || p.encodings.Malformed? {
      return Throws;
    }
    var encodings := ValidateEach(ValidateEncoding, Default(p.encodings, []));
    if encodings.Throws? || p.rtcp.Malformed? {
      return Throws;
    }
    var rtcp :- ValidateRtcp(Default(p.rtcp, RawRtcp(Absent, Absent)));
    return Ok(Parameters(Optional(p.mid), codecs.value, extensions.value, encodings.value, rtcp));
  }

  function RawOfParameters(p: Parameters): (raw: RawParameters) {
    RawParameters(Back(p.mid), Given(Objects(RawOfCodec, p.codecs)),
                  Given(Objects(RawOfExtensionParameters, p.headerExtensions)),
                  Given(Objects(RawOfEncoding, p.encodings)),
                  Given(RawRtcp(Back(p.rtcp.cname), Given(p.rtcp.reducedSize))))
  }

  lemma CodecParametersIdempotent(xs: seq<Item<RawCodec>>)
    requires Each(ValidateCodecParameters, xs).Ok?
    ensures Each(ValidateCodecParameters, Objects(RawOfCodec, Each(ValidateCodecParameters, xs).value))
         == Each(ValidateCodecParameters, xs)
  {
    forall i | 0 <= i < |xs| && ValidateCodecParameters(xs[i]).Ok?
      ensures ValidateCodecParameters(Object(RawOfCodec(ValidateCodecParameters(xs[i]).value)))
           == ValidateCodecParameters(xs[i])
    {
      ValidatedIsGood(xs[i], true);
      GoodIsValid(ValidateCodecParameters(xs[i]).value, true);
    }
    EachIdempotent(ValidateCodecParameters, RawOfCodec, xs);
  }

  lemma ExtensionParametersIdempotent(xs: seq<Item<RawExtensionParameters>>)
    requires Each(ValidateExtensionParameters, xs).Ok?
    ensures Each(ValidateExtensionParameters,
                 Objects(RawOfExtensionParameters, Each(ValidateExtensionParameters, xs).value))
         == Each(ValidateExtensionParameters, xs)
  {
    EachIdempotent(ValidateExtensionParameters, RawOfExtensionParameters, xs);
  }

  lemma EncodingsIdempotent(xs: seq<Item<RawEncoding>>)
    requires Each(ValidateEncoding, xs).Ok?
    ensures Each(ValidateEncoding, Objects(RawOfEncoding, Each(ValidateEncoding, xs).value))
         == Each(ValidateEncoding, xs)
  {
    EachIdempotent(ValidateEncoding, RawOfEncoding, xs);
  }

  lemma PartsValid(p: RawParameters, q: Parameters)
    requires !BadText(p.mid) && Optional(p.mid) == q.mid
    requires p.codecs.Given? && Each(ValidateCodecParameters, p.codecs.value) == Ok(q.codecs)
    requires p.headerExtensions.Given?
    requires Each(ValidateExtensionParameters, p.headerExtensions.value) == Ok(q.headerExtensions)
    requires p.encodings.Given? && Each(ValidateEncoding, p.encodings.value) == Ok(q.encodings)
    requires p.rtcp.Given? && ValidateRtcp(p.rtcp.value) == Ok(q.rtcp)
    ensures ValidateParameters(Object(p)) == Ok(q)
  {
  }

  lemma PartsSucceed(p: RawParameters)
    requires !BadText(p.mid) && p.codecs.Given?
    requires !p.headerExtensions.Malformed? && Each(ValidateExtensionParameters, Default(p.headerExtensions, [])).Ok?
    requires !p.encodings.Malformed? && Each(ValidateEncoding, Default(p.encodings, [])).Ok?
    requires !p.rtcp.Malformed? && ValidateRtcp(Default(p.rtcp, RawRtcp(Absent, Absent))).Ok?
    ensures ValidateParameters(Object(p)).Ok? <==> Each(ValidateCodecParameters, p.codecs.value).Ok?
  {
  }

  // Validating parameters a second time succeeds and changes nothing.
  lemma ParametersIdempotent(raw: Item<RawParameters>)
    requires ValidateParameters(raw).Ok?
    ensures ValidateParameters(Object(RawOfParameters(ValidateParameters(raw).value))) == ValidateParameters(raw)
  {
    var p, q := raw.value, ValidateParameters(raw).value;
    CodecParametersIdempotent(p.codecs.value);
    ExtensionParametersIdempotent(Default(p.headerExtensions, []));
    EncodingsIdempotent(Default(p.encodings, []));
    PartsValid(RawOfParameters(q), q);
  }
}
