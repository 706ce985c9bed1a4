/** Producing a track: the codecs negotiated for its kind and the handler step they lead to.

Before Send is called the transport only asks whether the kind is a key of canProduceByKind, and both
kinds always are; so Send also runs for a kind that nothing was negotiated for.
*/
module Producing {

  import opened Common
  import opened SdpTable
  import opened HandlerSteps
  import Rtp
  import Ortc
  import Negotiated
  import Sending
  import Device

  // The first failure, given that without a MIME type reading it fails: after the transport has been set
  // up and before the local description is set.
  function FirstFailure(h: Handler, hasMimeType: bool, failure: Failure): (f: Failure) {
    if hasMimeType || failure in {AddTransceiver, CreateOffer} || !Connected(h, failure) then failure
    else ReadMimeType
  }

  // SendHandler::Send with the reduction of both lists of codecs before it.
  function Produced(h: Handler, kind: string, ext: Ortc.Extended, requested: Rtp.Item<Rtp.RawCodec>,
                    offer: Description, failure: Failure): (r: (Handler, Result<string>))
    requires Sending.SendingOf(kind, ext).Ok? && Sending.SendingRemoteOf(kind, ext).Ok?
  {
    var codecs := Sending.Reduced(Sending.SendingOf(kind, ext).value.codecs, requested);
    var remoteCodecs := Sending.Reduced(Sending.SendingRemoteOf(kind, ext).value.codecs, requested);
    if codecs.Throws? || remoteCodecs.Throws? then (h, Throws)
    else Sent(h, offer, FirstFailure(h, Sending.HasMimeType(codecs.value), failure))
  }

  // With codecs for the kind, Produce sends, unless a codec is requested that cannot be had.
  lemma SendableIsSent(h: Handler, kind: string, ext: Ortc.Extended, requested: Rtp.Item<Rtp.RawCodec>,
                       offer: Description, failure: Failure)
    requires Negotiated.GoodExtended(ext) && Sending.SendingOf(kind, ext).Ok? && Device.CanSend(kind, ext.codecs)
    ensures Sending.SendingRemoteOf(kind, ext).Ok?
    ensures var codecs := Sending.SendingOf(kind, ext).value.codecs;
      Produced(h, kind, ext, requested, offer, failure) ==
      if requested.NotObject? || (|codecs| == 2 && requested.value.mimeType.Given?
                                  && Sending.MatchesRequested(codecs[0], requested.value))
      then Sent(h, offer, failure) else (h, Throws)
  {
    hide Sent, Sending.Reduced, Sending.MatchesRequested, Sending.SendingCodecs, Sending.SendingExtensions;
    Sending.AnswerFindsOffer(kind, ext, requested);
    Sending.SendableKinds(kind, ext, false);
    Sending.RequestWorks(Sending.SendingOf(kind, ext).value.codecs, requested);
  }

  // What Send does when it finds no MIME type.
  lemma NoMimeType(h: Handler, offer: Description, failure: Failure)
    ensures var (h', r) := Sent(h, offer, FirstFailure(h, false, failure));
      && r.Throws?
      && h'.transceivers == h.transceivers && h'.table.midToIndex == h.table.midToIndex
      && (if failure !in {AddTransceiver, CreateOffer} then h' == Ensured(h, Server, failure) else h' == h)
      && (failure == NoFailure ==> h'.ready && |h'.connects| == |h.connects| + if h.ready then 0 else 1)
  {
  }

  // Without codecs for the kind, Produce always throws and no section is placed. But unless a codec is
  // requested, that is found out only after OnConnect has been called and the transport is set up.
  lemma UnsendableThrows(h: Handler, kind: string, ext: Ortc.Extended, requested: Rtp.Item<Rtp.RawCodec>,
                         offer: Description, failure: Failure)
    requires Negotiated.GoodExtended(ext) && Sending.SendingOf(kind, ext).Ok? && !Device.CanSend(kind, ext.codecs)
    ensures Sending.SendingRemoteOf(kind, ext).Ok?
    ensures var (h', r) := Produced(h, kind, ext, requested, offer, failure);
      && r.Throws?
      && h'.transceivers == h.transceivers && h'.table.midToIndex == h.table.midToIndex
      && (if requested.NotObject? && failure !in {AddTransceiver, CreateOffer} then h' == Ensured(h, Server, failure)
          else h' == h)
      && (requested.NotObject? && failure == NoFailure ==>
            h'.ready && |h'.connects| == |h.connects| + if h.ready then 0 else 1)
  {
    hide Sent, Ensured, FirstFailure, Sending.SendingCodecs, Sending.SendingExtensions;
    Sending.AnswerFindsOffer(kind, ext, requested);
    Sending.SendableKinds(kind, ext, false);
    assert Sending.SendingOf(kind, ext).value.codecs == [];
    NoMimeType(h, offer, failure);
  }
}
