/** SCTP stream parameters: their validator, and what a data producer may ask for. */
module DataChannels {

  import opened Common
  import opened Rtp
  import opened Validation

  // name is the label.
  datatype RawStream = RawStream(
    streamId: Field<int>, ordered: Field<bool>, maxPacketLifeTime: Field<int>, maxRetransmits: Field<int>,
    name: Field<string>, protocol: Field<string>)

  datatype Stream = Stream(
    streamId: int, ordered: bool, maxPacketLifeTime: int, maxRetransmits: int, name: string, protocol: string)

  // validateSctpStreamParameters. A limit counts as given when the member was there at all, even
  // with a value of the wrong type.
  function ValidateStream(raw: Item<RawStream>): (r: Result<Stream>) {
    if raw.NotObject? || !raw.value.streamId.Given? then Throws
    else
      var s := raw.value;
      var lifeTimeGiven, retransmitsGiven := !s.maxPacketLifeTime.Absent?, !s.maxRetransmits.Absent?;
      if lifeTimeGiven && retransmitsGiven then Throws
      else if s.ordered.Given? && s.ordered.value && (lifeTimeGiven || retransmitsGiven) then Throws
      else
        var ordered := if s.ordered.Given? then s.ordered.value else !(lifeTimeGiven || retransmitsGiven);
        Ok(Stream(s.streamId.value, ordered, Default(s.maxPacketLifeTime, 0), Default(s.maxRetransmits, 0),
                  Default(s.name, ""), Default(s.protocol, "")))
  }

  // The JSON the validator leaves behind has every member.
  function RawOfStream(s: Stream): (raw: RawStream) {
    RawStream(Given(s.streamId), Given(s.ordered), Given(s.maxPacketLifeTime), Given(s.maxRetransmits), Given(s.name),
              Given(s.protocol))
  }

  // Unlike the RTP validators this one never accepts its own output.
  lemma OutputIsRejected(raw: Item<RawStream>)
    requires ValidateStream(raw).Ok?
    ensures ValidateStream(Object(RawOfStream(ValidateStream(raw).value))).Throws?
  {
  }

  // An accepted stream is unordered or has no limit, and at most one limit is not zero.
  lemma AcceptedStream(raw: Item<RawStream>)
    requires ValidateStream(raw).Ok?
    ensures var s := ValidateStream(raw).value;
      && (s.maxPacketLifeTime == 0 || s.maxRetransmits == 0)
      && (s.ordered ==> s.maxPacketLifeTime == 0 && s.maxRetransmits == 0)
  {
  }

  // The channel ProduceData describes to the handler.
  datatype ChannelInit = ChannelInit(ordered: bool, maxRetransmits: Option<int>, maxRetransmitTime: Option<int>,
                                     protocol: string)

  // ProduceData: -1 means no retransmit limit, 0 no life time.
  function ProduceData(ordered: bool, maxRetransmits: int, maxPacketLifeTime: int,
                       protocol: string): (r: Result<ChannelInit>) {
    if maxRetransmits != -1 && maxPacketLifeTime != 0 then Throws
    else Ok(ChannelInit(ordered, if maxRetransmits != -1 then Some(maxRetransmits) else None,
                        if maxPacketLifeTime != 0 then Some(maxPacketLifeTime) else None, protocol))
  }

  // The stream parameters SendDataChannel validates.
  function SendParameters(streamId: int, init: ChannelInit): (raw: RawStream) {
    RawStream(Given(streamId), Given(init.ordered), Back(init.maxRetransmitTime), Back(init.maxRetransmits), Absent,
              Given(init.protocol))
  }

  // ... and ReceiveDataChannel.
  function ReceiveParameters(streamId: int, ordered: bool): (raw: RawStream) {
    RawStream(Given(streamId), Given(ordered), Absent, Absent, Absent, Absent)
  }

  function DataProducerStream(streamId: int, ordered: bool, maxRetransmits: int, maxPacketLifeTime: int,
                              protocol: string): (r: Result<Stream>) {
    var init :- ProduceData(ordered, maxRetransmits, maxPacketLifeTime, protocol);
    ValidateStream(Object(SendParameters(streamId, init)))
  }

  // A data producer passes validation exactly when at most one limit is set and none on an ordered
  // channel; the stream then carries what was asked for.
  lemma DataProducerAccepted(streamId: int, ordered: bool, maxRetransmits: int, maxPacketLifeTime: int,
                             protocol: string)
    ensures var limits := (if maxRetransmits != -1 then 1 else 0) + (if maxPacketLifeTime != 0 then 1 else 0);
      var r := DataProducerStream(streamId, ordered, maxRetransmits, maxPacketLifeTime, protocol);
      && (r.Ok? <==> limits <= (if ordered then 0 else 1))
      && (r.Ok? ==> r.value == Stream(streamId, ordered, maxPacketLifeTime,
                                      if maxRetransmits == -1 then 0 else maxRetransmits, "", protocol))
  {
  }

  // ProduceData's own default arguments (ordered, maxRetransmits 0) are therefore always rejected.
  lemma DefaultArgumentsRejected(streamId: int)
    ensures DataProducerStream(streamId, true, 0, 0, "").Throws?
  {
    DataProducerAccepted(streamId, true, 0, 0, "");
  }

  lemma DataConsumerAccepted(streamId: int, ordered: bool)
    ensures ValidateStream(Object(ReceiveParameters(streamId, ordered))) == Ok(Stream(streamId, ordered, 0, 0, "", ""))
  {
  }
}
