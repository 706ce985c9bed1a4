# Negotiation in libmediasoupclient, verified

This project models the client-side negotiation engine that the video chat application vendors as
libmediasoupclient, together with three small pieces of the WebRTC glue around it, and proves what
the parts promise each other.

A transport owns a handler; a handler owns a remote SDP, a table of media sections that is
recycled, closed and described over and over while producers and consumers come and go. Before
that, capabilities of both sides are validated, matched and turned into what is announced and sent.

| module | what it holds |
|---|---|
| `SdpTable`, `SdpRuns` | the remote SDP as a value, its invariant, and what holds over every run of calls |
| `RemoteSdp` | the RemoteSdp and MediaSection objects, refined to that value |
| `HandlerSteps` | handler calls as steps that may fail anywhere; runs, DTLS roles, stream ids |
| `SectionsInUse`, `RecvRuns`, `SendRuns` | runs of a receiving and of a sending transport: generated MIDs, whose every section is |
| `Handlers`, `Transports` | the handler, transport, producer and consumer objects |
| `Rtp`, `Validation`, `DataChannels` | JSON before and after validation, and the validators |
| `Ortc`, `Negotiated` | extended capabilities and their meaning |
| `Sending`, `Device`, `Producing` | sending parameters, codec reduction, receiving capabilities, Load, Produce |
| `Text`, `Simulcast` | split, join, decimals; the SSRC writer and reader |
| `LazyClass`, `HeaderExtensions`, `SendTime` | lock-free caches, header extension deduplication, send-time unwrapping |

How the model is made:

- A thrown exception is `Throws`. Calls into libwebrtc and the application are steps that succeed
  or fail; a `Failure` says which one fails, and the state left behind is modelled as coded.
- JSON is modelled field by field: absent, of the wrong type, or given. Reading a member that a
  constant JSON value does not have counts as a throw, and in a search as no match.
- Loops and objects of the source are methods and classes, each proved to compute a function on
  values; the properties are proved of those functions. SendTransport with Producer and
  RecvTransport with Consumer share one class each. A handler holds its remote SDP by value, since
  nothing else refers to it.
- A caller's duty that the source does not check (a MID no other section has, stopping only what
  is still there) is `Allowed`, `Obeys` or `Possible`. Where it fails, a lemma says what happens.

Where the code does not do what its callers may expect, the exact condition is proved:

- An explicitly requested codec is accepted only if RTX was negotiated for it (`RequestWorks`);
  otherwise the reduction reads past the end and throws, even for the one codec there is
  (`LoneCodecCannotBeRequested`).
- Producing a kind that nothing was negotiated for throws, but only after OnConnect has been called
  and the transport is set up (`UnsendableThrows`).
- The default arguments of ProduceData are always rejected (`DefaultArgumentsRejected`).
- A DTLS role such as "SERVER" passes validation and is then taken for a client (`DeclaredRoleKept`,
  `UpperCaseServer`), and "AUTO" passes and forces this side to be the server (`LocalRoleFree`,
  `UpperCaseAuto`).
- If OnProduce ends with an exception that is no MediaSoupClientError, the sender's section stays live
  without a producer (`SectionLeftBehind`). An exception about the probator that is no
  std::runtime_error leaves a consumer open and in the map that was never returned (`Consume`).
- A Receive without a MID that fails once its section is built makes the next generated MID clash,
  and so can a supplied MID (`NextMidAfterReceive`); nothing else can (`GeneratedMidIsFree`).
- A first data consumer that fails once its section is built leaves the section behind, and a second
  try places another one with the same MID (`DataCanBeRetried`).
- Closing an unknown MID closes slot 0 (`CloseKeepsInv`).
- A producer or consumer id used twice pushes an open one out of the map (`Register`).
- The writer of legacy simulcast takes any group that starts with the media SSRC for an RTX pair
  (`RtxIsFidPartner`). Its own output starts with a SIM group, so writing a second time, which no
  caller does, goes wrong for all but one SSRC (`WritingTwice`).
- A lookup that prefers encrypted header extensions can change under deduplication
  (`LookupPreserved`).
- A router codec without a payload type or extension with an unknown direction makes Load throw if
  this side has it too, and so does a profile of null (`LoadSucceeds`, with
  `LoneCodecWithoutPayloadType`, `MisspeltDirection` and `NullProfile` as inputs).

## Model

| member | source | states |
|---|---|---|
| `SdpTable.PlaceIsPutAt` | mediasoup-client/deps/libmediasoupclient/src/sdp/RemoteSdp.cpp:130-175 | reusing the MID of the first closed section, or adding, is putting the section into the lowest closed slot or at the end |
| `SdpTable.AddIsPutAt` | mediasoup-client/deps/libmediasoupclient/src/sdp/RemoteSdp.cpp:290-307 | AddMediaSection puts the section at the end |
| `SdpTable.PutAtKeepsInv` | mediasoup-client/deps/libmediasoupclient/src/sdp/RemoteSdp.cpp:290-349 | placing an open section keeps copies, index, first MID and BUNDLE text in agreement if and only if no other slot has its MID |
| `SdpTable.RecycleIsPlace` | mediasoup-client/deps/libmediasoupclient/src/sdp/RemoteSdp.cpp:210-245 | Receive, which goes by the closed section it finds, places as Send does through GetNextMediaSectionIdx |
| `SdpTable.CloseKeepsInv` | mediasoup-client/deps/libmediasoupclient/src/sdp/RemoteSdp.cpp:257-276 | closing keeps the agreement if and only if the MID is in the index; for an unknown MID it is slot 0 that is closed and put into the index |
| `SdpTable.DisableOnlyBreaksCopy` | mediasoup-client/deps/libmediasoupclient/src/sdp/RemoteSdp.cpp:247-255 | DisableMediaSection keeps the agreement if and only if the section was disabled already |
| `SdpTable.UpdateIceKeepsInv` | mediasoup-client/deps/libmediasoupclient/src/sdp/RemoteSdp.cpp:90-108 | new ICE parameters reach every section and every copy |
| `SdpTable.UpdateRoleKeepsInv` | mediasoup-client/deps/libmediasoupclient/src/sdp/RemoteSdp.cpp:110-128 | a new DTLS role reaches every section and every copy |
| `SdpTable.BundleJoinsOpenMids` | mediasoup-client/deps/libmediasoupclient/src/sdp/RemoteSdp.cpp:351-369 | the BUNDLE text is the space-joined list of the open MIDs |
| `SdpTable.BundleTokens` | mediasoup-client/deps/libmediasoupclient/src/sdp/RemoteSdp.cpp:351-369 | splitting the BUNDLE text gives exactly the open MIDs in slot order |
| `SdpRuns.PlacesAsCoded` | mediasoup-client/deps/libmediasoupclient/src/sdp/RemoteSdp.cpp:147-245 | each placing call, as coded through GetNextMediaSectionIdx or find_if, puts its section into the slot the specification names, and never indexes outside the vector |
| `SdpRuns.PlacedAtSlot` | mediasoup-client/deps/libmediasoupclient/src/sdp/RemoteSdp.cpp:130-245 | a new section lands in the lowest closed slot or at the end, touches no other slot and never slot 0 of a non-empty table |
| `SdpRuns.StepKeepsInv` | mediasoup-client/deps/libmediasoupclient/src/sdp/RemoteSdp.cpp:90-369 | every allowed call keeps the agreement |
| `SdpRuns.RunKeepsInv` | mediasoup-client/deps/libmediasoupclient/src/sdp/RemoteSdp.cpp:90-369 | the agreement holds after every legal run |
| `SdpRuns.RunContinues` | mediasoup-client/deps/libmediasoupclient/src/sdp/RemoteSdp.cpp:90-369 | fresh MIDs when placing and known MIDs when closing are all that callers owe: such a call is always possible |
| `SdpRuns.ReachableAgreement` | mediasoup-client/deps/libmediasoupclient/src/sdp/RemoteSdp.cpp:90-369 | in every reachable state: media[i] is section i, midToIndex is exactly the inverse of distinct MIDs, slot 0 holds firstMid with a port other than 0, and the BUNDLE text splits into the open MIDs (section 7 of RFC 8843) |
| `SdpRuns.AppendedWhenFull` | mediasoup-client/deps/libmediasoupclient/src/sdp/RemoteSdp.cpp:210-245 | except for SCTP, a slot is added only when every slot is open |
| `SdpRuns.SlotsBoundedByPeak` | mediasoup-client/deps/libmediasoupclient/src/sdp/RemoteSdp.cpp:130-245 | over any run the number of slots lies between the peak number of open sections and that plus the SCTP calls |
| `SdpRuns.SlotAllocationOptimal` | mediasoup-client/deps/libmediasoupclient/src/sdp/RemoteSdp.cpp:130-245 | over any run without SCTP the number of slots is exactly the peak number of sections open at once |
| `SdpRuns.SlotSurvivesRoleUpdate` | mediasoup-client/deps/libmediasoupclient/src/Handler.cpp:204-233 | setting the DTLS role between GetNextMediaSectionIdx and Send leaves the slot found unchanged |
| `SdpRuns.SectionCount` | mediasoup-client/deps/libmediasoupclient/src/sdp/RemoteSdp.cpp:290-349 | the number of slots never falls and grows by at most one, only when placing |
| `SdpRuns.SlotsAreStable` | mediasoup-client/deps/libmediasoupclient/src/sdp/RemoteSdp.cpp:210-349 | a slot changes MID or kind of section only if it was closed; it reopens only by being recycled and closes only by CloseMediaSection of its own MID (section 8 of RFC 3264) |
| `SdpRuns.CloseTouchesOne` | mediasoup-client/deps/libmediasoupclient/src/sdp/RemoteSdp.cpp:257-276 | CloseMediaSection acts on the slot of its MID alone: disabled if slot 0, closed otherwise |
| `SdpRuns.FirstSlotForEver` | mediasoup-client/deps/libmediasoupclient/src/sdp/RemoteSdp.cpp:257-276 | once there is a first section, its MID and its openness last through every continuation of the run |
| `SdpRuns.VersionCountsDescriptions` | mediasoup-client/deps/libmediasoupclient/src/sdp/RemoteSdp.cpp:278-288 | after any run the session version is the number of GetSdp calls as a uint32_t |
| `RemoteSdp.MediaSection.Answer` | mediasoup-client/deps/libmediasoupclient/src/sdp/MediaSection.cpp:111-145 | an answer section starts open, recvonly for RTP, with the setup attribute of the role |
| `RemoteSdp.MediaSection.Offer` | mediasoup-client/deps/libmediasoupclient/src/sdp/MediaSection.cpp:411-440 | an offer section starts open, sendonly for RTP, with setup actpass |
| `RemoteSdp.MediaSection.SetIceParameters` | mediasoup-client/deps/libmediasoupclient/src/sdp/MediaSection.cpp:75-81 | ICE text replaced, nothing else |
| `RemoteSdp.MediaSection.SetDtlsRole` | mediasoup-client/deps/libmediasoupclient/src/sdp/MediaSection.cpp:399-409 | answers take the setup of the role, offers stay actpass |
| `RemoteSdp.MediaSection.Disable` | mediasoup-client/deps/libmediasoupclient/src/sdp/MediaSection.cpp:83-94 | inactive, stream attributes erased, port kept |
| `RemoteSdp.MediaSection.Close` | mediasoup-client/deps/libmediasoupclient/src/sdp/MediaSection.cpp:96-109 | inactive, port 0, stream attributes erased |
| `RemoteSdp.RemoteSdp.constructor` | mediasoup-client/deps/libmediasoupclient/src/sdp/RemoteSdp.cpp:14-81 | an empty table |
| `RemoteSdp.RemoteSdp.UpdateIceParameters` | mediasoup-client/deps/libmediasoupclient/src/sdp/RemoteSdp.cpp:90-108 | the loop over the section objects refines the update of the whole table |
| `RemoteSdp.RemoteSdp.UpdateDtlsRole` | mediasoup-client/deps/libmediasoupclient/src/sdp/RemoteSdp.cpp:110-128 | the loop over the section objects refines the update of the whole table |
| `RemoteSdp.RemoteSdp.GetNextMediaSectionIdx` | mediasoup-client/deps/libmediasoupclient/src/sdp/RemoteSdp.cpp:130-145 | the lowest closed slot and its MID, or the end and no MID |
| `RemoteSdp.RemoteSdp.Send` | mediasoup-client/deps/libmediasoupclient/src/sdp/RemoteSdp.cpp:147-175 | refines placing an answer section |
| `RemoteSdp.RemoteSdp.SendSctpAssociation` | mediasoup-client/deps/libmediasoupclient/src/sdp/RemoteSdp.cpp:177-191 | refines appending an answer section |
| `RemoteSdp.RemoteSdp.RecvSctpAssociation` | mediasoup-client/deps/libmediasoupclient/src/sdp/RemoteSdp.cpp:193-208 | refines appending the data channel section |
| `RemoteSdp.RemoteSdp.Receive` | mediasoup-client/deps/libmediasoupclient/src/sdp/RemoteSdp.cpp:210-245 | refines placing an offer section into the first closed slot or at the end |
| `RemoteSdp.RemoteSdp.DisableMediaSection` | mediasoup-client/deps/libmediasoupclient/src/sdp/RemoteSdp.cpp:247-255 | refines disabling the section without refreshing the copy |
| `RemoteSdp.RemoteSdp.CloseMediaSection` | mediasoup-client/deps/libmediasoupclient/src/sdp/RemoteSdp.cpp:257-276 | refines closing, with the insertion of 0 for an unknown MID |
| `RemoteSdp.RemoteSdp.GetSdp` | mediasoup-client/deps/libmediasoupclient/src/sdp/RemoteSdp.cpp:278-288 | the version rises by one modulo 2^32 and nothing else changes |
| `RemoteSdp.RemoteSdp.AddMediaSection` | mediasoup-client/deps/libmediasoupclient/src/sdp/RemoteSdp.cpp:290-307 | refines appending: first MID, index, copy and BUNDLE text |
| `RemoteSdp.RemoteSdp.ReplaceMediaSection` | mediasoup-client/deps/libmediasoupclient/src/sdp/RemoteSdp.cpp:309-349 | refines both branches: recycling a slot with re-indexing, and overwriting by own MID |
| `RemoteSdp.RemoteSdp.RegenerateBundleMids` | mediasoup-client/deps/libmediasoupclient/src/sdp/RemoteSdp.cpp:351-369 | the loop computes the BUNDLE text of the open sections |
| `HandlerSteps.SetupKeeps` | mediasoup-client/deps/libmediasoupclient/src/Handler.cpp:127-147 | setting up the transport keeps the handler invariant and all live sections, whether it finds no DTLS parameters, OnConnect throws or OnConnect returns |
| `HandlerSteps.ReceivedKeeps` | mediasoup-client/deps/libmediasoupclient/src/Handler.cpp:634-709 | Receive, failing anywhere or not, keeps the invariant and every live section; on success its own section is live |
| `HandlerSteps.StoppedReceivingKeeps` | mediasoup-client/deps/libmediasoupclient/src/Handler.cpp:770-803 | StopReceiving keeps the invariant and every other live section and ends its own, however it fails |
| `HandlerSteps.SentKeeps` | mediasoup-client/deps/libmediasoupclient/src/Handler.cpp:170-363 | the same for Send |
| `HandlerSteps.StoppedSendingKeeps` | mediasoup-client/deps/libmediasoupclient/src/Handler.cpp:450-484 | the same for StopSending |
| `HandlerSteps.ReceivedDataKeeps` | mediasoup-client/deps/libmediasoupclient/src/Handler.cpp:711-768 | the first data channel keeps the invariant and all live sections |
| `HandlerSteps.SentDataKeeps` | mediasoup-client/deps/libmediasoupclient/src/Handler.cpp:365-448 | the same for sending; the stream id stays below the number of streams |
| `HandlerSteps.StreamIdsCount` | mediasoup-client/deps/libmediasoupclient/src/Handler.cpp:365-448 | after every run the next SCTP stream id is the number of channels created so far modulo 1024, counting those whose negotiation failed |
| `HandlerSteps.StreamIdOfChannel` | mediasoup-client/deps/libmediasoupclient/src/Handler.cpp:365-448 | so the channel numbered k of every run, if it is returned, has id k modulo 1024 |
| `HandlerSteps.StreamIdsCycle` | mediasoup-client/deps/libmediasoupclient/src/Handler.cpp:365-448 | two channels of a run share an id if and only if their numbers agree modulo 1024 |
| `HandlerSteps.RestartedIceKeeps` | mediasoup-client/deps/libmediasoupclient/src/Handler.cpp:589-617 | ICE restart, on either side, keeps the invariant and all live sections |
| `HandlerSteps.RunKeepsInv` | mediasoup-client/deps/libmediasoupclient/src/Handler.cpp:127-850 | after every run of handler calls by obedient callers, with any failures, the handler invariant holds |
| `HandlerSteps.RunContinues` | mediasoup-client/deps/libmediasoupclient/src/Handler.cpp:127-850 | fresh MIDs and stopping only what has not been recycled are all that callers owe |
| `HandlerSteps.ReachableRoles` | mediasoup-client/deps/libmediasoupclient/src/Handler.cpp:127-147 | in every reachable handler state offers say actpass, answers say active or passive as fits the role opposite to the one given to OnConnect, and OnConnect returns at most once and is not called again after that (section 5 of RFC 5763) |
| `HandlerSteps.DataCanBeRetried` | mediasoup-client/deps/libmediasoupclient/src/Handler.cpp:711-768 | after a failed first ReceiveDataChannel the call can be repeated if and only if it was the creation of the channel that failed; otherwise the data section left behind holds the MID |
| `HandlerSteps.UpperCaseServer` | mediasoup-client/deps/libmediasoupclient/src/Handler.cpp:72-76 | a run with the role SERVER, which validates: after one Receive the remote side is the client |
| `HandlerSteps.LocalRoleFree` | mediasoup-client/deps/libmediasoupclient/src/Handler.cpp:72-76 | in every run a validated role leaves the local role free if and only if it is auto in lower case; a role that is not free decides the remote one |
| `HandlerSteps.UpperCaseAuto` | mediasoup-client/deps/libmediasoupclient/src/Handler.cpp:72-76 | the role AUTO validates and in every run forces this side to be the server |
| `HandlerSteps.DeclaredRoleKept` | mediasoup-client/deps/libmediasoupclient/src/Handler.cpp:72-76 | once connected, the remote SDP keeps the declared DTLS role if and only if it is client in any case or server in lower case |
| `RecvRuns.StopHitsOwnSection` | mediasoup-client/deps/libmediasoupclient/src/Handler.cpp:770-803 | closing a live consumer finds its MID in the index and disables or closes its own section; every other section is untouched |
| `RecvRuns.RunsAreSafe` | mediasoup-client/deps/libmediasoupclient/src/Transport.cpp:405-470 | after every run of consuming (with the probator), closing, data channels and ICE restarts, whatever fails in it, every consumer returned and not closed since has a live section |
| `RecvRuns.RunContinues` | mediasoup-client/deps/libmediasoupclient/src/Transport.cpp:405-470 | free MIDs and closing only open consumers are all that callers owe |
| `RecvRuns.CloseHitsOwnSection` | mediasoup-client/deps/libmediasoupclient/src/Transport.cpp:536-547 | after every run, closing any open consumer finds its MID in the index and stops its own section and no other, so every other open consumer keeps a live one |
| `RecvRuns.ConsumersHaveDistinctMids` | mediasoup-client/deps/libmediasoupclient/src/Transport.cpp:405-470 | after every run a new consumer gets a MID no open one has |
| `RecvRuns.GeneratedIsFresh` | mediasoup-client/deps/libmediasoupclient/src/Handler.cpp:641-648 | with only generated MIDs the number of transceivers has never been used as a MID |
| `RecvRuns.GeneratedRunsContinue` | mediasoup-client/deps/libmediasoupclient/src/Transport.cpp:405-470 | in runs without supplied MIDs, where at most building a section or creating a data channel fails, no MID is generated twice and callers owe nothing but to close only what is open |
| `RecvRuns.GeneratedMidIsFree` | mediasoup-client/deps/libmediasoupclient/src/Handler.cpp:641-648 | after every run, whatever MIDs were supplied and whatever failed, the next generated MID is free and not stored yet unless it was supplied or left behind earlier in the run |
| `RecvRuns.NextMidAfterReceive` | mediasoup-client/deps/libmediasoupclient/src/Handler.cpp:634-709 | after a Receive with any free MID and any failure the MID generated next is free if and only if the section was not built or its MID is not the number of transceivers before the call (plus one if the call succeeded), where neither number was supplied or left behind before |
| `RecvRuns.FailureMakesMidClash` | mediasoup-client/deps/libmediasoupclient/src/Handler.cpp:634-709 | so a Receive without a MID that throws after its section was built makes the next one clash |
| `RecvRuns.SuppliedMidClashes` | mediasoup-client/deps/libmediasoupclient/src/Handler.cpp:641-648 | and so does supplying the MID that comes after the next |
| `RecvRuns.SectionsAccountedFor` | mediasoup-client/deps/libmediasoupclient/src/Transport.cpp:405-470 | after every run the sections in use are exactly those of the open consumers and those placed for none (the probator's, the data channel's, and those of calls that failed once their section was built), and none is both |
| `RecvRuns.LiveIffOpen` | mediasoup-client/deps/libmediasoupclient/src/Transport.cpp:405-470 | in runs where no Consume fails with its section built, a MID other than the probator's and the data channel's is live if and only if it is that of an open consumer |
| `SectionsInUse.ReceivedGains` | mediasoup-client/deps/libmediasoupclient/src/Handler.cpp:634-709 | Receive adds exactly its own section to those in use as soon as it is built, whatever fails afterwards |
| `SectionsInUse.ReceivedDataGains` | mediasoup-client/deps/libmediasoupclient/src/Handler.cpp:711-768 | the same for the data section, added if and only if there was none and the channel was created |
| `SectionsInUse.SentGains` | mediasoup-client/deps/libmediasoupclient/src/Handler.cpp:170-363 | Send adds exactly its own section if it gets as far as placing it, and succeeds if and only if it does and the remote description is accepted |
| `SectionsInUse.SentDataGains` | mediasoup-client/deps/libmediasoupclient/src/Handler.cpp:365-448 | the same for the first data channel of a sending transport |
| `SectionsInUse.StoppingLoses` | mediasoup-client/deps/libmediasoupclient/src/Handler.cpp:450-484 | stopping, on either side and however it ends, takes exactly its own section out of use |
| `SendRuns.SendLeavesOthers` | mediasoup-client/deps/libmediasoupclient/src/Transport.cpp:175-251 | sending gives a live section of a MID that no open producer has, and leaves the others live |
| `SendRuns.SectionsAccountedFor` | mediasoup-client/deps/libmediasoupclient/src/Transport.cpp:175-251 | after every run of producing, closing, data channels and ICE restarts, whatever fails in it, every open producer has a live section, and the sections in use are exactly those of the open producers and those placed for none |
| `SendRuns.SectionLeftBehind` | mediasoup-client/deps/libmediasoupclient/src/Transport.cpp:218-236 | Produce leaves its section in use without a producer if and only if Send fails at the remote description, or OnProduce ends with an exception that is no MediaSoupClientError; with a MID not stored before, the section is then live if and only if Send succeeded |
| `SendRuns.RunContinues` | mediasoup-client/deps/libmediasoupclient/src/Transport.cpp:175-251 | free MIDs and closing only open producers are all that callers owe |
| `SendRuns.CloseHitsOwnSection` | mediasoup-client/deps/libmediasoupclient/src/Transport.cpp:329-340 | after every run, closing any open producer stops its own section and no other |
| `SendRuns.LiveIffOpen` | mediasoup-client/deps/libmediasoupclient/src/Transport.cpp:175-251 | in runs where no Produce with this MID leaves its section and no data channel has it, the MID is live if and only if it is that of an open producer |
| `Handlers.PeerHandler.constructor` | mediasoup-client/deps/libmediasoupclient/src/Handler.cpp:61-82 | the forced role is the opposite of the declared one; the invariant holds |
| `Handlers.PeerHandler.SetupTransport` | mediasoup-client/deps/libmediasoupclient/src/Handler.cpp:127-147 | refines the setup step: DTLS parameters missing before the role update, OnConnect throwing after it, or neither |
| `Handlers.PeerHandler.Receive` | mediasoup-client/deps/libmediasoupclient/src/Handler.cpp:634-709 | refines the specification for every failure; keeps the invariant if the MID is free |
| `Handlers.PeerHandler.StopReceiving` | mediasoup-client/deps/libmediasoupclient/src/Handler.cpp:770-803 | refines the specification for every failure, also for a MID no longer in the index, where slot 0 is closed; keeps the invariant if the MID is in the index |
| `Handlers.PeerHandler.ReceiveDataChannel` | mediasoup-client/deps/libmediasoupclient/src/Handler.cpp:711-768 | refines the specification for every failure |
| `Handlers.PeerHandler.Send` | mediasoup-client/deps/libmediasoupclient/src/Handler.cpp:170-363 | refines the specification for every failure, with the slot found before the transport is set up |
| `Handlers.PeerHandler.StopSending` | mediasoup-client/deps/libmediasoupclient/src/Handler.cpp:450-484 | the same for the send handler |
| `Handlers.PeerHandler.SendDataChannel` | mediasoup-client/deps/libmediasoupclient/src/Handler.cpp:365-448 | refines the specification for every failure; stream ids cycle |
| `Handlers.PeerHandler.RestartIce` | mediasoup-client/deps/libmediasoupclient/src/Handler.cpp:824-850 | refines the specification for both sides; keeps the invariant |
| `Transports.StopLeavesOthers` | mediasoup-client/deps/libmediasoupclient/src/Transport.cpp:536-547 | stopping one section, sending or receiving, leaves all others as they were |
| `Transports.NothingOwedWithoutMids` | mediasoup-client/deps/libmediasoupclient/src/Transport.cpp:405-470 | a transport all of whose MIDs are generated, the probator's or the data channel's owes nothing when it consumes without a MID |
| `Transports.Endpoint.TransportClosed` | mediasoup-client/deps/libmediasoupclient/src/Consumer.cpp:183-193 | closes at most once and tells at most once |
| `Transports.Transport.constructor` | mediasoup-client/deps/libmediasoupclient/src/Transport.cpp:130-173 | no endpoint yet; the invariant holds and a run starts |
| `Transports.Transport.Close` | mediasoup-client/deps/libmediasoupclient/src/Transport.cpp:510-534 | afterwards every endpoint ever made is closed, each told exactly once in one of the two ways |
| `Transports.Transport.CloseEndpoint` | mediasoup-client/deps/libmediasoupclient/src/Consumer.cpp:101-111 | closes once, leaves the map, stops its own section and no other, and does what Close does in a run; a second call does nothing |
| `Transports.Transport.Unregister` | mediasoup-client/deps/libmediasoupclient/src/Transport.cpp:536-547 | the endpoint leaves the map of open ones, which stays exact |
| `Transports.Transport.Register` | mediasoup-client/deps/libmediasoupclient/src/Transport.cpp:444 | the map stays exact if and only if the id was not in it |
| `Transports.Transport.Consume` | mediasoup-client/deps/libmediasoupclient/src/Transport.cpp:405-470 | all checks and failures: a consumer is made if and only if the checks pass and Receive succeeds; it is open with a live section, and the invariant holds if and only if its id is new; it is returned unless the probator fails with an exception that is not caught; in every case it does what Consume does in a run |
| `Transports.Transport.AddProbator` | mediasoup-client/deps/libmediasoupclient/src/Transport.cpp:446-467 | does what the probator does in a run, and throws if and only if the flag stays unset; nothing changes for the consumers |
| `Transports.Transport.Produce` | mediasoup-client/deps/libmediasoupclient/src/Transport.cpp:175-251 | a producer is made if and only if Send and OnProduce succeed; the sender is stopped if the application rejects it; after a throw its section is still in use if and only if the remote description failed or the exception was no MediaSoupClientError; in every case it does what Produce does in a run |
| `Validation.ValidateEach` | mediasoup-client/deps/libmediasoupclient/src/ortc.cpp:39-80 | the loop over an array refines validating entry by entry up to the first throw |
| `Validation.ValidateRtpCapabilities` | mediasoup-client/deps/libmediasoupclient/src/ortc.cpp:39-80 | refines the specification of the capability validator |
| `Validation.ValidatedAreGood` | mediasoup-client/deps/libmediasoupclient/src/ortc.cpp:39-245 | what validation guarantees: kinds from MIME types, channels for audio only, allowed parameters, known kinds and non-empty URIs |
| `Validation.GoodAreValid` | mediasoup-client/deps/libmediasoupclient/src/ortc.cpp:39-245 | whatever has these guarantees passes validation unchanged |
| `Validation.CapabilitiesIdempotent` | mediasoup-client/deps/libmediasoupclient/src/ortc.cpp:39-245 | validating capabilities twice is validating once |
| `Validation.ValidateRtpParameters` | mediasoup-client/deps/libmediasoupclient/src/ortc.cpp:252-324 | refines the specification of the parameter validator |
| `Validation.ParametersIdempotent` | mediasoup-client/deps/libmediasoupclient/src/ortc.cpp:252-547 | validating parameters twice is validating once |
| `DataChannels.OutputIsRejected` | mediasoup-client/deps/libmediasoupclient/src/ortc.cpp:635-705 | the SCTP stream validator rejects every output of its own |
| `DataChannels.AcceptedStream` | mediasoup-client/deps/libmediasoupclient/src/ortc.cpp:635-705 | accepted streams have at most one limit, and none if ordered |
| `DataChannels.DataProducerAccepted` | mediasoup-client/deps/libmediasoupclient/src/Transport.cpp:253-301 | ProduceData and SendDataChannel together accept if and only if at most one limit is set and none on an ordered channel; the stream carries what was asked for |
| `DataChannels.DefaultArgumentsRejected` | mediasoup-client/deps/libmediasoupclient/src/Transport.cpp:253-301 | the default arguments are always rejected |
| `DataChannels.DataConsumerAccepted` | mediasoup-client/deps/libmediasoupclient/src/Handler.cpp:711-768 | the parameters of a data consumer are always accepted |
| `Ortc.ReduceRtcpFeedback` | mediasoup-client/deps/libmediasoupclient/src/ortc.cpp:1721-1741 | refines the common feedback in the order of the first codec |
| `Ortc.CommonFeedbackMembers` | mediasoup-client/deps/libmediasoupclient/src/ortc.cpp:1721-1741 | feedback survives if and only if both codecs have it |
| `Ortc.GetExtendedRtpCapabilities` | mediasoup-client/deps/libmediasoupclient/src/ortc.cpp:982-1119 | the loops refine the specification, including where they throw |
| `Ortc.MatchMediaCodecs` | mediasoup-client/deps/libmediasoupclient/src/ortc.cpp:1001-1041 | the nested loop that rewrites H264 codecs in place refines a left-to-right fold |
| `Ortc.MatchRtxCodecs` | mediasoup-client/deps/libmediasoupclient/src/ortc.cpp:1043-1073 | the second pass refines pairing each entry with the first RTX codec of each side |
| `Ortc.MatchHeaderExtensions` | mediasoup-client/deps/libmediasoupclient/src/ortc.cpp:1075-1116 | the third pass refines pairing with the first extension of same kind and URI, direction mirrored |
| `Negotiated.MatchMeaning` | mediasoup-client/deps/libmediasoupclient/src/ortc.cpp:1619-1709 | codecs match if and only if MIME types agree up to case, clock rates and channels agree, and profiles can be read and fit: packetization mode and libwebrtc's answer for H264, the same text for VP9 |
| `Negotiated.MatchThrows` | mediasoup-client/deps/libmediasoupclient/src/ortc.cpp:1619-1709 | comparing codecs throws if and only if all else agrees and a profile cannot be read, such as null, which validation lets pass |
| `Negotiated.FirstMatchMeaning` | mediasoup-client/deps/libmediasoupclient/src/ortc.cpp:1011-1014 | the search stops at the first matching local codec or there is none |
| `Negotiated.FirstPassIsFilter` | mediasoup-client/deps/libmediasoupclient/src/ortc.cpp:1001-1041 | exactly the remote codecs that are not RTX and have a match among the local codecs as H264 matching has rewritten them so far, in remote order, each with its first match |
| `Negotiated.LocalsStay` | mediasoup-client/deps/libmediasoupclient/src/ortc.cpp:1001-1041 | without H264 the local codecs are left alone, so all matching is against them as given |
| `Negotiated.FirstPassThrows` | mediasoup-client/deps/libmediasoupclient/src/ortc.cpp:1001-1041 | negotiation throws if and only if the search for some remote codec reaches a local one it cannot be compared with before any match |
| `Negotiated.BlockedMeaning` | mediasoup-client/deps/libmediasoupclient/src/ortc.cpp:1001-1041 | one of the first searches is blocked if and only if there is a remote codec among them whose search is |
| `Negotiated.PlainCodecKept` | mediasoup-client/deps/libmediasoupclient/src/ortc.cpp:1001-1041 | a remote codec other than H264 and VP9 is kept if and only if it is not RTX and some local codec agrees in MIME type up to case, clock rate and channels, whatever H264 matching has rewritten before |
| `Negotiated.ReadableGoesThrough` | mediasoup-client/deps/libmediasoupclient/src/ortc.cpp:1001-1041 | it goes through if every profile can be read |
| `Negotiated.CompleteIff` | mediasoup-client/deps/libmediasoupclient/src/ortc.cpp:982-1119 | no payload type and no direction is missing in the result if and only if every codec kept has a payload type and every extension both sides have has one of the four known directions |
| `Negotiated.EntryMeaning` | mediasoup-client/deps/libmediasoupclient/src/ortc.cpp:982-1119 | with H264 or without, every entry comes from a local and a remote codec that agree in MIME type up to case, clock rate and channels and are not RTX; if both sides have an RTX codec whose apt is their media payload type, its RTX payload types are those of two such codecs, missing where they have none, and otherwise it has none (section 8 of RFC 4588) |
| `Negotiated.ExtensionsMadeFrom` | mediasoup-client/deps/libmediasoupclient/src/ortc.cpp:1075-1116 | every extended extension mirrors one of the remote ones |
| `Negotiated.NegotiationIsGood` | mediasoup-client/deps/libmediasoupclient/src/ortc.cpp:982-1119 | valid capabilities negotiate to well-formed extended ones |
| `Sending.CollectCodecs` | mediasoup-client/deps/libmediasoupclient/src/ortc.cpp:1229-1276 | the loop with break refines taking the first entry of the kind and its RTX codec |
| `Sending.CollectExtensions` | mediasoup-client/deps/libmediasoupclient/src/ortc.cpp:1278-1300 | the loop refines filtering by kind and sending direction |
| `Sending.UriNegotiated` | mediasoup-client/deps/libmediasoupclient/src/ortc.cpp:1278-1300 | a URI is among the sending extensions if and only if it was negotiated for sending in that kind |
| `Sending.EraseKinds` | mediasoup-client/deps/libmediasoupclient/src/ortc.cpp:1411-1420 | erasing while iterating terminates and refines an order-preserving filter |
| `Sending.WithoutMembers` | mediasoup-client/deps/libmediasoupclient/src/ortc.cpp:1411-1420 | feedback survives the filter if and only if its kind is not dropped |
| `Sending.ThinFeedback` | mediasoup-client/deps/libmediasoupclient/src/ortc.cpp:1407-1421 | the loop over the codecs thins the feedback of each and nothing else |
| `Sending.GetSendingRtpParameters` | mediasoup-client/deps/libmediasoupclient/src/ortc.cpp:1214-1303 | refines its specification |
| `Sending.GetSendingRemoteRtpParameters` | mediasoup-client/deps/libmediasoupclient/src/ortc.cpp:1308-1470 | refines its specification, with the three filters |
| `Sending.CongestionFeedback` | mediasoup-client/deps/libmediasoupclient/src/ortc.cpp:1396-1469 | transport-cc stays if and only if its extension is sent; goog-remb if and only if abs-send-time is sent and the other is not; all other feedback stays |
| `Sending.ReduceCodecs` | mediasoup-client/deps/libmediasoupclient/src/ortc.cpp:1564-1599 | the loop refines its specification, including the reads past the end |
| `Sending.SendableKinds` | mediasoup-client/deps/libmediasoupclient/src/ortc.cpp:1214-1303 | there are codecs to send if and only if canSend; they are one media codec and perhaps its RTX codec, whose apt is the media payload type if and only if that is in 0..255 |
| `Sending.RequestWorks` | mediasoup-client/deps/libmediasoupclient/src/ortc.cpp:1564-1599 | requesting a codec works if and only if it is the media codec and an RTX codec follows; what comes out is everything there is |
| `Sending.LoneCodecCannotBeRequested` | mediasoup-client/deps/libmediasoupclient/src/ortc.cpp:1581-1592 | any media codec without RTX: requesting it by its own description throws |
| `Sending.AnswerFindsOffer` | mediasoup-client/deps/libmediasoupclient/src/sdp/MediaSection.cpp:149-180 | offer and answer codecs reduce alike and agree but for parameters and feedback; the unchecked lookup by payload type never fails, and finds its counterpart if and only if the two payload types differ |
| `Sending.ProducerParametersValid` | mediasoup-client/deps/libmediasoupclient/src/Transport.cpp:222-226 | a producer's parameters, with the codecs as reduced, pass validation if and only if there is a media codec and it has a payload type |
| `Sending.MimeTypeIff` | mediasoup-client/deps/libmediasoupclient/src/Handler.cpp:196-245 | the reduced list starts with a codec, and not with null, if and only if the kind has codecs to send |
| `Device.GetRecvRtpCapabilities` | mediasoup-client/deps/libmediasoupclient/src/ortc.cpp:1125-1207 | both loops refine their specification |
| `Device.RecvValid` | mediasoup-client/deps/libmediasoupclient/src/Device.cpp:79-85 | the receiving capabilities are valid if and only if no remote payload type and no direction is missing; the media payload types announced are then the remote ones |
| `Device.CanReceive` | mediasoup-client/deps/libmediasoupclient/src/ortc.cpp:1544-1562 | the search refines its specification |
| `Device.ReceivesWhatItAnnounces` | mediasoup-client/deps/libmediasoupclient/src/ortc.cpp:1544-1562 | canReceive holds if and only if the first codec's payload type is that of a codec, not RTX, in the receiving capabilities |
| `Device.LoadSucceeds` | mediasoup-client/deps/libmediasoupclient/src/Device.cpp:51-98 | for valid capabilities, Load succeeds if and only if no search runs into a profile that cannot be read and the router leaves out nothing that is negotiated |
| `Device.LoadsCompleteRouter` | mediasoup-client/deps/libmediasoupclient/src/Device.cpp:51-98 | it is enough that all profiles can be read and the router gives all payload types and only known directions |
| `Device.MissingPayloadType` | mediasoup-client/deps/libmediasoupclient/src/Device.cpp:51-98 | a router codec that is kept and has no payload type makes Load throw |
| `Device.UnknownDirection` | mediasoup-client/deps/libmediasoupclient/src/Device.cpp:51-98 | so does a router extension that this side has and whose direction is none of the four |
| `Device.LoneCodecWithoutPayloadType` | mediasoup-client/deps/libmediasoupclient/src/Device.cpp:51-98 | any valid codec but H264, VP9 and RTX, against itself without a payload type: both sides validate and Load throws |
| `Device.NullProfile` | mediasoup-client/deps/libmediasoupclient/src/Device.cpp:51-98 | VP9 with a profile of null on both sides: it validates and Load throws |
| `Device.MisspeltDirection` | mediasoup-client/deps/libmediasoupclient/src/Device.cpp:51-98 | any valid extension, sendrecv here and of any other text at the router: both sides validate and Load throws |
| `Device.LoadedIsGood` | mediasoup-client/deps/libmediasoupclient/src/Device.cpp:51-98 | what Load stores is well-formed and complete |
| `Producing.SendableIsSent` | mediasoup-client/deps/libmediasoupclient/src/Handler.cpp:196-205 | for a kind with codecs Produce sends, unless the requested codec cannot be had, and then nothing has happened |
| `Producing.UnsendableThrows` | mediasoup-client/deps/libmediasoupclient/src/Handler.cpp:196-247 | for a kind without codecs Produce always throws and places no section; but unless a codec is requested it has called OnConnect and set the transport up first |
| `Device.Device.constructor` | mediasoup-client/deps/libmediasoupclient/include/Device.hpp:62-75 | not loaded |
| `Device.Device.Load` | mediasoup-client/deps/libmediasoupclient/src/Device.cpp:51-98 | loads at most once; otherwise loaded if and only if the whole pipeline succeeds, with its results; a failed load can be tried again |
| `Device.Device.CanProduce` | mediasoup-client/deps/libmediasoupclient/src/Device.cpp:100-114 | throws unless loaded and the kind is known; otherwise true if and only if there are codecs to send |
| `Simulcast.AddLegacySimulcast` | mediasoup-client/deps/libmediasoupclient/src/sdp/Utils.cpp:220-386 | the loops refine the rendering of the streams read from the offer |
| `Simulcast.JoinSsrcs` | mediasoup-client/deps/libmediasoupclient/include/Utils.hpp:108-121 | the numeric join writes decimals separated by spaces |
| `Simulcast.GetRtpEncodings` | mediasoup-client/deps/libmediasoupclient/src/sdp/Utils.cpp:413-476 | the loops over lines and groups refine the reader's specification, including where it throws |
| `Simulcast.RoundTrip` | mediasoup-client/deps/libmediasoupclient/src/sdp/Utils.cpp:220-476 | reading what was written gives exactly the N streams in order, SSRC first + i and RTX SSRC firstRtx + i modulo 2^32, if and only if the two ranges do not overlap (section 4.2 of RFC 5576) |
| `Simulcast.CnameRoundTrip` | mediasoup-client/deps/libmediasoupclient/src/sdp/Utils.cpp:388-411 | the CNAME read back is the one written |
| `Simulcast.OverlapLosesStreams` | mediasoup-client/deps/libmediasoupclient/src/sdp/Utils.cpp:220-476 | a concrete overlap that loses a stream |
| `Simulcast.SecondWriteMisreadsSim` | mediasoup-client/deps/libmediasoupclient/src/sdp/Utils.cpp:220-300 | written a second time, the SIM group is read as an RTX pair |
| `Simulcast.WritingTwice` | mediasoup-client/deps/libmediasoupclient/src/sdp/Utils.cpp:220-476 | written a second time, the streams announced then are read back if and only if the first SSRC is 2^32 - 1 |
| `Simulcast.RtxTaken` | mediasoup-client/deps/libmediasoupclient/src/sdp/Utils.cpp:259-281 | through the decimal text the writer takes the second SSRC of the first group that starts with the media SSRC, whatever the group is for |
| `Simulcast.RtxIsFidPartner` | mediasoup-client/deps/libmediasoupclient/src/sdp/Utils.cpp:259-281 | so it takes the RTX SSRC the offer names if and only if no group starts with the media SSRC, or the first that does is a FID group, or it names the same SSRC anyway |
| `Simulcast.RtxNeedsFidFirst` | mediasoup-client/deps/libmediasoupclient/src/sdp/Utils.cpp:259-281 | if no other group pairs the media SSRC with that RTX SSRC, it does so if and only if no group starts with the media SSRC or the first that does is a FID group |
| `Simulcast.SimBeforeFid` | mediasoup-client/deps/libmediasoupclient/src/sdp/Utils.cpp:259-281 | a simulcast offer with its SIM group first, whose second media SSRC is taken for RTX |
| `Simulcast.ParseScalabilityMode` | mediasoup-client/deps/libmediasoupclient/src/scalabilityMode.cpp:9-46 | both layer counts lie in 1..99 |
| `Simulcast.ModeToEncodings` | mediasoup-client/deps/libmediasoupclient/src/Handler.cpp:235-260 | from a mode string through the uint8_t narrowing to the encodings read back, exact if and only if the ranges do not overlap |
| `Text.Split` | mediasoup-client/deps/libmediasoupclient/include/Utils.hpp:81-91 | refines std::getline tokens: no empty last token |
| `Text.Join` | mediasoup-client/deps/libmediasoupclient/include/Utils.hpp:93-106 | refines the delimiter-joined text |
| `Text.SplitUndoesJoin` | mediasoup-client/deps/libmediasoupclient/include/Utils.hpp:81-121 | split undoes join if and only if no item holds the delimiter and the last is not empty |
| `Text.StoullOfDecimal` | mediasoup-client/deps/libmediasoupclient/src/sdp/Utils.cpp:413-476 | parsing the decimal text of a number gives it back |
| `Text.DecimalInjective` | mediasoup-client/deps/libmediasoupclient/src/Handler.cpp:641-648 | different numbers have different decimal text |
| `LazyClass.RunKeepsInv` | mediasoup-client/src/main/jni/jni_generator_helper.cpp:21-42 | for any number of threads and any interleaving: live references are exactly those held or cached, each held once |
| `LazyClass.ReturnsAgree` | mediasoup-client/src/main/jni/jni_generator_helper.cpp:21-42 | the cell is written at most once and every thread that returned got the live reference stored there |
| `LazyClass.CellIsStable` | mediasoup-client/src/main/jni/jni_generator_helper.cpp:21-42 | a stored reference stays |
| `LazyClass.OneReferenceSurvives` | mediasoup-client/src/main/jni/jni_generator_helper.cpp:21-42 | when all have returned exactly one reference is alive, the cached one |
| `LazyClass.WaitFree` | mediasoup-client/src/main/jni/jni_generator_helper.cpp:21-42 | four own steps finish a call, whatever the others do |
| `LazyClass.StoreIsEnoughIffLookupsAgree` | mediasoup-client/src/main/jni/jni_generator_helper.cpp:47-65 | with a plain store all threads agree under every interleaving if and only if all lookups give the same identifier |
| `HeaderExtensions.ComputeUriExists` | mediasoup-client/deps/webrtc/src/api/rtp_parameters.cc:188-197 | true if and only if an entry has the URI |
| `HeaderExtensions.Find` | mediasoup-client/deps/webrtc/src/api/rtp_parameters.cc:199-238 | refines the lookup: first plain, first encrypted, or first encrypted and else last plain |
| `HeaderExtensions.Deduplicate` | mediasoup-client/deps/webrtc/src/api/rtp_parameters.cc:258-289 | the passes refine the specification |
| `HeaderExtensions.DeduplicatedUnique` | mediasoup-client/deps/webrtc/src/api/rtp_parameters.cc:258-289 | no URI occurs twice |
| `HeaderExtensions.LookupAfterDeduplication` | mediasoup-client/deps/webrtc/src/api/rtp_parameters.cc:199-289 | what survives for a URI is its first encrypted entry if kept, else its first plain one |
| `HeaderExtensions.LookupPreserved` | mediasoup-client/deps/webrtc/src/api/rtp_parameters.cc:199-289 | a lookup is unchanged by deduplication if and only if the filter is not the preferring one, or the URI has an encrypted entry, or its first and last plain entries agree (section 4 of RFC 6904) |
| `HeaderExtensions.PreferringLookupCanChange` | mediasoup-client/deps/webrtc/src/api/rtp_parameters.cc:199-289 | two plain entries for which it changes |
| `HeaderExtensions.DeduplicationIdempotent` | mediasoup-client/deps/webrtc/src/api/rtp_parameters.cc:258-289 | deduplicating twice is deduplicating once, for every filter |
| `SendTime.TickDeltaIsCentredResidue` | mediasoup-client/deps/webrtc/src/api/rtp_headers.h:97-113 | the shifts give the residue modulo 2^24 nearest to zero |
| `SendTime.DeltaRecoversStep` | mediasoup-client/deps/webrtc/src/api/rtp_headers.h:97-113 | the true step is recovered across wrap-around if and only if it lies in [-2^23, 2^23) |
| `SendTime.RunRecoversElapsed` | mediasoup-client/deps/webrtc/src/api/rtp_headers.h:97-113 | over a run the deltas sum to the true elapsed ticks |
| `SendTime.MicrosErrorBounded` | mediasoup-client/deps/webrtc/src/api/rtp_headers.h:97-113 | the summed microseconds are off by less than one per packet |

## Left out

- Handlers.PeerHandler.Receive: promises the invariant only for a MID that is free; for one that is taken it states the new state but not that a later call is defined.
- Transports.Transport.Consume: assumes that the MIDs about to be used are free; `Transports.NothingOwedWithoutMids` shows that generated ones are, and `RecvRuns.GeneratedMidIsFree` and `RecvRuns.NextMidAfterReceive` when they may not be. The checks of appData and of a missing rtpParameters argument are folded into `canReceive`, and which exceptions about the probator are caught is the parameter `escapes`.
- Transports.Transport.Produce: assumes that the MID libwebrtc gives a new transceiver is free; that there is no codec to send is the failure `ReadMimeType`, which `Producing` derives from the negotiated capabilities.
- HandlerSteps.SentKeeps: takes the MID of the section, read from the offer, and the MID of the transceiver, under which it is stored, to be the same value.
- RemoteSdp.MediaSection.Answer: codecs, header extensions, simulcast and RIDs are copied as opaque attributes, since closing erases them and nothing in the table reads them.
- RemoteSdp.MediaSection.Offer: codecs, SSRCs and groups are an opaque attribute map; that building them may throw is the failure `BuildSection`.
- RemoteSdp.RemoteSdp.CloseMediaSection: says nothing when the slot does not exist, where the source indexes outside the vector.
- Device.Device.Load: after a failed validation of the receiving capabilities the half-filled JSON is not modelled; the object cannot be read in that state. The SCTP capabilities are constants that always validate.
- Validation.ParametersIdempotent: JSON numbers are integers or reals; that the library takes an integer and a float of the same value for equal is not modelled.
- Sending.ReduceCodecs: a requested clock rate or channel count written as a float of equal value (90000.0) equals the integer in the JSON library and matches; here it is malformed and does not.
- Sending.RequestWorks: the same for requested numbers written as floats.
- Text.StoullOfDecimal: std::stoull also accepts blanks and a sign in front; the model throws there.
- Update in place of the remote SDP inside a handler: the table is replaced as a value; the in-place form is proved in RemoteSdp.
- Arguments half-changed by a validator that then throws: callers see the exception only.
- Data producers and data consumers as objects, pause, resume, replaceTrack and stats: the same life cycle or plain setters.
- PeerConnection and libwebrtc: steps that succeed or fail. Listener callbacks do not call back into the transport.
- sdptransform (parse and write), the fmtp text and codec options: text formats that are not part of this model.
- H264 profile comparison and answer: a function given from outside.
- ICE, DTLS fingerprint and codec option validators: flat field checks.
- The other JNI bridges, the frame encryptors and the room client in Java: foreign calls and signalling.
