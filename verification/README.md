# DataDump protocol: model and proofs

The DataDump protocol moves the contents of a server's storage to a client. The client asks
(REQUEST), the server settles the terms and reads its storage (RESPONSE), the client agrees
(INITIATE_BLOCK), the server streams numbered frames of which the last says "terminate" (BLOCK),
and the client acknowledges. Both parties are state machines with a one-shot timer; they exchange
encoded packets through two bounded queues.

The project models both machines, the byte-level packet codecs, the `send`/`receive` layer and the
queues, and proves what a reported success means, over every interleaving of the two machines and
with timeouts at any moment. Three small components beside the protocol are modelled as well: the
CRC table, the lap stopwatch and the one-shot timer.

`dafny verify dfyconfig.toml` checks the project.

## How it is built

- `Bytes`, `Packets`, `Segmentation`, `Transport`, `Fsm`: little-endian fields, the two packet
  formats, the reference definition of how data is cut into frames, the queues and the receive
  checks. Channels hold byte sequences, so the codec theorems are used inside the protocol proof.
- `ServerFsm`, `ClientFsm`, `Protocol`: the two machines on values and their product. The do-while
  loops of `FSMLoop` are split, so that a step is the start of an activation, one attempt to send,
  or one poll. Whether the timer has expired and what storage offers is chosen freely in each step.
- `PacketObjects`, `Objects`, `ServerObject`, `ClientObject`, `SystemObject`: packets, queues,
  server, client and the whole system as objects that update fields and arrays in place. Every
  method is proved to change the object's abstract value as the machine on values does, so
  `System.Run` performs the commands it is given one by one and reaches the state that
  `Protocol.Run` reaches, and what is proved about runs holds of the bytes in the client's array.
- `ServerProofs`, `SessionProofs`, `SessionSteps`, `AnyRun`, `Wire`: the invariants.
- `Delivery`, `Necessity`, `Undrained`: safety of the two parties together, and what it needs.
- `ServerRuns`, `Sessions`, `ClientRuns`, `Stalls`, `Endings`: each party alone, against any
  environment; `WiredRuns` shows that its share of a run of both is such a run.
- `Cooperation`, `Progress`, `Fairness`, `Capacity`: liveness, and what fits the server's allocation.
- `Layout`, `Channels`: the wire format byte by byte, and how much the channels hold.
- `Crc16`, `Stopwatch`, `BTimer`: the components beside the protocol.

## The main results in words

1. A success the client reports for a transfer that was started drained means that its memory holds
   exactly the bytes the server read, with everything behind them untouched. Drained means: the
   server is waiting for a request, no request is queued for it and no response for the client.
   Nothing is assumed about earlier transfers, which may have failed at any point.
2. That needs one condition on the two configurations, and the condition is exact
   (`ExactCopyIffSafe`): the server's packets are not longer than the client's, or no transfer has
   more than one frame, or the client's identifier is zero. In every other case a run is
   constructed that ends in a success with wrong bytes, because the server cuts frames by its own
   packet size, the client's receive callback drops frames that are too long, and the client looks
   at no frame number.
3. "Started drained" cannot be dropped either, and this is exact too, for the client's reports
   (`DrainingIsNeeded`) and for the server's (`DrainingIsNeededForTheServer`): if transfers may be
   started at any moment, success means an exact copy only for configurations with which no success
   is possible at all. For all others, two abandoned transfers are constructed after which the
   third takes the second one's frame.
4. While the client takes frames, what it has stored and what is queued is a prefix of the
   server's snapshot, exactly under the condition of item 2 (`PrefixIffSafe`); with the frame in
   the server's hand and what it has not yet cut, it is the whole snapshot, exactly if frames fit
   the client or none is ever sent (`WholeIffCompatible`).
5. If the server reports success, the client has stored everything, has acknowledged, and succeeds;
   under exactly the same condition as in item 2 (`ServerAgreesIffSafe`).
6. In every run whatsoever, two parties at work hold the same terms (`NegotiationAgreement`), and
   neither ever reads past its receive buffer (`NoOverread`).
7. The frame limit never truncates; the server cuts exactly the reference segmentation; the
   read pointer accounts for every byte since construction. A sequence of loads can be transferred
   if and only if each fits one transfer and together they fit the server's allocation
   (`CapacityIsExact`).
8. The client notifies exactly once per transfer. Whether every transfer of n bytes is over within
   n + 5 activations depends on the messages its channel may carry, and this is exact
   (`TransferTerminatesInTime`): the bound holds if and only if one of three kinds is missing, a
   response that opens a session, a payload with a bad CRC, and an empty frame that says
   "continue". Otherwise there is no bound at all (`NoBound`). The server never sends the last two
   kinds, so in the system of both parties the bound always holds (`WiredTransfersEndInTime`).
9. The protocol is not only safe. After any run, every schedule in which no timer fires and both
   parties keep making steps completes every transfer that can be started, on both sides and within
   a number of rounds that is linear in the number of blocks, if and only if frames fit the client
   or no transfer can succeed at all (`FairSchedulesSucceed`).

10. Every session of the server ends with one report, against any environment: there are as many
    notifications as accepted requests, less the session in progress, and each is true exactly when
    an acknowledgement with the session's identifier was taken (`EverySessionIsReported`).
11. Nothing lasts for ever. With the timer expired, whatever arrives and however full the channels
    are, the client is idle within 11 steps and two for every byte that is still free
    (`ClientGivesUp`), and the server has reported its session within 6 steps and two for every
    byte behind its pointer (`ServerGivesUp`). A server that waits for a request waits on
    (`ServerWaitsOn`).
12. A channel holds twenty messages, and while the client polls nothing the server gets k frames
    ahead if and only if k is at most 20 and at most the number of blocks (`AheadIsExact`).

## Where the code and what is said about it differ

The model follows the code.

- CRC generation returns 0 and packets are sent with CRC 0 (`dataDump/crc16.cpp:76-77`), so a byte
  that changes on the way is accepted (`CorruptionIsAccepted`). The table-driven loop is there
  only as a comment; `Crc16` proves that it would compute what its documentation says.
- The type of a negative acknowledgement is never written to the buffer
  (`dataDump/DDPacket.cpp:318-320`); it arrives as UNASSIGNED and nobody accepts it.
- The server's buffer pointer is advanced but never rewound (`dataDump/DDServer.cpp:246`), and the
  erase call passes the length that is left, which is 0 (`dataDump/DDServer.cpp:298`).
- The serialisation of a transaction packet without a payload fills the header and reports length
  0; with one, it copies from the message into the packet instead (`dataDump/DDPacket.cpp:865-872`).
- `elapsed_laps` subtracts 2 from the unsigned number of time points
  (`ClockAndTimer/header/Stopwatch.hpp:47`), so it needs at least one lap.
- An activation of the client in BLOCK need not store a byte (`Stalls.CorruptThenEmptyStalls`).
- A handler of a cancelled timer compares the clock with the deadline of the current one
  (`bTimer/bTimer.cpp:164-166`), so one deadline can be reported several times
  (`OneDeadlineManyReports`).

## Model

| member | source | states |
|---|---|---|
| Delivery.SuccessIsExactCopy | dataDump/DDClient.cpp:226-273 | for all fresh parties with safe configurations, in every run: a success reported for a drained transfer means the destination is the whole snapshot followed by its old contents, and the frames stored are exactly ceil(L/P) |
| Delivery.ReportIsExactCopy | dataDump/DDClient.cpp:314-343 | the same from any state that satisfies the invariant |
| Delivery.AckedIsExactCopy | dataDump/DDClient.cpp:245-273 | once BLOCK_ACK is sent, the destination is an exact copy |
| Delivery.ReachedInv | dataDump/DDServer.cpp:9-366 | every state that a run of fresh parties reaches satisfies the system invariant, and configurations never change |
| Delivery.ServerSuccessImpliesDelivery | dataDump/DDServer.cpp:279-308 | in every run: a success reported by the server implies that the client has stored everything, has acknowledged and succeeds |
| Delivery.StreamInvariant | dataDump/DDServer.cpp:224-323 | with safe configurations, stored bytes and queued payloads are a prefix of the snapshot; if frames fit the client, then with the frame in hand and the uncut rest they are all of it |
| Necessity.PrefixIffSafe | dataDump/DDClient.cpp:215-241 | for all fresh parties: stored and queued bytes of a drained transfer are always a prefix of the snapshot if and only if the configurations are safe |
| Necessity.WholeIffCompatible | dataDump/DDServer.cpp:239-265 | for all fresh parties: stored, queued, held and uncut bytes always make up the snapshot if and only if frames fit the client or none is ever sent |
| AnyRun.NegotiationAgreement | dataDump/DDServer.cpp:115-143 | in every run, with any configurations and however transfers are started: a client that works with an answer and a server in a session hold the same terms (smaller block count and length, larger timeout, client's identifier), and the identifier is not zero in BLOCK |
| Necessity.ExactCopyIffSafe | dataDump/DDServer.cpp:239-246 | for all fresh parties: success is always an exact copy if and only if frames fit the client, or there is one frame, or the identifier is 0 |
| Necessity.ServerAgreesIffSafe | dataDump/DDServer.cpp:289-302 | for all fresh parties: the server's success always implies delivery if and only if the same condition holds |
| Necessity.UnsafeRun | dataDump/DDTest.cpp:113-126 | whenever the condition fails, a run exists in which two frames are sent and one is stored, the second one where the first belongs, and both parties are about to report success |
| Undrained.DrainingIsNeeded | dataDump/DDClient.cpp:158-179 | for all fresh parties: success is an exact copy however transfers are started if and only if no success is possible |
| Undrained.DrainingIsNeededForTheServer | dataDump/DDServer.cpp:283-308 | for all fresh parties: the server's success implies delivery however transfers are started if and only if no success is possible |
| Undrained.WrongBytes | dataDump/DDClient.cpp:215-241 | whenever success is possible, a run exists in which two transfers are reported as failed and the third is about to be reported as a success with byte 1, where the server has read byte 2 |
| AnyRun.OneSetOfTerms | dataDump/DDServer.cpp:139-143 | in every run, drained or not: every queued request carries the client's configuration, every queued response the negotiated terms, and parties at work hold nothing else |
| AnyRun.HopelessNeverSucceeds | dataDump/DDClient.cpp:158-161 | with identifier 0 or a negotiated block count of 0 the client never reports success |
| AnyRun.HopelessServerNeverSucceeds | dataDump/DDServer.cpp:283-308 | nor does the server |
| Wire.NoOverread | dataDump/DDBase.cpp:140-205 | in every reachable state, header and announced payload of the next message lie inside the receive buffer, for either party and any kind of message |
| Wire.NoTxPayload | dataDump/DDPacket.cpp:819-820 | in every reachable state, every queued transaction message has eleven bytes and size byte 0 |
| SessionSteps.StepInv | dataDump/DDServer.cpp:9-366 | every step of either party, any expiry, any storage contents and any start call keep the system invariant |
| SessionProofs.BeginInv | dataDump/DDClient.cpp:403-429 | starting a transfer keeps the invariant, and a drained start establishes it for the new session |
| SessionSteps.ClientHearsFrame | dataDump/DDClient.cpp:215-241 | the client's poll for a frame keeps the session invariant |
| SessionSteps.ServerSendsFrame | dataDump/DDServer.cpp:259-287 | the server's attempt to send a frame keeps the session invariant |
| ServerProofs.StepInv | dataDump/DDServer.cpp:22-356 | the server's invariant is kept whatever arrives, whatever storage offers and whenever the timer fires |
| ServerProofs.FramesLeft | dataDump/DDServer.cpp:249-253 | while data is left, fewer frames than negotiated are cut, and the rest fits the frames that are left |
| ServerProofs.FrameIsChunk | dataDump/DDServer.cpp:239-246 | the next bytes of the buffer are the next chunk of the snapshot, and the frame number has not wrapped |
| ServerRuns.FrameLimitNeverTruncates | dataDump/DDServer.cpp:231-253 | in BLOCK: remaining <= (negotiated - cut) * P, at most min(blocks, ceil(L/P)) frames, "terminate" exactly when nothing remains |
| ServerRuns.ServerSegmentsExactly | dataDump/DDServer.cpp:231-265 | the frames cut are the reference frames of the snapshot, and all of them when the acknowledgement is awaited |
| ServerRuns.BufferAccounting | dataDump/DDServer.cpp:150-153 | the pointer equals all bytes cut since construction; a read overflows the allocation if and only if that total plus the read exceeds it, and the first session never does |
| ServerRuns.Conservation | dataDump/DDServer.cpp:239-249 | from the read to the end of BLOCK, pointer plus remaining length is constant; what was reported as transferred lies in front of where the read began, and fits the allocation |
| Sessions.EverySessionIsReported | dataDump/DDServer.cpp:326-355 | in every run of the server, against any environment: as many notifications as requests accepted, less the session in progress (which an overflowed one remains); each true exactly when an acknowledgement with CRC 0 and the session's identifier was taken |
| Sessions.SessionsAreSeparate | dataDump/DDServer.cpp:192-219 | between sessions terms, length and success flag are cleared; in a session the terms carry its identifier, and BLOCK is reached only after an agreement with it |
| Endings.ServerGivesUp | dataDump/DDServer.cpp:164-321 | from every state of a session, with the timer expired, any messages, any room in the channel and any storage: within 6 steps and two for every byte behind the pointer the session is reported once and cleared away, or its read has overflowed |
| Endings.ForeignMessageEndsSession | dataDump/DDServer.cpp:202-219 | an agreement or acknowledgement with another identifier ends the session, and the next activation reports failure |
| Endings.ServerWaitsOn | dataDump/DDServer.cpp:63-96 | in REQUEST the timer means nothing: without a request, no number of expiries and start calls changes the server |
| WiredRuns.DeliveriesFit | dataDump/DDServer.cpp:246 | in every run, all that the server reports as transferred fits its allocation together |
| Capacity.CapacityIsExact | dataDump/DDServer.cpp:150-153 | for all fresh parties whose frames fit, and any sequence of loads: a run delivers exactly these if and only if each fits one transfer and together they fit the allocation |
| Capacity.ThirdTransferOverflows | dataDump/DDTest.cpp:229-230 | with 35 blocks of 20 bytes and 256 bytes of storage, two transfers in a row are possible and three are not |
| ClientRuns.OneNotificationPerTransfer | dataDump/DDClient.cpp:314-343 | notifications are the entries into REQUEST less the one in progress, each carries true exactly when BLOCK_ACK was sent, and no start is accepted meanwhile |
| Endings.ClientGivesUp | dataDump/DDClient.cpp:84-309 | from every state of a transfer, with the timer expired, any messages and any room in the channel: after 11 steps and two for every free byte the client is idle and has reported exactly once more, true if and only if its acknowledgement was sent |
| Endings.BlockEndsWithAnswer | dataDump/DDClient.cpp:245-309 | BLOCK is left for TERMINATE only with an acknowledgement or a negative one sent, or on expiry over a channel that holds 20 messages |
| Endings.TransfersAreSeparate | dataDump/DDClient.cpp:314-343 | in every run, an idle client holds no terms, no buffer and no success |
| ClientRuns.TransferTerminates | dataDump/DDClient.cpp:229-241 | stored and free bytes add up to the size until cleanup; at most n + 5 calls, plus one for each activation that stayed in BLOCK without storing a byte |
| ClientRuns.StallsExactly | dataDump/DDClient.cpp:231-240 | in every run: a poll ends an activation in BLOCK without storing a byte if and only if it is an empty continuing frame and a payload with a bad CRC was received earlier in the same activation |
| Stalls.TransferTerminatesInTime | dataDump/DDClient.cpp:245-309 | for every client and every set of messages its channel may carry: every transfer of n bytes is over within n + 5 calls if and only if an opening response, a corrupt payload or an empty continuing frame is missing |
| Stalls.NoBound | dataDump/DDClient.cpp:229-241 | with all three kinds, a one-byte transfer can be made to take any number of calls |
| Stalls.StallingMessagesExist | dataDump/DDPacket.cpp:975-994 | there are such messages for every packet size |
| WiredRuns.WiredTransfersEndInTime | dataDump/DDClient.cpp:14-353 | in every run of both parties, every transfer of n bytes is over within n + 5 calls |
| Stalls.CorruptThenEmptyStalls | dataDump/DDPacket.cpp:975-994 | a rejected payload followed by an empty frame uses up a call and stores nothing |
| Fairness.FairSchedulesSucceed | dataDump/DDServer.cpp:9-366 | for all fresh parties: after any run, every schedule without expiry in which both parties keep stepping (5 B + 23 rounds for B blocks, plus one for each message still queued) completes every transfer that can be started, with success on both sides, an exact copy and both at rest, if and only if frames fit the client or no success is possible |
| Progress.NoDeadlock | dataDump/DDClient.cpp:14-353 | the two parties never wait for each other before the transfer is complete |
| Progress.ServerAdvances | dataDump/DDServer.cpp:9-366 | without expiry, each step of the server keeps the transfer on its way and reduces what is left to do, unless nothing changes because the server has to wait for the client |
| Progress.ClientAdvances | dataDump/DDClient.cpp:14-353 | the same for each step of the client |
| Cooperation.CooperativeTransfer | dataDump/DDClient.cpp:28-353 | from rest, a schedule exists that completes a feasible transfer: both report success, exactly this load is delivered, and both are at rest again |
| Cooperation.TransfersFollow | dataDump/DDServer.cpp:326-355 | any number of transfers succeed one after the other while their total fits the allocation, and deliver exactly their loads |
| Cooperation.AnyNumberSucceeds | dataDump/DDServer.cpp:326-355 | for all fresh parties whose frames fit, and any storage contents that fit the allocation together, a run exists in which every transfer succeeds on both sides |
| Cooperation.FreshPartiesRest | dataDump/DDServer.cpp:414-421 | fresh parties are at rest once the server is started |
| Segmentation.SegmentationIsExact | dataDump/DDServer.cpp:231-265 | ceil(L/P) frames rebuild the data; all but the last are full and continue; the last has 1..P bytes and terminates; numbers 1, 2, ... up to 127 |
| Segmentation.CutReachesEnd | dataDump/DDServer.cpp:239-246 | the data is used up after i frames if and only if i >= ceil(L/P) |
| Segmentation.FrameFacts | dataDump/DDServer.cpp:234-253 | size, contents and continue bit of a single frame |
| Segmentation.FrameNumber | dataDump/DDPacket.cpp:469-481 | frame i decodes to number i + 1 while that fits seven bits |
| Packets.TxRoundTrip | dataDump/DDPacket.cpp:178-414 | every transaction header is 11 bytes and reads back unchanged, except that BLOCK_ACKNOT reads back as UNASSIGNED |
| Packets.TxReadsBack | dataDump/DDPacket.cpp:792-873 | what is read after serialising over any buffer |
| Packets.TxWireRoundTrip | dataDump/DDPacket.cpp:299-325 | an 11-byte message survives reading and writing if and only if its type byte is at most 5 |
| Packets.BlockRoundTrip | dataDump/DDPacket.cpp:975-1034 | a block packet with 1..255 payload bytes reads back as itself into any packet object, and has the announced length |
| Packets.BlockWireRoundTrip | dataDump/DDPacket.cpp:605-677 | a well-sized block message survives reading and writing if and only if its type byte is at most 5 and it has a payload |
| Packets.MetadataRoundTrip | dataDump/DDPacket.cpp:451-481 | frame number (seven bits) and continue bit share a byte without disturbing each other |
| Bytes.Field32RoundTrip | dataDump/DDPacket.cpp:210-224 | mask-and-shift writing and reading of a 32-bit field are inverse |
| Bytes.Bytes32RoundTrip | dataDump/DDPacket.cpp:330-344 | four bytes survive being read as a field and written again |
| Bytes.Field16RoundTrip | dataDump/DDPacket.cpp:268-281 | the same for a 16-bit field |
| Bytes.Bytes16RoundTrip | dataDump/DDPacket.cpp:388-401 | two bytes survive being read as a field and written again |
| Bytes.Written32 | dataDump/DDPacket.cpp:330-344 | a 32-bit field is written lowest byte first |
| Bytes.Written16 | dataDump/DDPacket.cpp:388-401 | a 16-bit field is written lowest byte first |
| Bytes.Read32 | dataDump/DDPacket.cpp:210-224 | four bytes are read as the or of the bytes shifted by 0, 8, 16 and 24 |
| Bytes.Read16 | dataDump/DDPacket.cpp:268-281 | two bytes are read as the or of the bytes shifted by 0 and 8 |
| Layout.TxLayout | dataDump/DDPacket.cpp:826-873 | which byte of a transaction message holds which part of which field; type bytes 0 to 5 |
| Layout.TransactionMessages | dataDump/DDPacket.h:28-37 | request, response, agreement and both acknowledgements, byte by byte |
| Layout.BlockLayout | dataDump/DDPacket.cpp:999-1034 | a block message is 4, metadata, two CRC bytes, the size and the payload |
| Layout.FrameOnTheWire | dataDump/DDServer.cpp:231-255 | frame i of a snapshot byte by byte: number i + 1 in seven bits, the top bit for more, and the bytes from i * P on |
| Transport.DeliveredTx | dataDump/DDBase.cpp:140-168 | a transaction header with CRC 0 is accepted field for field by the party that waits for its type, and by no other |
| Transport.DeliveredBlock | dataDump/DDBase.cpp:181-205 | a frame that fits the buffer is accepted as it was sent |
| Transport.AckNotIsNeverAccepted | dataDump/DDPacket.cpp:318-320 | an encoded negative acknowledgement is accepted by nobody |
| Transport.CorruptionIsAccepted | dataDump/crc16.cpp:69-78 | with the CRC disabled, a frame with a changed payload byte is accepted with the changed byte |
| Channels.HoldsTwenty | dataDump/DDTest.cpp:49-67 | of any non-empty messages sent into an empty channel, the first 20 are accepted and come out whole and in order, and all others are refused |
| Channels.NeverMoreThanTwenty | dataDump/DDTest.cpp:135-150 | in every run, neither channel ever holds more than 20 messages |
| Channels.AheadIsExact | dataDump/DDServer.cpp:259-275 | for all fresh parties whose frames fit and with any hope of success: the server can be k frames ahead of the client if and only if k is at most 20 and at most the negotiated number of blocks |
| Channels.FullChannelHoldsUp | dataDump/DDServer.cpp:260-265 | with 20 messages queued a party that wants to send stays where it is, with fewer it sends |
| Channels.BadTxCrcIsDropped | dataDump/DDBase.cpp:154-168 | a transaction message with a CRC other than 0 is taken off the channel and changes nothing else at either party |
| Channels.BadBlockCrcIsDropped | dataDump/DDBase.cpp:195-210 | so is a block message, but for the packet object of the activation |
| PacketObjects.Put32 | dataDump/DDPacket.cpp:330-344 | the loop writes the four bytes of the field and nothing else |
| PacketObjects.Put16 | dataDump/DDPacket.cpp:388-401 | the loop writes the two bytes of the field and nothing else |
| PacketObjects.Get32 | dataDump/DDPacket.cpp:210-224 | the accumulating loop computes the specified field value |
| PacketObjects.Get16 | dataDump/DDPacket.cpp:268-281 | the same for 16 bits |
| PacketObjects.TransactionPacket.SetBuffer | dataDump/DDPacket.cpp:734-752 | a fresh copy of the source bytes and their number, refused for length 0 |
| PacketObjects.TransactionPacket.Serialize | dataDump/DDPacket.cpp:826-873 | leaves exactly the specified bytes in the buffer; without a payload it reports 0, with one the packet's own buffer becomes what was behind the header |
| PacketObjects.TransactionPacket.Deserialize | dataDump/DDPacket.cpp:792-824 | the object becomes the specified header, and its buffer a copy of the announced payload, if there is one |
| PacketObjects.BlockPacketObject.SetFrameNumber | dataDump/DDPacket.cpp:476-481 | ORs the seven bits in |
| PacketObjects.BlockPacketObject.SetContinueBit | dataDump/DDPacket.cpp:461-467 | replaces the top bit and keeps the others |
| PacketObjects.BlockPacketObject.SetBuffer | dataDump/DDPacket.cpp:940-956 | a fresh copy of the source bytes, refused for length 0 |
| PacketObjects.BlockPacketObject.Serialize | dataDump/DDPacket.cpp:999-1034 | header and payload as specified, of which an object with size 0 has none whatever buffer it still holds; or an untouched buffer when there is no room |
| PacketObjects.BlockPacketObject.Deserialize | dataDump/DDPacket.cpp:975-997 | the object becomes the specified packet; an empty payload keeps the old buffer |
| Objects.ChannelObject.Send | dataDump/DDTest.cpp:49-67 | appends unless the message is empty or 20 are queued |
| Objects.ChannelObject.Receive | dataDump/DDTest.cpp:69-97 | takes the oldest message off the queue and copies it if it fits |
| Objects.DataDump.SendTx | dataDump/DDBase.cpp:75-103 | the message specified for the packet's size, whose length wraps around in a byte, is queued, or the queue is unchanged; without a payload it is the encoded header |
| Objects.DataDump.SendBlock | dataDump/DDBase.cpp:107-135 | the encoded frame is queued, or the queue is unchanged |
| Objects.DataDump.ReceiveTx | dataDump/DDBase.cpp:140-178 | one message is used up; the packet is the decoded one exactly when length, type and CRC pass |
| Objects.DataDump.ReceiveBlock | dataDump/DDBase.cpp:181-215 | the same for block packets, decoded into the packet object before the CRC is looked at |
| ServerObject.DDServer.constructor | dataDump/DDServer.cpp:380-394 | the initial state, with an allocation of P * blocks bytes |
| ServerObject.DDServer.StartServer | dataDump/DDServer.cpp:414-421 | next state REQUEST unless busy |
| ServerObject.DDServer.DetectStateChange | dataDump/DDServer.cpp:11-19 | the state change is taken over |
| ServerObject.DDServer.BeIdle | dataDump/DDServer.cpp:26-46 | IDLE cleans up and is not busy |
| ServerObject.DDServer.ReadStorage | dataDump/DDTest.cpp:182-189 | storage bytes replace exactly those behind the pointer |
| ServerObject.DDServer.SettleTerms | dataDump/DDServer.cpp:115-143 | response packet and stored configuration both carry the negotiated terms |
| ServerObject.DDServer.Fill | dataDump/DDServer.cpp:150-158 | what a whole transfer can carry is read, or the read runs past the allocation |
| ServerObject.DDServer.Respond | dataDump/DDServer.cpp:101-179 | RESPONSE up to its first attempt to send |
| ServerObject.DDServer.FramePacket | dataDump/DDServer.cpp:231-255 | the packet object of the next frame |
| ServerObject.DDServer.BuildFrame | dataDump/DDServer.cpp:231-255 | BLOCK up to its first attempt to send |
| ServerObject.DDServer.Report | dataDump/DDServer.cpp:326-355 | TERMINATE notifies, cleans up and goes to REQUEST |
| ServerObject.DDServer.TryResponse | dataDump/DDServer.cpp:164-178 | one turn of the send loop |
| ServerObject.DDServer.TryFrame | dataDump/DDServer.cpp:260-321 | one turn of the send loop, and what follows it |
| ServerObject.DDServer.HearRequest | dataDump/DDServer.cpp:63-96 | one turn of the receive loop, which has no timeout |
| ServerObject.DDServer.HearInitiate | dataDump/DDServer.cpp:197-219 | one turn of the receive loop, and the check of the identifier |
| ServerObject.DDServer.HearAck | dataDump/DDServer.cpp:283-308 | one turn of the receive loop, the identifier check and the erase call |
| ServerObject.DDServer.Activate | dataDump/DDServer.cpp:22-356 | the start of an activation in any state |
| ServerObject.DDServer.Step | dataDump/DDServer.cpp:9-366 | one step changes fields, memory and queues as the machine on values does |
| ClientObject.DDClient.constructor | dataDump/DDClient.cpp:370-376 | the initial state |
| ClientObject.DDClient.StartNewTransfer | dataDump/DDClient.cpp:403-429 | refused without buffer, for size 0 and while busy; otherwise the buffer is attached |
| ClientObject.DDClient.Judge | dataDump/DDClient.cpp:158-179 | INITIATE_BLOCK goes on unless the identifier is 0 |
| ClientObject.DDClient.Report | dataDump/DDClient.cpp:314-343 | TERMINATE notifies, cleans up and goes to IDLE |
| ClientObject.DDClient.TryRequest | dataDump/DDClient.cpp:75-98 | one turn of the send loop |
| ClientObject.DDClient.TryInitiate | dataDump/DDClient.cpp:172-197 | one turn of the send loop |
| ClientObject.DDClient.TryAck | dataDump/DDClient.cpp:252-273 | one turn of the send loop; success only when it is sent |
| ClientObject.DDClient.TryAckNot | dataDump/DDClient.cpp:285-306 | one turn of the send loop |
| ClientObject.DDClient.HearResponse | dataDump/DDClient.cpp:117-145 | one turn of the receive loop |
| ClientObject.DDClient.PollBlock | dataDump/DDClient.cpp:215-218 | one turn of the receive loop, with the packet object that lives as long as the activation |
| ClientObject.DDClient.Store | dataDump/DDClient.cpp:227-280 | the payload is copied to the pointer in the caller's array, if there is room |
| ClientObject.DDClient.Step | dataDump/DDClient.cpp:14-353 | one step changes fields, the caller's array and the queues as the machine on values does |
| SystemObject.System.MoveClient | dataDump/DDTest.cpp:242-248 | a client step keeps the system valid; if it reports success for a drained transfer, the caller's array is an exact copy |
| SystemObject.System.MoveServer | dataDump/DDTest.cpp:233-239 | a server step keeps the system valid and is a step of the transition system |
| SystemObject.System.StartTransfer | dataDump/DDClient.cpp:403-429 | a start call keeps the system valid and is a step of the transition system |
| SystemObject.System.Run | dataDump/DDTest.cpp:233-248 | for every schedule of steps and calls: the actions are the commands one by one, memory handed over for the first time has its contents from before, and the objects end in the state that the transition system's run of these actions reaches |
| SystemObject.Assemble | dataDump/DDTest.cpp:229-230 | any two configurations with room for a header make a valid initial system |
| Crc16.Generate | dataDump/crc16.cpp:71-75 | the commented-out loop computes the remainder of the message times x^16 modulo x^16 + x^12 + x^5 + 1, for every byte sequence |
| Crc16.TableEntry | dataDump/crc16.cpp:32-65 | each of the 256 literals is eight shift-register steps of its index |
| Crc16.TableStep | dataDump/crc16.cpp:74-75 | one turn of the table-driven loop is eight turns of the shift register |
| Crc16.RegisterIsRemainder | dataDump/crc16.cpp:19-30 | the shift register holds the remainder of bit-by-bit long division |
| Crc16.SingleByteErrorIsDetected | dataDump/crc16.cpp:19-30 | changing any one byte of any message changes its CRC |
| Crc16.AppendedCrcDivides | dataDump/crc16.cpp:19-30 | a message followed by its CRC has remainder zero |
| Crc16.CheckValue | dataDump/crc16.cpp:28 | the CRC of the digits 123456789 is the documented 0x31C3 |
| Stopwatch.TicksRoundsHalfUp | ClockAndTimer/header/Stopwatch.hpp:73-102 | every result is the nearest number of units, the upper one of two |
| Stopwatch.LapRoundingBound | ClockAndTimer/header/Stopwatch.hpp:42-54 | the sum of k laps differs from the total by at most k/2 units |
| Stopwatch.BoundIsReached | ClockAndTimer/header/Stopwatch.hpp:83-88 | the bound is met for every even number of laps |
| Stopwatch.NanosecondsAddUp | ClockAndTimer/header/Stopwatch.hpp:42-54 | in nanoseconds the laps add up to the total |
| Stopwatch.Stopwatch.Start | ClockAndTimer/header/Stopwatch.hpp:23-26 | one time point, the present |
| Stopwatch.Stopwatch.Lap | ClockAndTimer/header/Stopwatch.hpp:28-34 | the time since the last time point, which is added to the laps |
| Stopwatch.Stopwatch.Elapsed | ClockAndTimer/header/Stopwatch.hpp:36-40 | the rounded time since the start |
| Stopwatch.Stopwatch.ElapsedLaps | ClockAndTimer/header/Stopwatch.hpp:42-54 | all lap times and the total, within the rounding bound of each other |
| BTimer.NoFalseExpiry | bTimer/bTimer.cpp:113-126 | over every run, with late handlers and failing locks: `isExpired` is true only if the deadline of the latest successful start has passed |
| BTimer.NoLostExpiry | bTimer/bTimer.cpp:153-182 | once set, the flag stays until it is read or the timer is started again |
| BTimer.LateHandlerSets | bTimer/bTimer.cpp:164-168 | a handler sets the flag if and only if the deadline has passed |
| BTimer.ReportsAreBounded | bTimer/bTimer.cpp:113-126 | over every run, expiries are reported at most once per successful start |
| BTimer.ReportsPerStart | bTimer/bTimer.cpp:82-108 | without another start, no more reports than handlers that have yet to run |
| BTimer.OneDeadlineManyReports | bTimer/bTimer.cpp:164-166 | a run exists with exactly that many reports |
| BTimer.StoppedIsSilent | bTimer/bTimer.cpp:82-108 | after a stop that gets the lock, and until a start succeeds, nothing is reported but an expiry that was already waiting |
| BTimer.StartedExpires | bTimer/bTimer.cpp:153-182 | after a successful start, undisturbed, a handler leaves the flag set if and only if the time asked for is over |
| BTimer.StartLeavesHandler | bTimer/bTimer.cpp:27-53 | after a successful start there is a handler that can run |
| BTimer.BTimer.Start | bTimer/bTimer.cpp:27-53 | stops, then sets deadline and flag and leaves one handler behind |
| BTimer.BTimer.Stop | bTimer/bTimer.cpp:82-108 | the handle is gone, flag and pending handlers stay |
| BTimer.BTimer.IsExpired | bTimer/bTimer.cpp:113-126 | returns the flag and clears it |
| BTimer.BTimer.TimeoutCB | bTimer/bTimer.cpp:153-182 | one handler fewer; the flag says whether the current deadline has passed |

## Left out

- Threads and the mutexes of the state getters and setters: reads and writes of the state are atomic. What is concurrent in the model is the interleaving of the two parties.
- A start call that falls between the state check, the busy flag and the first piece of work of one activation: these are one step. Start calls are possible between any two steps.
- `stopServer` (`dataDump/DDServer.cpp:434-450`): it waits for REQUEST and then sets the next state to IDLE, which can override a RESPONSE that is due. It is not part of this model.
- The task loops and the sleeping: they decide only when the next step is made.
- Failure of `startStateTransitionTimer` in the client's REQUEST state (the timer's lock is taken): the transfer then ends without a request.
- Payloads of transaction packets, on values: the protocol never gives them one (`Wire.NoTxPayload`). The packet objects have them.
- PacketObjects.TransactionPacket.Deserialize: requires that the size byte does not point past the buffer, where the code would read beyond it and what it finds there is undefined.
- PacketObjects.BlockPacketObject.Deserialize: the same requirement.
- Objects.DataDump.ReceiveTx: the same requirement for the next message; `Wire.NoOverread` proves that it holds in every run.
- Objects.DataDump.ReceiveBlock: the same; on values, such a message is read as extended by zeros.
- A storage read past the allocation is undefined behaviour. The model stops the server there (`Overflowed`), and states exactly when it happens.
- The bytes that the storage callback copies when it is called to erase: the length is 0 in every run.
- Heap allocation failure, exceptions and callbacks that are not registered.
- Packet sizes below 11 bytes, which have no room for a header, and a null pointer handed to `serialize` or `deserialize`.
- The periodic mode of the timer, `registerCB` and its callback, and what asio does inside; a handler may run at any moment.
- The wrap-around of the stopwatch's 64-bit nanosecond count, and a clock that goes back.
- `ClockAndTimer/source/msTimer.cpp`, the logger, the error handler, `printAll`, `show_times` and the sample programs.
