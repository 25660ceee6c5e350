# UARTBus, modelled and proved in Dafny

UARTBus connects microcontrollers and a PC over one shared serial wire. Every node may send;
a node hears its own bytes, and notices a collision when the echo differs. This project models
five parts of it and proves what they are there for:

- **The link layer** (`Link`, `LinkRuns`, `LinkProgress`, `LinkDelivery`, `LinkBus`, on `Clock`). A node is a state
  machine over atomic steps: a byte heard, time passing, a poll, loading a packet, starting to send,
  sending the next byte, leaving the send. Its history of bytes and events is a ghost log. The
  invariants are kept by every step and so hold in every run from power-on. `LinkDelivery` runs two
  nodes on one wire. `LinkBus` is the same machine as a class with the fields of `struct uartbus`,
  a wrapping 32-bit time register and the loops of `ub_send_packet`; each method is proved to take a
  run of the state machine.
- **The gateway** (`Framing`, `FirmwareDecoder`, `GatewayQueue`, `Gateway`, `GatewayConnector`,
  `GatewayDevice`). Escaped stream framing, the linked queue over a static pool, and the whole device as a
  FIFO between the PC and the bus, as a state machine and as the program with its objects.
- **The bootloader and the upload** (`Flash`, `FlashDevice`, `BootloaderReceive`, `DirectLine`,
  `Upload`, `UploadClient`, `IdealUpload`, `LateStart`). Page buffering and commit; the receive buffers; the client's
  `push_code` and `verify_code` over a channel that loses, delays and repeats requests and answers. A run
  of the client is determined by the request it sends in each wait, so its errors are explained by
  that list and by what the channel did; the nested loops are proved to do what a small machine of phases says.
- **The codecs** (`Bits`, `Varint`, `VarintPack`, `LinearCode`, `Crc8`, `Base64`, `IntelHex`,
  `CodeSegments`). Variable-length integers, the Dallas/Maxim CRC-8, base64 of section 4 of RFC 4648,
  Intel HEX.
- **The RPC layer** (`RpcValues`, `PacketIo`, `Packets`, `RpcBus`, `RpcService`). Typed values over the
  codecs, service dispatch, and matching of replies to waiting transactions.

Code that changes fields or loops is a class or a method proved against a function on values; what
the repository promises is proved about those functions. `dafny verify dfyconfig.toml` checks all of it.

## Main results

1. A send that ends without collision put exactly the packet on the wire (`LinkRuns.CleanSendWasHeard`),
   and a listening node with the same timing reports it as exactly one frame
   (`LinkDelivery.CleanSendReachesListener`).
2. Loaded packets go out in order, each once; a collided one is repeated before the next is taken
   (`LinkRuns.LoadedPacketsGoOutInOrder`), so the gateway is a FIFO (`Gateway.GatewayIsFifo`) that carries
   the PC's packets except those a full queue refused (`Gateway.PcPacketsReachTheBus`), on a queue without
   leaks (`GatewayQueue.Queue.EnqueueContent`); the main loop over the real queue and bus objects does only
   what that FIFO does (`GatewayDevice.Program.Loop`).
   Silence ends every exchange and makes every node idle (`LinkProgress.SilenceMakesIdle`), and then an
   undisturbed send succeeds (`LinkProgress.UndisturbedSendSucceeds`), so a queued packet goes out
   (`GatewayDevice.QueuedPacketGoesOut`).
3. Nobody sends before the required silence has really passed, although the counter wraps
   (`LinkRuns.SendsAreFair`), and the events of every run are complete exchanges
   (`LinkRuns.EventsAreExchanges`), so the PC recovers the frames (`Gateway.PcRecoversFrames`).
4. At every moment of an upload the device holds exactly a prefix of the image, and a successful
   `push_code` leaves the image in the flash; a failed one gave up a transaction whose attempts, or whose
   rounds of asking and pushing, were all in vain, or a repeated start or commit was refused, or the code starts
   elsewhere (`UploadClient.PushImage`). However many answers are lost, it does not give up while one of
   `retry` waits in a row is answered, and without late answers it ends in time (`UploadClient.UploadEnds`); when
   nothing is lost, it sends each piece once, in order (`IdealUpload.IdealRun`). No request at all changes the
   bootloader's memory (`Flash.ProtectedMemoryIsKept`).
5. The packed integer is the only shortest form of its value (`Varint.PackedIsShortest`), the byte-wise
   packer computes it (`VarintPack.PackValue`) and it comes back from anywhere (`Varint.RoundTrip`).
6. The CRC rejects every odd number of flipped bits, every change in one byte and every burst of up to
   eight bits, in packets of any length (`Crc8`).
7. In any run of the RPC client a call gets the very value or error number that the service returned, unless
   an older transaction waits for the same answer (`RpcService.CallReturnsResult`); no transaction is
   answered twice (`RpcBus.EachPacketOnce`), and each only by its device (`RpcBus.AnsweredByItsDevice`); typed values, base64 texts and Intel HEX files come back as written.

## Where a promise needs a condition

- `Flash.BytewiseIff`: page buffering and commit leave the same memory as byte-wise writing exactly when
  the rest of the last page already was what the commit leaves there; it is erased with the page, and an
  odd last byte takes its neighbour along, since flash is written in words: a byte that an earlier page
  left in the page buffer (`Flash.StaleNeighbour`).
- `LateStart.RestartsIff`: `blf_start_flash` answers `EALREADY` but still resets the address, so the upload is
  proved for channels that deliver or lose all start requests before the first push. For any number of later
  start requests, each with any number of bytes pushed from the beginning and perhaps a commit, from any state of
  the device, even with a committed image, the lemma tells exactly when the image is there in the end. For one start
  in the stage, `LateStart.LateStartIff` gives the condition on the old memory. With nothing pushed again what
  was in the page buffer is lost (`LateStart.LateStartLosesTail`); with the first block pushed again, as a client
  does that hears a late answer, the rest of its page is erased even if it was written or committed before
  (`LateStart.LateStartErases`). In both cases the commit succeeds.
- `UploadClient.UploadEnds`: lost answers can make an upload fail in one way only: when the answer to the start
  request is lost, the repeated one is refused with `EALREADY` (`UploadClient.RepeatedStartIsRefused`). A commit that
  is refused when repeated also ends in an error, but the image is in the flash.
- `FirmwareDecoder.DecoderAgreesWithCutter`: the firmware decoders agree with the PC's exactly on packets
  shorter than their buffer.
- `Framing.OneFrameResyncs`: one frame brings an arbitrary cutter back in step except for one family of
  frames; two always do (`Framing.ExactAfterTwoFrames`).
- `RpcValues.UnsignedComesBack`: an unsigned value, which is written signed and read unsigned, comes back
  exactly when it is not negative; the writer does not reject negative ones.
- `CodeSegments.CodeIsTheRecords` and `CodeSegments.WrittenCodeComesBack`: overlap is noticed only where a
  record starts strictly inside a segment (`CodeSegments.RejectedIff`, `CodeSegments.OverlapCanPass`), so the
  segments are disjoint
  exactly when the records are; written segments come back exactly when none starts where an earlier one ends.
- `BootloaderReceive.BufferHoldsFrame`: the receive buffer holds a frame exactly when it has at most 48 bytes and
  no dispatch of the packet before it released the buffer after the first byte; a dispatch that ends before
  the frame starts never does (`BootloaderReceive.DispatchInTime`), a late one can, in a run of the link layer
  from power-on (`BootloaderReceive.LateReleaseCutsShort`).
- `RpcValues.ReadIsEndlessIff`: on any data and for any type, `read_type` never comes back exactly when it comes,
  having read all before, to an array with data left whose items take no data, that is, are built from empty
  structures only. For arrays nested in each other around a type that itself is free of such arrays, this is decided by the
  innermost item type and whether there is data (`RpcValues.ArrayIsEndlessIff`).
- `Clock.WholeRangeIsInvisible`: a pause of 2^32 microseconds cannot be told from none, which is why the
  delivery result asks for shorter pauses.

Where code and comments disagree, the code is followed: `ub_manage_connection` announces -1 for a bus that
became busy, but returns the 1 of `ub_send_packet`.

## Model

| member | source | states |
|---|---|---|
| Clock.MeasuredIsElapsed | source/uc/bus/lib/common/ub.c:65-106 | the reading is the elapsed time modulo 2^32, one less if the counter wrapped |
| Clock.MeasuredBounds | source/uc/bus/lib/common/ub.c:65-106 | the reading is never above the elapsed time, and within the range at most 1 below it |
| Clock.MeasuredMonotone | source/uc/bus/lib/common/ub.c:65-106 | within the range of the counter a later reading is not smaller |
| Clock.WholeRangeIsInvisible | source/uc/bus/lib/common/ub.c:65-106 | a pause of the whole range reads as none |
| LinkRuns.ControlKept | source/uc/bus/lib/common/ub.c:156-387 | every step keeps status, wait cycles, program counter and pending packet consistent |
| LinkRuns.EchoKept | source/uc/bus/lib/common/ub.c:234-387 | every step keeps: a sending node has heard exactly what it put on the wire, up to the byte whose echo it awaits |
| LinkRuns.SendsKept | source/uc/bus/lib/common/ub.c:140-229 | every step keeps: what was loaded is what went out cleanly plus what is pending, and each clean send was heard as loaded |
| LinkRuns.GrammarKept | source/uc/bus/lib/common/ub.c:140-229 | every step keeps: the events are complete exchanges plus the open part that the status names |
| LinkRuns.QuietKept | source/uc/bus/lib/common/ub.c:40-53 | every step keeps the bounds on the silence since the last byte, and that every send so far came after it |
| LinkRuns.NestedKept | source/uc/bus/lib/common/ub.c:262-288 | every step keeps: receive_start and receive_end alternate with no other event between them |
| LinkRuns.InvariantKept | source/uc/bus/lib/common/ub.c:156-503 | all of these together are kept by every enabled step |
| LinkRuns.InvariantAlong | source/uc/bus/lib/common/ub.c:156-503 | and so along every run |
| LinkRuns.ReachableInvariant | source/uc/bus/lib/common/ub.c:389-503 | and so in every state reachable from ub_init |
| LinkRuns.CleanSendWasHeard | source/uc/bus/lib/common/ub.c:200-216 | in every run, at each send_end without collision_start the bytes heard and the bytes put since send_start are exactly the loaded packet |
| LinkRuns.LoadedPacketsGoOutInOrder | source/uc/bus/lib/common/ub.c:469-503 | in every run the loaded packets are the clean sends, in order, plus the pending one |
| LinkRuns.EventsAreExchanges | source/uc/bus/lib/common/ub.c:140-229 | every event trace is a list of receptions, sends and collided sends, with at most the last one unfinished |
| LinkRuns.SendsAreFair | source/uc/bus/lib/common/ub.c:156-228 | no send starts and no node is idle before packet timeout plus one to four byte times, as the two flags say, have really passed since the last byte heard |
| LinkRuns.OnlyFramesAreReported | source/uc/bus/lib/common/ub.c:234-288 | in every run of a node that skips collision data, bytes are reported only inside of frames, or while it was not yet connected: never its own bytes or the remains of a collision |
| LinkRuns.HeardIsReported | source/uc/bus/lib/common/ub.c:262-288 | what a listening or receiving node hears is the next byte of its frame |
| LinkProgress.PollEndsExchange | source/uc/bus/lib/common/ub.c:156-229 | a poll after a long silence ends the open exchange with its last event, or makes the node idle |
| LinkProgress.SilenceMakesIdle | source/uc/bus/lib/common/ub.c:156-229 | from every reachable state outside of the send loop, two long silences with a poll after each make the node idle, with the open exchange closed |
| LinkProgress.FairWaitIsExact | source/uc/bus/lib/common/ub.c:40-53 | the fair wait has as many byte times as the flags say, and after a reception up to two more; the node is idle exactly at the first poll after it |
| LinkProgress.LostEchoIsCollision | source/uc/bus/lib/common/ub.c:156-229 | a sender whose echo stays out past the packet timeout collides at its next poll, with both events, and keeps its packet |
| LinkProgress.UndisturbedSendSucceeds | source/uc/bus/lib/common/ub.c:298-387 | a node that may send and hears each byte back in time has sent its packet cleanly after the silence, with the two events of a send |
| LinkDelivery.FollowsKept | source/uc/bus/lib/common/ub.c:262-288 | while the sender sends, the receiver has the heard bytes as its open frame, or has closed it when the sender's own check has expired too |
| LinkDelivery.NoiseKept | source/uc/bus/lib/common/ub.c:262-288 | a receiver that has the packet and then detects starts of which no byte follows adds empty frames only |
| LinkDelivery.OwnStepsReceiveNothing | source/uc/bus/lib/common/ub.c:298-387 | without a byte heard, a node outside a reception gets no frame and begins none |
| LinkDelivery.PollClosesFrame | source/uc/bus/lib/common/ub.c:156-229 | a receiver that holds the packet closes it as one frame at any poll after the silence |
| LinkDelivery.CleanSendIsDelivered | source/uc/bus/lib/common/ub.c:298-387 | along every joint run, with detected starts on both nodes at any time, a send that ends cleanly leaves the receiver with the packet, or with nothing missing but a poll |
| LinkDelivery.CleanSendReachesListener | source/uc/bus/lib/common/ub.c:298-387 | the same from the start of the send for any listener that is not inside a frame, or has just detected the start of this one: exactly one frame more, and it is the packet; if the receiver detects starts after it has closed the frame, only empty frames follow |
| LinkBus.UartBus.constructor | source/uc/bus/lib/common/ub.c:389-397 | the registers start as the initial state of the machine |
| LinkBus.UartBus.IsSliceExceeded | source/uc/bus/lib/common/ub.c:65-106 | the test on the wrapping register is the test on the measured time, and the update is optional |
| LinkBus.UartBus.NoteCollision | source/uc/bus/lib/common/ub.c:140-154 | new registers and events are those of the collision step |
| LinkBus.UartBus.OutUpdateState | source/uc/bus/lib/common/ub.c:156-229 | new registers and events are those of the poll step |
| LinkBus.UartBus.HandleEcho | source/uc/bus/lib/common/ub.c:234-256 | a collision is exactly a non-byte, a wrong echo or a late one; otherwise the echo is consumed |
| LinkBus.UartBus.PredictTransmissionStart | source/uc/bus/lib/common/ub.c:442-451 | opens a reception exactly from idle and fair wait |
| LinkBus.UartBus.OutRecByte | source/uc/bus/lib/common/ub.c:262-288 | new registers and events are those of the byte step |
| LinkBus.UartBus.AwaitEcho | source/uc/bus/lib/common/ub.c:355-366 | the wait loop takes a run of the machine and ends when the echo came or the send broke |
| LinkBus.UartBus.SendLoaded | source/uc/bus/lib/common/ub.c:496-498 | after the interrupts before it, an idle bus starts to send and the code tells how it ended; a busy one is left alone with code 1; what happens in between is what the environment did |
| LinkBus.UartBus.SendPacket | source/uc/bus/lib/common/ub.c:298-387 | on a bus that is not idle does nothing; else takes a run of the machine that begins with the send, with any interrupts after the start, between each wait and the byte that follows, and after each byte; the code tells whether it is still sending |
| LinkBus.UartBus.ManageConnection | source/uc/bus/lib/common/ub.c:469-503 | takes a run of the machine that begins with a poll; on an idle bus it picks up the offered packet if none is pending, and then sends as `SendLoaded` says; otherwise code and run are exactly those of the case |
| LinkBus.UartBus.SendByte | source/uc/bus/lib/common/ub.c:315-352 | one round of the send loop: waits, gives up if the send broke, else puts the byte, even if a collision came after the check |
| LinkBus.SuccessMeansEchoed | source/uc/bus/lib/common/ub.c:298-366 | a run that leaves the send loop still sending has put and heard the whole packet |
| Framing.FrameBytes | source/rust/uartbus/src/framing.rs:6-19 | the loop gives the escaped bytes and the terminator |
| Framing.FramedPacketCutter.constructor | source/rust/uartbus/src/framing.rs:23-37 | a new cutter is empty and in step |
| Framing.FramedPacketCutter.FeedBytes | source/rust/uartbus/src/framing.rs:43-58 | state and packets are those of feeding byte by byte |
| Framing.ChunkingDoesNotMatter | source/rust/uartbus/src/framing.rs:43-58 | any chunking of a stream gives the same state and packets as the whole stream |
| Framing.CutterRecoversPackets | source/rust/uartbus/src/framing.rs:6-58 | for every escape byte, packets and chunking, exactly the framed packets come out |
| Framing.ExactAfterTwoFrames | source/rust/uartbus/src/framing.rs:43-58 | from any state, after two frames the cutter is in step and every later packet is exact |
| Framing.OneFrameResyncs | source/rust/uartbus/src/framing.rs:43-58 | one frame leaves nothing behind exactly unless an escape is pending and its packet is all escapes |
| FirmwareDecoder.BufferedIsRemainder | source/uc/utils/apps/arduino/bus_gateway/uartbus_connector.cpp:227-268 | a full buffer is emptied, so a packet loses a leading multiple of the buffer size |
| FirmwareDecoder.DecodeFrames | source/uc/utils/apps/arduino/bus_gateway/uartbus_connector.cpp:227-268 | for every list of packets the decoder cuts those remainders |
| FirmwareDecoder.DecoderAgreesWithCutter | source/uc/utils/apps/arduino/bus_gateway/uartbus_connector.cpp:227-268 | gateway and PC cut the same packets exactly when all are shorter than the buffer |
| FirmwareDecoder.DirectIsFirstPacket | source/uc/bootloader/direct.c:78-122 | on every byte stream the bootloader's decoder holds the first packet of the gateway's |
| FirmwareDecoder.DirectReceivesFrame | source/uc/bootloader/direct.c:78-122 | one frame, whatever follows, leaves its packet, whole exactly when it is shorter than the buffer |
| DirectLine.Line.OutRecByte | source/uc/bootloader/direct.c:78-122 | the buffer, flag and escape state after a byte are those of the decoder; non-bytes are ignored |
| DirectLine.Line.TrySendPacket | source/uc/bootloader/direct.c:124-142 | a pending packet goes out as exactly one frame and is no longer pending |
| GatewayQueue.Queue.constructor | source/uc/utils/apps/bus_gateway/bus_gateway_commons.c:51-73 | the pool starts all free |
| GatewayQueue.Queue.FullIffExhausted | source/uc/utils/apps/bus_gateway/bus_gateway_commons.c:51-73 | all entries are in use exactly when queued and taken entries add up to the pool |
| GatewayQueue.Queue.NewEntry | source/uc/utils/apps/bus_gateway/bus_gateway_commons.c:51-73 | fails exactly when the pool is exhausted; otherwise takes a free entry and keeps all invariants |
| GatewayQueue.Queue.FreeEntry | source/uc/utils/apps/bus_gateway/bus_gateway_commons.c:75-83 | a taken entry becomes free and points nowhere |
| GatewayQueue.Queue.Push | source/uc/utils/apps/bus_gateway/bus_gateway_commons.c:85-97 | a taken entry is appended to the FIFO |
| GatewayQueue.Queue.Take | source/uc/utils/apps/bus_gateway/bus_gateway_commons.c:99-111 | the oldest packet leaves the FIFO; nothing happens exactly when it is empty |
| GatewayQueue.Queue.EnqueueContent | source/uc/utils/apps/bus_gateway/bus_gateway_commons.c:113-125 | a packet is accepted exactly when an entry is free, as the newest one |
| GatewayQueue.Queue.SendOnIdle | source/uc/utils/apps/bus_gateway/bus_gateway_commons.c:144-170 | hands over a copy of the oldest packet and releases its entry |
| Gateway.OutputIsFrames | source/uc/utils/apps/arduino/bus_gateway/uartbus_connector.cpp:164-195 | for every history, what the PC gets is the reported frames and the beginning of the open one |
| Gateway.PcRecoversFrames | source/uc/utils/apps/arduino/bus_gateway/uartbus_connector.cpp:164-195 | in every run the PC's cutter gives exactly the frames of the bus |
| Gateway.SoundKept | source/uc/utils/apps/bus_gateway/bus_gateway_commons.c:113-170 | every activity of the gateway keeps: accepted is sent, pending or queued; the accepted packets are a subsequence of the decoded ones, and the others are counted as dropped |
| Gateway.GatewayIsFifo | source/uc/utils/apps/bus_gateway/bus_gateway_commons.c:113-170 | in every run the non-empty accepted packets are the clean sends, the pending one and the queue, in that order |
| Gateway.PcPacketsReachTheBus | source/uc/utils/apps/arduino/bus_gateway/uartbus_connector.cpp:227-268 | in every run the clean sends are a subsequence of what the PC framed, a prefix if nothing was dropped, and sent, pending, queued and dropped packets add up to the decoded ones |
| GatewayConnector.InletRefinesGateway | source/uc/utils/apps/arduino/bus_gateway/uartbus_connector.cpp:227-268 | reading bytes with buffer and queue is reading them in the gateway's state machine |
| GatewayConnector.Connector.UbRecByte | source/uc/utils/apps/arduino/bus_gateway/uartbus_connector.cpp:164-174 | a byte is written escaped while receiving, and not at all otherwise |
| GatewayConnector.Connector.UbEvent | source/uc/utils/apps/arduino/bus_gateway/uartbus_connector.cpp:182-195 | the terminator is written exactly at receive_end |
| GatewayConnector.Connector.Deliver | source/uc/utils/apps/arduino/bus_gateway/uartbus_connector.cpp:164-195 | callbacks keep the output equal to the one specified for the history |
| GatewayConnector.Connector.ReadByte | source/uc/utils/apps/arduino/bus_gateway/uartbus_connector.cpp:235-267 | one byte changes escape state, buffer and queue as specified |
| GatewayDevice.LinkRunIsRun | source/uc/utils/apps/bus_gateway/bus_gateway_commons.c:191-194 | a run of the link layer that picks up nothing is a run of the gateway that changes the node only |
| GatewayDevice.ReadingIsRun | source/uc/utils/apps/arduino/bus_gateway/uartbus_connector.cpp:227-268 | reading bytes is a run of the gateway that leaves the node alone |
| GatewayDevice.Program.SendOnIdle | source/uc/utils/apps/bus_gateway/bus_gateway_commons.c:144-170 | with an empty send buffer, taking from the queue and handing over is the gateway's pick-up, or the queue is empty |
| GatewayDevice.Program.ManageConnection | source/uc/utils/apps/bus_gateway/bus_gateway_commons.c:191-194 | poll, pick-up and send on the real objects are a run of the gateway: on an idle bus with nothing pending the oldest packet is taken up, and what is pending is sent |
| GatewayDevice.Program.HandleEvents | source/uc/utils/apps/bus_gateway/bus_gateway_commons.c:196-200 | one round of the program is that, and then takes all available bytes, but at most 19 |
| GatewayDevice.Program.Loop | source/uc/utils/apps/bus_gateway/bus_gateway_commons.c:196-200 | from power-on, for all interrupts and all input: every round is as it should be for the state it begins in, the bytes taken are exactly those of the rounds, clean sends, pending packet and queue of the objects are the accepted packets in order, and the clean sends are a subsequence of what the PC framed |
| GatewayDevice.QueuedPacketGoesOut | source/uc/utils/apps/bus_gateway/bus_gateway_commons.c:144-170 | in any run, an idle gateway that nobody disturbs takes up the oldest packet of its queue and sends it cleanly; the others remain |
| GatewayConnector.Connector.ManageDataFromPc | source/uc/utils/apps/arduino/bus_gateway/uartbus_connector.cpp:227-268 | takes at most 19 bytes in a call, each as specified |
| Flash.MaskIsRounding | source/uc/bootloader/ub_bootloader.c:265-285 | masking the low bits is rounding down to a page, for every page size |
| Flash.FillByteStages | source/uc/bootloader/ub_bootloader.c:265-285 | one byte more is buffered, or completes a page that is written at its base |
| Flash.FillStages | source/uc/bootloader/ub_bootloader.c:265-285 | after any bytes the full pages are written once each, in order, and the rest is buffered |
| Flash.CommitStores | source/uc/bootloader/ub_bootloader.c:322-352 | the commit leaves the code, and the old memory around its pages |
| Flash.CommitIsBytewise | source/uc/bootloader/ub_bootloader.c:322-352 | the same memory as byte-wise writing, except behind the code in its last page |
| Flash.TailIsErased | source/uc/bootloader/ub_atmega.c:175-205 | what is there instead: erased bytes, after the neighbour of an odd last byte |
| Flash.CommittedByte | source/uc/bootloader/ub_bootloader.c:322-352 | the memory after the commit at every address: the code, the tail of its last page, the old memory |
| Flash.StaleNeighbour | source/uc/bootloader/ub_atmega.c:175-205 | with one byte staged the commit also writes the stale byte behind it in the page buffer, so the memory is not the byte-wise one |
| Flash.BytewiseIff | source/uc/bootloader/ub_atmega.c:175-205 | the whole memory is the byte-wise one exactly when the last page was already so behind the code |
| Flash.PushAllIsFill | source/uc/bootloader/ub_bootloader.c:288-319 | pushes of any non-empty pieces at the expected addresses fill with the joined code |
| Flash.SplitDoesNotMatter | source/uc/bootloader/ub_bootloader.c:265-352 | for every page size and split, pushes and commit leave the byte-wise memory up to the last page |
| Flash.ProtectedMemoryIsKept | source/uc/bootloader/ub_atmega.c:175-205 | for any requests in any order, memory below 0x2000 and behind the last writable page keeps its bytes |
| Flash.PushTakenIff | source/uc/bootloader/ub_bootloader.c:288-319 | a push is taken exactly in the stage, with code, above the bootloader and at the device's address; else nothing changes and the error is 107, 74, 14 or 6, in this order |
| Flash.CommitTakenIff | source/uc/bootloader/ub_bootloader.c:322-352 | a commit is taken exactly in the stage and above the bootloader; else nothing changes and the error is 77 or 14 |
| FlashDevice.Bootloader.WriteProgramPage | source/uc/bootloader/ub_atmega.c:175-205 | the word loop programs the page as specified, and only writable pages |
| FlashDevice.Bootloader.FillFlash | source/uc/bootloader/ub_bootloader.c:265-285 | buffer, flash and address are those of filling byte by byte |
| FlashDevice.Bootloader.StartFlash | source/uc/bootloader/ub_bootloader.c:236-256 | enters the stage at the application's start; answers EALREADY in the stage, and resets all the same |
| FlashDevice.Bootloader.PushCode | source/uc/bootloader/ub_bootloader.c:288-319 | state and answer are the specified ones, with all four errors |
| FlashDevice.Bootloader.CommitFlash | source/uc/bootloader/ub_bootloader.c:322-352 | state and answer are the specified ones, with both errors |
| BootloaderReceive.KeptWhole | source/uc/bootloader/ub_uartbus.c:14-25 | a frame is kept whole exactly when it has at most 48 bytes |
| BootloaderReceive.BootloaderSeesFrames | source/uc/bootloader/ub_uartbus.c:14-47 | in every run of the link layer, with any dispatches in between, at each receive_end the buffer holds the frame exactly when it fits and was not cut short, and the flag tells whether it holds anything |
| BootloaderReceive.BufferHoldsFrame | source/uc/bootloader/ub_uartbus.c:14-47 | while a frame is open the buffer holds all of it exactly when it fits and no dispatch released it after the first byte |
| BootloaderReceive.DispatchInTime | source/uc/bootloader/ub_bootloader.c:504-565 | a dispatch that ended before the frame started cannot cut it short |
| BootloaderReceive.LateReleaseCutsShort | source/uc/bootloader/ub_bootloader.c:504-565 | a node reached from power-on, with the dispatches of such a trace, where the release of one packet has taken the first byte of the frame being received |
| BootloaderReceive.WaitingIsForgotten | source/uc/bootloader/ub_uartbus.c:29-47 | a packet not yet dispatched is forgotten when a collision or a reception starts and when the node has sent |
| BootloaderReceive.WaitingIsKept | source/uc/bootloader/ub_uartbus.c:29-47 | and is kept by everything else but its dispatch and the end of a frame |
| BootloaderReceive.Receiver.UbRecByte | source/uc/bootloader/ub_uartbus.c:14-25 | the buffer and the flag stay those specified for the callbacks and dispatches so far |
| BootloaderReceive.Receiver.UbEvent | source/uc/bootloader/ub_uartbus.c:29-47 | the same for an event |
| BootloaderReceive.Receiver.TryBegin | source/uc/bootloader/ub_bootloader.c:504-511 | a dispatch begins exactly when a packet was received, and clears the flag |
| Upload.PieceTaken | source/uc/bootloader/ub_bootloader.c:288-319 | a push accepted at the device's address extends the prefix of the image by its piece |
| Upload.DeviceKept | source/uc/bootloader/ub_bootloader.c:236-352 | whatever request arrives, the device stays fresh, filled with a prefix, or committed, and its answer is truthful |
| Upload.DeliverAllKept | source/uc/bootloader/ub_bootloader.c:236-352 | the same for any sequence of deliveries, repeated and late ones included |
| Upload.AnswersInStage | source/uc/bootloader/ub_bootloader.c:236-352 | what a device in the stage answers, by number: a push is taken exactly at its address, and elsewhere refused with 6 and without effect |
| Upload.AnswersOutsideStage | source/uc/bootloader/ub_bootloader.c:236-352 | what a fresh or a committed device answers, by number |
| UploadClient.Call | source/rust/uartbus/src/rpc/device.rs:161-205 | every attempt keeps the invariant; the request is sent until its first answer, which says something true of the device even if it is late; giving up means that all attempts were made, each in vain |
| UploadClient.RetriedCall | source/rust/uartbus/src/apps/upload.rs:69-81 | the same for a retried transaction, and an error has its cause |
| UploadClient.PushStep | source/rust/uartbus/src/apps/upload.rs:185-221 | one round keeps the invariant and the client's address at or below the device's; done means the device has everything; a transaction error means that the address was asked for as often as retries, always in vain, or was known or learned and the one push after it was in vain; without late answers every round makes progress or fails |
| UploadClient.PushPieces | source/rust/uartbus/src/apps/upload.rs:181-229 | the loop ends with the whole image taken, or with an error that has its cause: the transaction that failed consists of exactly as many failed rounds as retries, and nothing else |
| UploadClient.PushRounds | source/rust/uartbus/src/apps/upload.rs:69-81 | a transaction error of the push loop means exactly as many failed rounds as retries, one after the other |
| UploadClient.StartAddress | source/rust/uartbus/src/apps/upload.rs:174-179 | goes on exactly when the reported address is the code's start, which is then the application's |
| Upload.FlashingIsStaged | source/uc/bootloader/ub_bootloader.c:265-319 | a device in the stage has the prefix staged: pages written once, in order, the rest buffered |
| Upload.CommittedHoldsImage | source/uc/bootloader/ub_bootloader.c:322-352 | a committed device has the image in its flash and the old memory outside of its pages |
| UploadClient.PushImage | source/rust/uartbus/src/apps/upload.rs:159-235 | in every run, wherever it is cut, the invariant holds and the client sends and returns exactly what its phases say; Ok means that the commit was answered and the flash holds the whole image; an error is a transaction whose waits or rounds all failed, a refused start (114) or commit (77, with the image stored), or another start address; nothing is given up while one of `retry` waits in a row is answered; without late answers the run is bounded |
| UploadClient.UploadEnds | source/rust/uartbus/src/apps/upload.rs:159-235 | with enough waits, no late answers and one answer in `retry` waits, the run ends and the image is in the flash, unless a repeated start was refused |
| UploadClient.EnoughWaitsIsProduct | source/rust/uartbus/src/apps/upload.rs:159-235 | how many waits are enough |
| UploadClient.RepeatedStartIsRefused | source/rust/uartbus/src/apps/upload.rs:165-172 | a start that is repeated because its answer was lost ends the upload with 114 |
| UploadClient.OwnAnswerIsFresh | source/uc/bootloader/ub_bootloader.c:236-352 | the answer that a device gives to a request when it gets it is not a late one |
| UploadClient.GaveUpIsDead | source/rust/uartbus/src/apps/upload.rs:69-81 | giving up, with whole rounds or single requests, means that `retry` waits in a row brought no answer |
| IdealUpload.IdealRun | source/rust/uartbus/src/apps/upload.rs:159-235 | when every request is delivered once and its answer heard, the requests are the stage, the start, the address twice, each piece of 32 bytes once in order, and the commit; then the image is in the flash |
| LateStart.LateStartIff | source/uc/bootloader/ub_bootloader.c:236-256 | after a start request in any state of the stage and any number of bytes pushed again, the commit succeeds and leaves the image exactly when the erased tail and the part behind the written pages were already right |
| LateStart.LateStartLosesTail | source/uc/bootloader/ub_bootloader.c:236-256 | with nothing pushed again: the image is there exactly when the memory already held it from the last page on |
| LateStart.LateStartErases | source/uc/bootloader/ub_bootloader.c:236-256 | from any state, a committed image included, with the first block pushed again: all three requests succeed and the byte behind the block is erased |
| LateStart.AllAgainSurvives | source/uc/bootloader/ub_bootloader.c:236-352 | from any state, with everything pushed again the commit succeeds and the image is there |
| LateStart.UploadIsOurs | source/uc/bootloader/ub_bootloader.c:236-352 | every state that a device has in an upload is one of those |
| LateStart.RestartsIff | source/uc/bootloader/ub_bootloader.c:236-352 | after any number of starts, each with some bytes and perhaps a commit, from any state: the image is there exactly when, for each byte, the last of them that touched it wrote it or left there what the image has, and an untouched byte was right before |
| LateStart.CommitsSucceed | source/uc/bootloader/ub_bootloader.c:322-352 | the commit of each of them succeeds |
| UploadClient.VerifyCode | source/rust/uartbus/src/apps/upload.rs:238-287 | Ok means the flash holds the image, a mismatch error means it does not, although late answers are heard; a transaction error means that as many reads of the block asked for as retries failed: each had as many waits as retries without answer, or its first answer was unreadable or for another block |
| UploadClient.ReadProgramCode | source/rust/uartbus/src/rpc/device.rs:161-205 | one read gives the first answer within the retries, or none |
| Varint.TopDigit | source/rust/uartbus/src/tools.rs:244-279 | the digits hold the whole magnitude, and the sign bit is free in the first one |
| Varint.CountUsed | source/rust/uartbus/src/tools.rs:284-300 | finds the length of a packed value, or that it is incomplete |
| Varint.UnpackValue | source/rust/uartbus/src/tools.rs:284-315 | the loop gives the value and length specified |
| Varint.RoundTrip | source/rust/uartbus/src/tools.rs:135-315 | for every integer, prefix and suffix, unpacking at the prefix gives the value and its packed length |
| Varint.SignedReadUnsigned | source/rust/uartbus/src/tools.rs:284-315 | packed signed and unpacked unsigned, a value comes back exactly when it is not negative |
| Varint.DecodedFits | source/rust/uartbus/src/tools.rs:284-315 | bytes that decode to a magnitude have room for it and the sign |
| Varint.PackedIsShortest | source/rust/uartbus/src/tools.rs:135-315 | no shorter byte string decodes to the value, and no other one of the same length |
| Varint.FirstOfSeries | source/rust/uartbus/tests/tools_java_port.rs:7-22 | for every length, the bytes of the smallest unsigned value that needs it |
| Varint.LastOfSeries | source/rust/uartbus/tests/tools_java_port.rs:24-35 | for every length, the bytes of the largest one |
| Varint.SignBit | source/rust/uartbus/src/tools.rs:244-279 | a negative number is its complement with bit 6 of the first byte set |
| VarintPack.ToBytesRoundTrip | source/rust/uartbus/src/tools.rs:168-193 | stripped big-endian bytes stand for their number and have no leading zero |
| VarintPack.FormulaIsPackedLength | source/rust/uartbus/src/tools.rs:195-218 | the nine-bits-per-byte formula is the rounded-up seventh of the bit length, for every length |
| VarintPack.CalcPackReqBytes | source/rust/uartbus/src/tools.rs:195-218 | the counting loop computes it |
| VarintPack.WindowIsDigit | source/rust/uartbus/src/tools.rs:244-279 | the moving window over byte pairs takes exactly the seven bits of each digit |
| VarintPack.FlagsByOr | source/rust/uartbus/src/tools.rs:269-275 | the flags set by or run into no digit bit |
| VarintPack.PackDigits | source/rust/uartbus/src/tools.rs:220-282 | the backward loop writes exactly the packed value and nothing around it |
| VarintPack.PackMagnitude | source/rust/uartbus/src/tools.rs:220-282 | succeeds exactly when there is room, and then writes the packed value |
| VarintPack.PackValueInto | source/rust/uartbus/src/tools.rs:143-166 | the same for a value, and a negative unsigned value is an error that writes nothing |
| VarintPack.PackValue | source/rust/uartbus/src/tools.rs:135-141 | gives the shortest packed form, or the error |
| LinearCode.ChecksumIsLinear | source/rust/uartbus/src/tools.rs:56-89 | for any additive register step, the checksum of a sum is the sum of the checksums |
| LinearCode.UndetectedErrors | source/rust/uartbus/src/tools.rs:317-323 | a damaged codeword is one exactly when the damage is one |
| Crc8.TableIsEightShifts | source/rust/uartbus/src/tools.rs:56-89 | the eight conditional xors are eight shifts of the reflected Dallas/Maxim register |
| Crc8.Crc8Byte | source/rust/uartbus/src/tools.rs:56-89 | one byte is one table step |
| Crc8.Crc8Prefix | source/rust/uartbus/src/tools.rs:56-89 | the loop computes the checksum of the prefix, or of all data if it is shorter |
| Crc8.AppendedCrcIsValid | source/rust/uartbus/src/tools.rs:317-323 | data with its checksum is valid and gives the data back |
| Crc8.AcceptedErrors | source/rust/uartbus/src/tools.rs:317-323 | a damaged packet is accepted exactly when the flipped bits form a valid packet |
| Crc8.OddFlipsAreRejected | source/rust/uartbus/src/tools.rs:317-323 | every odd number of flipped bits is rejected, at any length |
| Crc8.OneByteIsRejected | source/rust/uartbus/src/tools.rs:317-323 | every change in one byte is rejected |
| Crc8.BurstIsRejected | source/rust/uartbus/src/tools.rs:317-323 | every change within eight consecutive bits on the wire is rejected |
| Base64.EncodeBytes | source/rust/uartbus/src/base64.rs:5-31 | the chunk loop gives the padded text |
| Base64.LettersInOrder | source/rust/uartbus/src/base64.rs:1-31 | the letters are those of table 1 of RFC 4648, in order |
| Base64.ReadIff | source/rust/uartbus/src/base64.rs:33-60 | a character is read as its position in that table; padding and line breaks are passed over |
| Base64.DecodeText | source/rust/uartbus/src/base64.rs:33-60 | the accumulator loop gives the specified bytes, or the first invalid character |
| Base64.DecodeEncode | source/rust/uartbus/src/base64.rs:5-60 | decoding an encoded byte sequence gives it back |
| Base64.LineBreaksAreIgnored | source/rust/uartbus/src/base64.rs:33-60 | line breaks change no result, valid or not |
| Base64.WrappedTextDecodes | source/rust/uartbus/src/base64.rs:33-60 | an encoded text with line breaks anywhere decodes to the data |
| IntelHex.ChecksumCompletes | source/rust/uartbus/src/ihex.rs:436-439 | any bytes and their checksum sum to zero modulo 256 |
| IntelHex.HexRoundTrip | source/rust/uartbus/src/ihex.rs:441-470 | hexadecimal text gives its bytes back |
| IntelHex.DigitsAreUpperCase | source/rust/uartbus/src/ihex.rs:131-133 | the digits written are the upper-case ones |
| IntelHex.PrintParse | source/rust/uartbus/src/ihex.rs:98-133 | a printed record parses to itself |
| IntelHex.LoadPrinted | source/rust/uartbus/src/ihex.rs:190-223 | a written file loads as the same records |
| IntelHex.LoadIff | source/rust/uartbus/src/ihex.rs:191-223 | a file is loaded exactly if each line is blank or a record whose bytes sum to zero |
| IntelHex.ParseLineIff | source/rust/uartbus/src/ihex.rs:98-125 | a line is a record exactly if it is a colon and an even number of at least ten hexadecimal digits, with white space around |
| IntelHex.FieldsOfText | source/rust/uartbus/src/ihex.rs:98-125 | the fields of a record from the digits of its text, the address high byte first |
| IntelHex.TrimIsInside | source/rust/uartbus/src/ihex.rs:98-125 | trimming takes the white space at both ends and nothing else |
| IntelHex.SpaceIff | source/rust/uartbus/src/ihex.rs:98-125 | white space is the Unicode property |
| IntelHex.DataLineIsProper | source/rust/uartbus/src/ihex.rs:229-243 | a data record sums to zero, and its bytes describe it exactly when address and length fit |
| IntelHex.EofLineIsProper | source/rust/uartbus/src/ihex.rs:225-227 | so does the end-of-file record |
| CodeSegments.GetCodeSegments | source/rust/uartbus/src/ihex.rs:257-295 | the loop gives the specified segments or error |
| CodeSegments.PlaceRecord | source/rust/uartbus/src/ihex.rs:270-288 | one record is rejected, appended to the first segment it continues, or a new segment |
| CodeSegments.PlaceKeepsBytes | source/rust/uartbus/src/ihex.rs:270-288 | a placed record adds exactly its bytes at its addresses |
| CodeSegments.PlaceKeepsApart | source/rust/uartbus/src/ihex.rs:270-288 | placing a record changes nothing about what overlaps what, and a rejected one overlaps |
| CodeSegments.CodeIsTheRecords | source/rust/uartbus/src/ihex.rs:257-295 | the segments hold the bytes of the records; for non-empty records in any order they are accepted and disjoint exactly when the records are disjoint |
| CodeSegments.RejectedIff | source/rust/uartbus/src/ihex.rs:257-295 | a file is rejected exactly when some record starts strictly inside a segment formed by the records before it |
| CodeSegments.CodeEndsAtEof | source/rust/uartbus/src/ihex.rs:257-295 | the code is that of the lines before the first end record |
| CodeSegments.DataRecordsCount | source/rust/uartbus/src/ihex.rs:257-295 | of these, exactly the data records count, in order |
| CodeSegments.OverlapCanPass | source/rust/uartbus/src/ihex.rs:329-331 | two overlapping records that are not noticed |
| CodeSegments.PiecesComeBack | source/rust/uartbus/src/ihex.rs:416-434 | records of at most 16 bytes are gathered to the segments they were cut from |
| CodeSegments.JoinedIsLost | source/rust/uartbus/src/ihex.rs:277-284 | a segment that starts where an earlier one ends is merged into it |
| CodeSegments.WrittenCodeComesBack | source/rust/uartbus/src/ihex.rs:416-434 | written, loaded and gathered, disjoint 16-bit segments come back exactly when none starts where an earlier one ends, and every line sums to zero |
| CodeSegments.FromSegments | source/rust/uartbus/src/ihex.rs:416-434 | the loops give the specified lines, and checking them never fails |
| CodeSegments.WriteSegment | source/rust/uartbus/src/ihex.rs:419-428 | the inner loop cuts one segment as specified |
| RpcValues.ReadWritten | source/rust/uartbus/src/rpc/tools.rs:98-206 | every well-typed value, nested at will, is read back as it was and takes exactly its bytes |
| RpcValues.ReadWrittenAll | source/rust/uartbus/src/rpc/tools.rs:87-96 | the same for the fields of a structure |
| RpcValues.ReadWrittenArray | source/rust/uartbus/src/rpc/tools.rs:197-206 | the same for the items of an array, up to the end of the data |
| RpcValues.UnsignedComesBack | source/rust/uartbus/src/rpc/tools.rs:98-121 | an unsigned value comes back exactly when it is not negative |
| RpcValues.ValidUtf8Iff | source/rust/uartbus/src/packet.rs:190-201 | text is accepted exactly if it is the UTF-8 encoding of Unicode scalar values |
| RpcValues.TextIsReadIff | source/rust/uartbus/src/packet.rs:190-201 | a text is read up to the first zero exactly if the bytes before it are UTF-8 |
| RpcValues.FixedIsReadIff | source/rust/uartbus/src/rpc/tools.rs:131-206 | a value of one or two bytes is read exactly if they are there |
| RpcValues.WordsHighByteFirst | source/rust/uartbus/src/rpc/tools.rs:131-206 | words have their high byte first, signed ones are two's complements |
| RpcValues.EnumIsReadIff | source/rust/uartbus/src/rpc/tools.rs:131-206 | an enumeration is read exactly if its number is complete and has a label |
| RpcValues.ReadAdvances | source/rust/uartbus/src/rpc/tools.rs:131-206 | while there is data, reading moves on exactly for the types that are not built from empty structures only |
| RpcValues.ReadEnds | source/rust/uartbus/src/rpc/tools.rs:131-206 | on any data the reader comes back for every type without arrays of such items |
| RpcValues.ReadIsEndlessIff | source/rust/uartbus/src/rpc/tools.rs:131-206 | for every type and all data, the reader does not come back exactly when it reaches an array with data left whose items are of such a type |
| RpcValues.ArrayIsEndlessIff | source/rust/uartbus/src/rpc/tools.rs:197-206 | for arrays nested in each other, this is exactly when there is data and the innermost items, if they contain no such arrays themselves, are of such a type |
| RpcValues.EmptyStructuresAreEndless | source/rust/uartbus/src/rpc/tools.rs:197-206 | an array of empty structures and an array of such arrays that are never read to their end, and one of blobs that is |
| PacketIo.PacketAssembler.WritePackedValue | source/rust/uartbus/src/packet.rs:94-105 | appends the shortest packed form, or nothing and the error |
| PacketIo.PacketAssembler.AppendValue | source/rust/uartbus/src/rpc/tools.rs:98-121 | appends the encoding of any nested value and never fails |
| PacketIo.PacketAssembler.AppendElements | source/rust/uartbus/src/rpc/tools.rs:87-96 | appends the encodings in order |
| PacketIo.PacketAssembler.AppendCrc8 | source/rust/uartbus/src/packet.rs:116-119 | appends the checksum of all before |
| PacketIo.PacketReader.ReadVarint | source/rust/uartbus/src/packet.rs:162-175 | gives the value and moves behind it, or stays where it is |
| PacketIo.PacketReader.ReadString | source/rust/uartbus/src/packet.rs:190-201 | reads up to a zero byte and only valid UTF-8 |
| PacketIo.PacketReader.ReadType | source/rust/uartbus/src/rpc/tools.rs:131-206 | value, position and error are those specified for the type, on all data for which the loops end |
| PacketIo.PacketReader.ReadItems | source/rust/uartbus/src/rpc/tools.rs:197-206 | the array loop gives the specified items whenever it ends |
| Packets.ParseAddressed | source/rust/uartbus/src/packet.rs:254-270 | a packet parses to its addresses and payload, for all addresses |
| Packets.PacketRoundTrip | source/rust/uartbus/src/rpc/tools.rs:123-129 | an assembled packet passes the CRC on the other side and parses to its parts |
| Packets.ParsedIff | source/rust/uartbus/src/packet.rs:254-270 | a packet is parsed exactly if it has two bytes that end a number |
| Packets.ParseAnyAddress | source/rust/uartbus/src/packet.rs:254-270 | addresses outside of 32 bits become the greatest sender and the least target |
| Packets.ToPacket | source/rust/uartbus/src/rpc/tools.rs:123-129 | assembles addresses, elements and checksum |
| RpcBus.SoundKept | source/rust/uartbus/src/rpc/bus.rs:243-304 | every operation keeps pending transactions in order of age and answered ones distinct from them |
| RpcBus.EachPacketOnce | source/rust/uartbus/src/rpc/bus.rs:243-304 | over every run each processed packet has one fate, right for the client at that time: it answers the oldest match, or is unrelated, invalid or unparsable; the client's lists are exactly these fates in order, and no transaction is answered twice |
| RpcBus.OldestIsAnswered | source/rust/uartbus/src/rpc/bus.rs:243-270 | a packet answers the oldest waiting transaction that accepts it and leaves the others alone; if none does, it is unrelated |
| RpcBus.AcceptsIff | source/rust/uartbus/src/rpc/bus.rs:45-66 | a packet is an answer exactly if it comes from the called device, goes to the caller and begins with (0 and) the path |
| RpcBus.AcceptedOnTheBus | source/rust/uartbus/src/rpc/bus.rs:45-66 | the same for the bytes on the bus |
| RpcBus.AnsweredByItsDevice | source/rust/uartbus/src/rpc/bus.rs:243-304 | over every run, each answered transaction was registered, and answered while it waited by a packet from its device to its caller with its path |
| RpcBus.OthersLeaveItWaiting | source/rust/uartbus/src/rpc/bus.rs:243-270 | any other packet leaves it waiting |
| RpcBus.RevokedIsNotAnswered | source/rust/uartbus/src/rpc/bus.rs:272-278 | whatever happens after it was revoked, a transaction waits no more and gets no answer |
| RpcBus.UartBus.RevokePendingRequest | source/rust/uartbus/src/rpc/bus.rs:272-278 | exactly that transaction no longer waits |
| RpcBus.UartBus.ProcessPacket | source/rust/uartbus/src/rpc/bus.rs:243-270 | the new lists are those specified |
| RpcService.DispatchInBounds | source/rust/uartbus/src/rpc/service.rs:136-215 | a reply repeats a part of the request that exists |
| RpcService.ServeRequest | source/rust/uartbus/src/rpc/service.rs:136-215 | the loop over namespaces ends as specified |
| RpcService.DispatchFollows | source/rust/uartbus/src/rpc/service.rs:136-215 | the dispatch ends with the reply of the last call on the way of the request through the namespaces |
| RpcService.RepliesHaveRoute | source/rust/uartbus/src/rpc/service.rs:136-215 | and there is no reply without such a way |
| RpcService.SilentIff | source/rust/uartbus/src/rpc/service.rs:174-215 | no answer is given exactly for no result, an internal error, or an error number that the function cannot report |
| RpcService.FeedAnswersIff | source/rust/uartbus/src/rpc/service.rs:136-147 | a bridge answers a packet exactly if it is for its address and path and the dispatch replies |
| RpcService.FeedAnswersSender | source/rust/uartbus/src/rpc/service.rs:112-133 | the answer goes from the called address to the sender |
| RpcService.ExtractFailsIff | source/rust/uartbus/src/rpc/device.rs:93-114 | the caller gets an error without number exactly if the error number is missing or the value cannot be read |
| RpcService.PathComesBack | source/rust/uartbus/src/rpc/bus.rs:45-66 | a payload of zero, path and values is accepted by the caller's transaction and leaves the values |
| RpcService.ReplyAnswersCall | source/rust/uartbus/src/rpc/service.rs:112-133 | when the dispatch ends at the called index, the reply passes the CRC, parses and is accepted by the transaction of the call |
| RpcService.ValueComesBack | source/rust/uartbus/src/rpc/device.rs:93-114 | the caller gets the typed value that the service returned |
| RpcService.ErrnoComesBack | source/rust/uartbus/src/rpc/device.rs:93-114 | an error number reaches the caller as that error exactly when it is not zero |
| RpcService.CallReturnsResult | source/rust/uartbus/src/rpc/device.rs:161-205 | in any run of the client with the call waiting, and for a service whose function is at the end of the called path: the request passes the CRC, the service answers, the answer goes once and only to the oldest transaction that accepts it, which is the call's exactly when no older one does, and it carries the value or error number that the service returned |

## Left out

- Reading without interrupt, `ub_prewait` and the two-thread Linux gateway: not in the configuration of the gateway and the bootloader.
- A `do_send_byte` that fails: putting a byte on the wire is taken to succeed.
- LinkBus.UartBus.SendPacket: no interrupt falls inside of a step: the test of `wi` with the state update in the wait loops, the idle test with the assignments at the start of a send, setting `wi` with sending the byte; each step takes place at one instant.
- BootloaderReceive.BootloaderSeesFrames: the dispatch reads the buffer in one step; bytes of the next frame that overwrite a packet while it is read are not modelled.
- LinkDelivery.CleanSendReachesListener: is stated for a receiver that listens at the first byte or detected its start within the packet timeout, equal timing settings, an ideal shared clock and pauses below 2^32 microseconds.
- UploadClient.PushImage: starts from a freshly reset device and an empty channel, and start requests are over before the first push or commit; `LateStart.RestartsIff` tells what later ones do.
- Flash.MaskIsRounding: is about machine words; on numbers, masks of the page size are remainders, and the remainder is by subtraction (`Arithmetic.RemIsRemainder`).
- FlashDevice.Bootloader.WriteProgramPage: asks for pages of at least two bytes, as the ATmega has, since it writes words; the specification has one-byte pages too.
- PacketIo.PacketReader.ReadType: and `PacketIo.PacketReader.ReadItems` ask that the loop ends, that is, that the specified reader does not come to an array of hollow items with data left; the original does not come back from one.
- IntelHex.ChecksumCompletes: the 16-bit sum wraps, as in a release build.
- Shifts and ors of disjoint bytes, in base64, addresses and 16-bit values, are sums; those of the variable-length integers are modelled bit by bit.
- `concat_segments` of the Intel HEX module, whose padding does not advance the end address.
- `addr16.c`, which packs another format for a smaller range.
- The bootloader's own `send_on_idle`, whose buffer may be overwritten during a retransmission.
- Multi-part replies of `rpc.c` and the reflection tree of `rpc_node.c`, which would mostly add the plumbing of a tree.
- The waiting with timeouts in `UartBusDevice::call` and the listener threads: a wait is a step of a script.
- TCP and JSON server and client, file transfer, logging, command line, the Java sources, AVR registers and interrupt vectors.
