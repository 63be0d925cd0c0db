# BadVPN verification

A model of the parts of BadVPN that carry an algorithm or a protocol of their own, and proofs about it:

- fragmentation of frames into packets and their reassembly (`Fragment*.dfy`),
- the fair queue, the job list it runs on and the interface it speaks (`FairQueue*.dfy`, `PendingJobs.dfy`, `PacketPass.dfy`),
- BProto serialisation, over any message declaration (`BProto*.dfy`),
- packets over a stream (`PacketProto*.dfy`),
- flows, buffers and sinks (`DataProto*.dfy`),
- the frame decider: which peer is behind which Ethernet address, and who is in which group (`Mac*.dfy`, `Multicast.dfy`, `FrameDecider*.dfy`),
- relay assignment and connection setup between peers (`Relays*.dfy`, `Negotiation*.dfy`),
- the DHCP client (`Dhcp*.dfy`).

Each part has a specification as a state machine over values, with the theorems about all its inputs and all its runs, and,
in the files named `...Object.dfy` and in `BProtoParser.dfy` and `BProtoWriter.dfy`, classes whose methods change their
fields step by step as the program does. A method's contract equates the new state with that of the specification, so the
theorems hold of the classes. The transitions themselves are pinned by statements that do not go through them: what the
events of a run alone say (`FairQueueRuns`, `FragmentPacking`, `FrameDeciderJoins`, `DataProtoWishes`, `PacketPass`), or a second,
simpler machine that they are shown to follow (`FairQueueReference`, `RelaysRoles`, `DhcpProtocol`). `Bytes.dfy`, `Options.dfy`, `Sequences.dfy`, `Lists.dfy` and `Memory.dfy` hold what the parts share.

`dafny verify dfyconfig.toml` checks the whole project (Dafny 4.11).

What the program asks of its surroundings becomes parameters and events: time, random transaction ids, the outcome of
binding an address, what arrives and when sends complete. The program's assertions appear as preconditions that are proved
at every use. Trees are maps, linked lists are sequences, and pointers between flows, buffers, sinks and peers are identifiers.

What the proofs bring out:

- Cancelling a frame after a chunk of it has been written loses exactly the next frame (`client/FragmentProtoDisassembler.c:122-132`),
  because that frame gets the same id.
- A frame that is cut into more chunks than the assembler has slots never comes out. What is left of it can spoil a later frame
  with the same id, but only if packets are so large that 65536 frames pass before an entry times out
  (`client/FragmentProtoAssembler.c:179-193`).
- A frame is not looked at while a decision on group members is open, and the iterator of that decision is unlinked
  (`client/FrameDecider.c:374-376`). If the entry that it stands on then goes, the next destination is a peer that may have gone.
  The client never leaves a decision open.
- A peer that is in two groups with the same 23 bits gets each frame of either group twice (`client/FrameDecider.c:541-550`).
- Two branches of `client/DataProto.c` (475-479 and 529-533), which detach a buffer that is not busy, can never be taken.

## Model

| member | source | states |
|---|---|---|
| `FragmentRoundTrip.RoundTrip` | client/FragmentProtoDisassembler.c:39-162 | end to end: whatever frames a fresh disassembler is given, in whatever order frames, packet requests and latency timeouts come, a fresh assembler fed with its packets emits, of the frames whose chunks are all in the packets, exactly those that were cut into at most as many chunks as it has slots, in order; the frames in question are all the frames sent once nothing is left in the disassembler; ids are to be apart, as said under Left out |
| `FragmentReuse.RoundTripExactly` | client/FragmentProtoAssembler.c:154-346 | all or not all, for every run that ends with nothing left in the disassembler: the frames emitted are the frames sent if and only if each was cut into at most as many chunks as the assembler has slots; and never more frames come out than went in |
| `FragmentRoundTrip.RoundTripWithSlots` | protocol/fragmentproto.h:83-98 | with one slot per byte, or as many slots as the client reserves for chunks that may fill a packet, everything comes out, past any number of wrapped ids |
| `FragmentStream.AssemblerDecodes` | client/FragmentProtoAssembler.c:154-346 | the receiving half: of the frames whose chunks packets hold in order, the assembler emits exactly those cut into at most as many chunks as it has slots; what is left of the others does no harm as long as ids are apart |
| `FragmentDense.DenseStreamSpoils` | client/FragmentProtoAssembler.c:179-193 | the condition that keeps ids apart is sharp: whenever a packet can hold enough chunks for an id to come round before an entry times out, there is a stream of which the assembler emits one frame fewer than it has slots for |
| `FragmentReuse.AtMostOnce` | client/FragmentProtoAssembler.c:195-283 | from any state of the pool, the chunks of a frame in order make at most one frame come out |
| `FragmentStream.HeadlessChunk` | client/FragmentProtoAssembler.c:256-283 | an entry without the beginning of its frame is never complete, and gets no beginning from a chunk that is not one |
| `FragmentRoundTrip.FillFollows` | client/FragmentProtoDisassembler.c:39-102 | the sending half: the chunks written to a packet continue the frame where it was, in order, without gap or overlap, marked last exactly at its end; and no more of them than the slots that are shown to suffice |
| `FragmentPacking.EveryPacket` | client/FragmentProtoDisassembler.c:39-162 | in every run the chunks of each finished packet are as long as the frame, the packet and the configured limit allow and no longer; a packet is finished only by the latency timer, by being full, or at once if there is no latency; one that is begun and not finished has room and its timer runs |
| `FragmentPacking.FullMeans` | client/FragmentProtoDisassembler.c:39-102 | what such a packet carries, as the assembler reads it: the chunks that it was packed with, each as long as allowed |
| `FragmentPacking.TimerSendsAll` | client/FragmentProtoDisassembler.c:82-162 | with a latency, frames that are given one after the other while their chunks leave room are taken at once without finishing a packet, and the packet that the timer finishes holds what it held before and the chunks of all of them, in order |
| `FragmentPacking.OneAnswerPerFrame` | client/FragmentProtoDisassembler.c:82-132 | in every run each frame is answered once, when it has been written in full or cancelled, and not before |
| `FragmentStream.RestartChunk` | client/FragmentProtoAssembler.c:197-226 | a chunk that begins a frame anew under an id whose entry already has a beginning is rejected together with the entry, and the new frame has no beginning from then on |
| `FragmentCancel.CancelExactly` | client/FragmentProtoDisassembler.c:122-132 | cancelling, exactly: after any run, a cancel and any further run in which frames are sent and the disassembler is drained, everything that was sent comes out, of an assembler with as many slots as any frame takes, if and only if no chunk of the cancelled frame had been written; otherwise exactly the next frame is lost |
| `FragmentCancel.SlotsAreEnough` | protocol/fragmentproto.h:83-98 | one slot per byte, or what the client reserves when chunks may fill packets, are as many slots as any frame takes, cancelled or not |
| `FragmentCancel.LateCancel` | client/FragmentProtoDisassembler.c:122-132 | a run in which a frame is cancelled after its first chunk, the next one is sent in full, and nothing comes out |
| `FragmentProto.ReadChunksEncoded` | client/FragmentProtoAssembler.c:290-324 | reading a packet gives back the chunks that were encoded into it |
| `FragmentProto.ReadExactly` | client/FragmentProtoAssembler.c:290-320 | a chunk is read exactly off the packets that begin with its encoding; every other packet is abandoned |
| `FragmentTiling.EmittedFramesAreTiled` | client/FragmentProtoAssembler.c:195-283 | for every stream of lost, repeated, reordered or malformed chunks there are positions, one after the other, at which the frames are emitted, one each, and nothing is emitted elsewhere; at each of them the in-bounds chunks received under the frame's id since its entry was allocated, up to that one, cover each of its bytes exactly once, and each byte is that of its covering chunk |
| `FragmentTiling.PacketsEmitTiledFrames` | client/FragmentProtoAssembler.c:285-346 | the same, position by position, for arbitrary packets, through the reading of chunks and the resumption after each emitted frame |
| `FragmentDelivery.TiledFrameIsEmitted` | client/FragmentProtoAssembler.c:154-283 | the converse, from any state of the pool: chunks that tile a frame, in any order and mixed with anything, make it come out at the last of them and not before, if there are no more of them than slots, fewer other ids turn up meanwhile than there are entries, and no more packets than entries end between one of them and the next |
| `FragmentTiling.ProcessChunkInv` | client/FragmentProtoAssembler.c:154-283 | what every chunk keeps: spans within bounds and disjoint, their sum below the length, fewer than the limit, distinct ids, entries plus free buffers equal to the pool |
| `FragmentTiling.CompleteTiles` | client/FragmentProtoAssembler.c:256-278 | disjoint spans whose lengths add up to the frame length cover it exactly |
| `FragmentTiling.PacketIsItsChunks` | client/FragmentProtoAssembler.c:285-346 | stopping at each completed frame and resuming later is the same as going through all chunks at once |
| `FragmentAssembler.ReduceTimesKeepsAges` | client/FragmentProtoAssembler.c:117-152 | at the maximal packet time, exactly the timed out entries go, every surviving one keeps its age and its contents, none gets ahead of the clock, and the clock can advance again |
| `FragmentTiling.TickInv` | client/FragmentProtoAssembler.c:326-339 | the clock never passes its maximum or falls behind an entry, and the pool stays as it should be |
| `FragmentDisassemblerObject.Disassembler.constructor` | client/FragmentProtoDisassembler.c:164-199 | a fresh disassembler |
| `FragmentDisassemblerObject.Disassembler.WriteChunks` | client/FragmentProtoDisassembler.c:39-102 | the loop that writes chunks into the caller's buffer yields the packet and the state of the specification, which the round trip and the theorems on packing are about |
| `FragmentDisassemblerObject.Disassembler.InputSend` | client/FragmentProtoDisassembler.c:104-120 | a frame is taken, and written if a packet is being filled |
| `FragmentDisassemblerObject.Disassembler.InputRequestCancel` | client/FragmentProtoDisassembler.c:122-132 | the frame is dropped without advancing the id |
| `FragmentDisassemblerObject.Disassembler.OutputRecv` | client/FragmentProtoDisassembler.c:134-149 | a packet is begun, and filled if a frame waits |
| `FragmentDisassemblerObject.Disassembler.TimerHandler` | client/FragmentProtoDisassembler.c:151-162 | the packet being filled is finished |
| `FragmentAssemblerObject.Assembler.constructor` | client/FragmentProtoAssembler.c:370-445 | all entries free |
| `FragmentAssemblerObject.Assembler.FreeFrame` | client/FragmentProtoAssembler.c:46-55 | an entry leaves the used list and the tree and goes to the end of the free list; free and used entries partition the pool and the tree indexes the used ones |
| `FragmentAssemblerObject.Assembler.FreeOldestFrame` | client/FragmentProtoAssembler.c:57-68 | the first used entry is freed |
| `FragmentAssemblerObject.Assembler.AllocateNewFrame` | client/FragmentProtoAssembler.c:70-103 | an entry is found for an id, if need be by evicting the oldest |
| `FragmentAssemblerObject.Assembler.FindOverlap` | client/FragmentProtoAssembler.c:197-204 | the loop finds an overlapping chunk if and only if there is one |
| `FragmentAssemblerObject.Assembler.ObtainFrame` | client/FragmentProtoAssembler.c:179-193 | the entry that a chunk goes to, a timed out one being replaced |
| `FragmentAssemblerObject.Assembler.DeliverChunk` | client/FragmentProtoAssembler.c:195-283 | the chunk is rejected with its entry, kept, or completes the frame, in exactly the cases of the specification |
| `FragmentAssemblerObject.Assembler.ProcessChunk` | client/FragmentProtoAssembler.c:154-283 | one chunk changes the entries as the specification that is proved to tile says, and keeps the invariant |
| `FragmentAssemblerObject.Assembler.DropTimedOut` | client/FragmentProtoAssembler.c:117-134 | the loop frees exactly the timed out entries and finds the least time of the others |
| `FragmentAssemblerObject.Assembler.SubtractTimes` | client/FragmentProtoAssembler.c:142-151 | the loop shifts all times by the same amount |
| `FragmentAssemblerObject.Assembler.ReduceTimes` | client/FragmentProtoAssembler.c:117-152 | both loops together are the reduction that keeps ages |
| `FragmentAssemblerObject.Assembler.ProcessInput` | client/FragmentProtoAssembler.c:285-346 | works through the packet up to the next completed frame, then advances the clock at its end |
| `FragmentAssemblerObject.Feed` | client/FragmentProtoAssembler.c:285-368 | a client that feeds packets and takes every frame gets what the specification emits |
| `FairQueueRuns.PairwiseFairness` | flow/PacketPassFairQueue.c:118-217 | after any run, two flows within MTU plus packet weight of each other that stay backlogged are sent, of the bytes that they were given to send, weighted amounts that differ by at most twice that, however long it goes on |
| `FairQueueRuns.RunGap` | flow/PacketPassFairQueue.c:118-217 | while two flows stay backlogged their time difference never exceeds the larger of the initial one and MTU plus weight, and what each is sent, counted by the lengths in its Send events, differs by the change of that difference |
| `FairQueueRuns.LengthsAsGiven` | flow/PacketPassFairQueue.c:118-180 | in every run, the packet on its way has the length with which its flow last sent one, and so has each that waits |
| `FairQueue.IncrementExact` | flow/PacketPassFairQueue.c:79-116 | when a time would overflow, the wrapping subtraction and addition give the true result, in (0, amount]; queued flows lose the same amount and none is cut off; only flows that are not queued are cut off at 0 |
| `FairQueue.MovesBackFully` | flow/PacketPassFairQueue.c:86-111 | when a time would overflow, times move back as far as they can: the first of the queued flows is then at 0, and with none queued the finished flow has just the cost of its packet |
| `FairQueueRuns.NoStarvation` | flow/PacketPassFairQueue.c:52-217 | after any run and while no flow is added, before a queued packet is sent the bytes that all other flows together were given and are sent weigh no more than what each of them was behind at the beginning plus MTU and packet weight, renormalised or not |
| `FairQueueRuns.CompletionsCost` | flow/PacketPassFairQueue.c:79-116 | so only finitely many packets are sent before it, each of them being some of that service |
| `FairQueueRuns.WorkConserving` | flow/PacketPassFairQueue.c:118-180 | in every reachable state in which a packet waits, one is on its way or a decision is pending, and that decision starts one |
| `FairQueueRuns.StepInv` | flow/PacketPassFairQueue.c:139-351 | every event keeps times within bounds, the sent flow first, at most one of a packet on its way and a pending decision |
| `FairQueueReference.RefinesReference` | flow/PacketPassFairQueue.c:79-217 | the queue with 64-bit times that are renormalised takes, for every event, the step of a queue with unbounded times that raises a flow to the least time of those backlogged: same flow chosen, same packets queued and sent, with their lengths |
| `FairQueueReference.SendsAsReference` | flow/PacketPassFairQueue.c:52-351 | every run sends the packets that a run of the unbounded queue sends, in the same order, of the same flows and lengths |
| `FairQueueReference.CurrentTimeIsLeast` | flow/PacketPassFairQueue.c:52-77 | the time that a newly queued flow is raised to is the least of the flows that are being sent, queued, or have just sent, and 0 if there is none |
| `FairQueueSystem.RequeueBeforeReschedule` | flow/PacketPassFairQueue.c:182-217 | whatever users, receiver and job list do: when the scheduling job is about to run, the flow that sent last has had its done handler called and has nothing on the job list; a Send from that handler has reached the queue |
| `FairQueueSystem.QueueRunsFromInitial` | flow/PacketPassFairQueue.c:139-217 | in every run of the whole system the queue goes through a run of the queue by itself, in which the packets are those that users sent with their lengths, so that fairness holds there |
| `FairQueueSystem.OutputRuns` | flow/PacketPassInterface.h:149-227 | and its output goes through a run of the interface by itself: a packet is sent there only when it is idle, and a cancellation is passed on as over any interface |
| `FairQueueSystem.StepInv` | flow/PacketPassFairQueue.c:139-217 | every job and every user action keeps jobs, interface states and queue in agreement |
| `FairQueueSystem.AssertionsHold` | flow/PacketPassInterface.c:32-68 | no assertion of the job handlers and of the queue fails, whatever job is on top |
| `FairQueueObject.FairQueue.constructor` | flow/PacketPassFairQueue.c:219-266 | an empty queue |
| `FairQueueObject.FairQueue.TreeFirst` | flow/PacketPassFairQueue.c:61-67 | the least time, ties broken by the flow, as the tree yields it |
| `FairQueueObject.FairQueue.GetCurrentTime` | flow/PacketPassFairQueue.c:52-77 | the time that a newly queued flow is raised to |
| `FairQueueObject.FairQueue.SubtractFromAll` | flow/PacketPassFairQueue.c:99-111 | the loop over all flows shifts each time as the specification says, cutting off at 0 where it does |
| `FairQueueObject.FairQueue.IncrementSentFlow` | flow/PacketPassFairQueue.c:79-116 | the finished flow's time after the packet, renormalising all when it would overflow |
| `FairQueueObject.FairQueue.Schedule` | flow/PacketPassFairQueue.c:118-137 | the first queued flow is sent, with the length that it was queued with |
| `FairQueueObject.FairQueue.InputSend` | flow/PacketPassFairQueue.c:153-180 | a packet is queued, and sent at once if nothing is going on; the invariant is kept |
| `FairQueueObject.FairQueue.OutputDone` | flow/PacketPassFairQueue.c:182-217 | the packet is accounted for, its flow remembered, and a decision scheduled |
| `FairQueueObject.FairQueue.ScheduleJobHandler` | flow/PacketPassFairQueue.c:139-151 | the last flow is forgotten and the next packet sent |
| `FairQueueObject.FairQueue.FlowInit` | flow/PacketPassFairQueue.c:296-321 | a flow is added with time 0 |
| `FairQueueObject.FairQueue.FlowFree` | flow/PacketPassFairQueue.c:323-351 | a flow is taken out of the list, the tree and the pointers to it |
| `PendingJobs.LastInFirstOut` | base/BPending.c:66-88 | of two pending jobs the one set later has run before the other runs, unless it is withdrawn, whatever is set, withdrawn and run in between |
| `PendingJobs.NeverExecuted` | base/BPending.c:137-171 | a job that is not pending and never set does not run |
| `PendingJobs.PendingGroup.SetJob` | base/BPending.c:137-154 | a job goes on top, once |
| `PendingJobs.PendingGroup.UnsetJob` | base/BPending.c:156-171 | a job is withdrawn, wherever it is |
| `PendingJobs.PendingGroup.ExecuteJob` | base/BPending.c:66-88 | the top job is taken off |
| `PacketPass.OneDonePerSend` | flow/PacketPassInterface.h:149-227 | in every run of sends, cancellations and completions, done is called exactly once per send, and never without one |
| `PacketPass.StatusExactly` | flow/PacketPassInterface.h:149-227 | what the interface is doing after every run, told from what has happened since the last send: with whom the packet is, and that a cancellation is to be passed on if and only if it was asked for and not yet passed on while the receiver has the packet |
| `PacketPass.CancelledBeforeStart` | flow/PacketPassInterface.h:200-227 | a packet cancelled before its operation has started is never passed on: whatever happens until the next send, neither the operation nor the cancel handler is called, and done is called once |
| `PacketPass.PacketPassInterface.SenderSend` | flow/PacketPassInterface.h:181-198 | the operation job is set |
| `PacketPass.PacketPassInterface.SenderRequestCancel` | flow/PacketPassInterface.h:200-227 | the pending operation is withdrawn and done is set, or the cancel job is set once |
| `PacketPass.PacketPassInterface.ProviderDone` | flow/PacketPassInterface.h:149-162 | the cancel job is withdrawn and done is set |
| `PacketPass.PacketPassInterface.JobOperation` | flow/PacketPassInterface.c:32-43 | the packet is passed on |
| `PacketPass.PacketPassInterface.JobDone` | flow/PacketPassInterface.c:57-68 | the interface is idle again |
| `BProtoMessage.RoundTrip` | bproto_generator/bproto_functions.php:301-610 | for every valid declaration and every sequence of Adds: the parser accepts the written bytes if and only if the cardinalities were met, and each field then has exactly the values added to it, in order |
| `BProtoMessage.ParseExact` | bproto_generator/bproto_functions.php:457-575 | parsing and encoding are inverse in both directions: the entries found are the only ones that spell the buffer |
| `BProtoMessage.AcceptedIsWritten` | bproto_generator/bproto_functions.php:421-610 | the parser accepts nothing but what some writer produced while meeting the cardinalities |
| `BProto.ReadEntryExact` | bproto_generator/bproto_functions.php:457-530 | an entry is read if and only if the buffer begins with its encoding |
| `BProtoCursor.CursorMoves` | bproto_generator/bproto_functions.php:656-757 | a cursor that is not at its end has a whole entry in front of it inside its span, and moves to the next entry boundary; so no length assertion of a Get can fail |
| `BProtoCursor.CursorDone` | bproto_generator/bproto_functions.php:612-632 | a cursor is at its end if and only if no value of the field is left |
| `BProtoCursor.SeenSame` | bproto_generator/bproto_functions.php:483-503 | an entry of the field begins its span or extends it from its first entry to the end of this one |
| `BProtoParser.CheckEntry` | bproto_generator/bproto_functions.php:457-575 | the generated switches accept an entry exactly if it is well-formed and belongs to a declared field, and find that field |
| `BProtoParser.CheckCounts` | bproto_generator/bproto_functions.php:580-605 | the checks after the loop hold if and only if every cardinality is met |
| `BProtoParser.ReadOut` | bproto_generator/bproto_functions.php:656-733 | reads an entry in place; the assertions are the generated ones |
| `BProtoParser.Parser.Scan` | bproto_generator/bproto_functions.php:452-575 | the loop over the message succeeds exactly on parsable ones, and records for each field where its entries begin and end and how many there are |
| `BProtoParser.Parser.Init` | bproto_generator/bproto_functions.php:421-610 | accepts exactly the parsable messages that meet the cardinalities; then every field is unread |
| `BProtoParser.Parser.GetNext` | bproto_generator/bproto_functions.php:656-756 | one round of the loop in Get |
| `BProtoParser.Parser.Get` | bproto_generator/bproto_functions.php:648-759 | returns the next value of the field and leaves the later ones, or fails when there is none; other fields are not affected |
| `BProtoParser.Parser.Reset` | bproto_generator/bproto_functions.php:761-764 | all values of the field are available again |
| `BProtoParser.Parser.Forward` | bproto_generator/bproto_functions.php:766-769 | no value of the field is left |
| `BProtoParser.Parser.GotEverything` | bproto_generator/bproto_functions.php:612-632 | holds if and only if every field has been fully read or forwarded |
| `BProtoParser.Parser.GetAll` | bproto_generator/bproto_functions.php:648-759 | repeated Gets return all remaining values in order and then fail |
| `BProtoWriter.Writer.constructor` | bproto_generator/bproto_functions.php:301-318 | nothing written |
| `BProtoWriter.Writer.AddUInt` | bproto_generator/bproto_functions.php:348-372 | the output is the encoding of what was added so far and this value |
| `BProtoWriter.Writer.AddData` | bproto_generator/bproto_functions.php:373-384 | the header is written and room reserved, of which the entry consists whatever is put there |
| `BProtoWriter.Writer.AddConstData` | bproto_generator/bproto_functions.php:385-396 | the same with the declared size |
| `BProtoWriter.Writer.Fill` | bproto_generator/bproto_functions.php:373-412 | filling the reserved room makes the entry carry that data |
| `BProtoWriter.Writer.Finish` | bproto_generator/bproto_functions.php:320-337 | the finished message is one that the parser accepts |
| `BProtoWriter.SendAndReceive` | bproto_generator/bproto_functions.php:301-770 | written, accepted, and read back field by field until nothing is left |
| `PacketProto.RoundTrip` | flow/PacketProtoDecoder.c:46-128 | packets within the MTU, encoded one after the other and delivered in any non-empty pieces, come out in order; all of them once everything is delivered and the decoder waits |
| `PacketProto.EveryRun` | flow/PacketProtoDecoder.c:46-182 | on any stream, with resets and errors: a positive number of bytes inside the buffer is asked for, and what came in since the last reset or error is what went out followed by what is pending |
| `PacketProto.PacketsArePrefix` | flow/PacketProtoDecoder.c:46-83 | a stream can be cut into packets in one way only |
| `PacketProto.ErrorExactly` | flow/PacketProtoDecoder.c:64-96 | for every way of delivering a stream until the decoder waits for more, an error has been reported if and only if the stream consists of whole packets within the MTU followed by a length above it |
| `PacketProto.BytesInPlace` | flow/PacketProtoDecoder.c:86-182 | bytes go to consecutive places of the buffer, and what is pending is moved to the front only when the buffer is full and nothing can be cut off; a reset moves nothing |
| `PacketProto.OneAtATime` | flow/PacketProtoDecoder.c:72-128 | in every run one packet is sent at a time and none is forgotten before it is done, whatever is reset or wrong |
| `PacketProtoObject.Decoder.constructor` | flow/PacketProtoDecoder.c:130-166 | an empty buffer of one packet's size |
| `PacketProtoObject.Decoder.ProcessData` | flow/PacketProtoDecoder.c:46-105 | the buffer indices and the moving of data realise the specification; while a packet is being sent the buffer is unchanged |
| `PacketProtoObject.Decoder.Wrap` | flow/PacketProtoDecoder.c:90-94 | what is pending is moved to the front unchanged |
| `PacketProtoObject.Decoder.Request` | flow/PacketProtoDecoder.c:97-98 | the request is for a positive number of bytes that end where the buffer does |
| `PacketProtoObject.Decoder.InputDone` | flow/PacketProtoDecoder.c:107-119 | data that arrived is appended to what is pending, and processed |
| `PacketProtoObject.Decoder.OutputDone` | flow/PacketProtoDecoder.c:121-128 | processing goes on after a packet |
| `PacketProtoObject.Decoder.Reset` | flow/PacketProtoDecoder.c:176-182 | what is pending is forgotten; neither a packet being sent nor the place for data being received changes |
| `PacketProtoObject.Encoder.InputDone` | flow/PacketProtoEncoder.c:51-64 | the caller's buffer holds the encoding of the payload |
| `DataProto.BufferOwnership` | client/DataProto.c:127-225 | in every reachable state a buffer's sink is alive and is its flow's desired sink, or the buffer is the one being detached from it, which is busy; a buffer without a flow is being detached |
| `DataProto.FreedExactlyOnce` | client/DataProto.c:458-484 | every buffer ever allocated is alive or has been freed once; once all flows and sinks are gone all have been freed |
| `DataProto.DetachingIsSingle` | client/DataProto.c:180-198 | no buffer is being detached from two sinks |
| `DataProto.SinkFreeLeavesNoBuffer` | client/DataProto.c:297-309 | freeing a sink leaves no buffer that refers to it |
| `DataProto.ReattachedWhenDone` | client/DataProto.c:200-225 | a buffer whose flow wants another sink is in that sink as soon as its packet is done |
| `DataProtoWishes.DesiredIsLastWish` | client/DataProto.c:516-566 | after every run, a flow wants the sink that it was last told to attach to, and none if it was told to detach since |
| `DataProtoWishes.BufferIsWhereTold` | client/DataProto.c:127-225 | after every run, a flow's buffer is in the sink that is sending its packet, if there is one; otherwise where the flow was last told to go, or nowhere |
| `DataProtoWishes.BufferLivesExactly` | client/DataProto.c:458-484 | after every run, a buffer is alive if and only if its flow is or its packet is on its way, and has been freed otherwise |
| `DataProto.UnwantedIsBusy` | client/DataProto.c:458-543 | a buffer still in a sink that its flow does not want is busy, so the branches that detach it at once are never taken |
| `DataProto.StepInv` | client/DataProto.c:127-566 | every interleaving of init, attach, detach, free, start and completion of sends and sink free keeps ownership |
| `DataProtoObject.Objects.SinkInit` | client/DataProto.c:227-295 | a sink without buffers |
| `DataProtoObject.Objects.SinkFree` | client/DataProto.c:297-309 | the detaching buffer is released first; the invariant is kept |
| `DataProtoObject.Objects.FlowInit` | client/DataProto.c:396-456 | a flow with a buffer of its own |
| `DataProtoObject.Objects.FlowFree` | client/DataProto.c:458-484 | the buffer is freed or left to be freed when detached |
| `DataProtoObject.Objects.FlowAttach` | client/DataProto.c:516-543 | the wish is recorded, and the buffer attached now or when it is free to go, as the events are proved to say |
| `DataProtoObject.Objects.FlowDetach` | client/DataProto.c:545-566 | the buffer is detached now or when its packet is done |
| `DataProtoObject.Objects.QueueDone` | client/DataProto.c:218-225 | the busy handler finishes the detaching |
| `MacTable.LeastRecentlyUsed` | client/FrameDecider.c:69-118 | in every run an address is held only by the peer last seen sending from it and still there; it is forgotten only if seen elsewhere, if the peer goes, or after as many other addresses of that peer as it may have |
| `MacTable.StepInv` | client/FrameDecider.c:69-118 | lists stay bounded and without duplicates, and no address is at two peers |
| `MacEntries.TreeIsTable` | client/FrameDecider.c:498-504 | the tree finds a peer for an address if and only if the address is in that peer's used list |
| `MacEntries.ViewInv` | client/FrameDecider.c:69-118 | the used lists of all peers are disjoint, bounded and without duplicates |
| `MacEntriesObject.Macs.constructor` | client/FrameDecider.c:323-351 | no peers |
| `MacEntriesObject.Macs.AddMacToPeer` | client/FrameDecider.c:69-118 | moving entries between lists and tree does to the table what claiming an address does to recency lists; free and used entries share out the peer's array |
| `MacEntriesObject.Macs.Lookup` | client/FrameDecider.c:498-504 | the peer found is the one that holds the address |
| `MacEntriesObject.Macs.PeerInit` | client/FrameDecider.c:580-593 | all entries of a new peer are free |
| `MacEntriesObject.Macs.PeerFree` | client/FrameDecider.c:650-656 | the loop takes exactly the peer's addresses out of the tree |
| `Multicast.IndexAgrees` | client/FrameDecider.c:120-197 | after any joins and leaves: for each signature with a member there is one list of exactly the entries with it, and exactly one of them is master, the one in the tree |
| `Multicast.AddInv` | client/FrameDecider.c:133-164 | adding an entry keeps that |
| `Multicast.RemoveInv` | client/FrameDecider.c:166-197 | removing one keeps it, a master being replaced by a neighbour |
| `FrameDecider.DecisionExactly` | client/FrameDecider.c:361-510 | a frame goes to nobody, to all peers, once per membership with the address's signature and to nobody else, or to the peer that holds the address |
| `FrameDeciderRuns.DecidedExactly` | client/FrameDecider.c:366-379 | in every run, a new frame is looked at if and only if no group decision is open, that is, none was taken or NextDestination has answered with nobody since; otherwise who is left of the old decision stays, and no membership time changes |
| `FrameDeciderCases.UndrainedLosesBroadcast` | client/FrameDecider.c:374-376 | a run in which a group decision was handed out but its end not asked for; a broadcast frame then goes to nobody, although there are two peers |
| `FrameDeciderRuns.StraysExactly` | structure/LinkedList3.h:230-331 | in every run, a group decision goes astray if and only if a frame was looked at while it was open and then, before another destination was asked for, the entry next in line left; it stays so until a call finds its end; when it is not astray, every peer it has yet to hand out is there |
| `FrameDeciderCases.GoneIsHandedOut` | client/FrameDecider.c:374-376 | a run in which a peer that has gone is the next destination |
| `FrameDeciderRuns.StepQuiet` | client/FrameDecider.c:166-197 | no event other than looking at a frame or asking for a destination moves an unlinked iterator: it keeps its entry or, if that goes, stands on what was released |
| `FrameDeciderRuns.TwiceExactly` | client/FrameDecider.c:481-495 | a group frame is handed out to nobody twice if and only if no peer has memberships in two groups that have the signature of the frame's address |
| `FrameDeciderCases.HandedOutTwice` | client/FrameDecider.c:541-550 | a run in which one peer is handed out twice for one frame |
| `FrameDecider.NextHandsOut` | client/FrameDecider.c:512-556 | asking for destinations hands out the decision in order, and then ends it |
| `FrameDeciderPlaces.StepPasses` | client/FrameDecider.c:558-669 | whatever happens while destinations are handed out, exactly those that have gone are passed over, in order; a new peer is flooded too unless the end has been reached, and a new member comes in somewhere after the next |
| `FrameDeciderPlaces.RunPlace` | client/FrameDecider.c:512-556 | in every run, a decision that is not astray goes through the rest of the list of peers or of the list of a signature, from its place to the end |
| `FrameDecider.UnicastGoesToLastSeen` | client/FrameDecider.c:498-504 | in every run, a frame to a known address goes to the peer last seen sending from it |
| `FrameDecider.QueryLowersExactly` | client/FrameDecider.c:281-314 | a group-specific query lowers the ends of exactly that group's memberships to the last member query time |
| `FrameDecider.GroupMacSig` | client/FrameDecider.c:120-131 | the signature of a group and that of its Ethernet address, as section 6.4 of RFC 1112 defines it, are the same |
| `FrameDecider.JoinInv` | client/FrameDecider.c:199-252 | a join adds one membership and ends at most one, the first of its peer's list, which is shown to be the least recently reported |
| `FrameDeciderJoins.JoinEndsLeastRecent` | client/FrameDecider.c:199-252 | in every run, a join ends a membership if and only if its peer has as many as it may have and the group is not among them, and then it is the one of that peer whose last report is the earliest |
| `FrameDeciderJoins.EndsExactly` | client/FrameDecider.c:199-314 | in every run, each membership is due to end at its last report plus the interval, lowered by the queries for its group since |
| `FrameDecider.FreePeerInv` | client/FrameDecider.c:626-669 | when a peer goes its memberships go, the others' stay, and no decision refers to it unless it is astray |
| `FrameDecider.StepInv` | client/FrameDecider.c:199-669 | every event keeps memberships, index and table in agreement, and a decision that is not astray free of peers that have gone |
| `FrameDeciderObject.Decider.AddToMulticast` | client/FrameDecider.c:133-164 | the entry is linked after its signature's master or becomes the master |
| `FrameDeciderObject.Decider.RemoveFromMulticast` | client/FrameDecider.c:166-197 | the entry is unlinked, a master handing its place to a neighbour; an iterator on the entry moves on exactly if it is linked |
| `FrameDeciderObject.Decider.AddGroupToPeer` | client/FrameDecider.c:199-252 | a join: a group that is reported again becomes the most recent, and a new one ends the peer's least recently reported membership if it has no room |
| `FrameDeciderObject.Decider.RemoveGroupEntry` | client/FrameDecider.c:254-279 | a membership ends |
| `FrameDeciderObject.Decider.LowerGroupTimersToLmqt` | client/FrameDecider.c:281-314 | the loop over the signature's list lowers the group's ends |
| `FrameDeciderObject.Decider.AnalyzeAndDecide` | client/FrameDecider.c:361-510 | the decision of the specification, or the unlinking of the iterator of an open one; the invariant is kept |
| `FrameDeciderObject.Decider.NextDestination` | client/FrameDecider.c:512-556 | the next peer of the decision |
| `FrameDeciderObject.Decider.Forward` | client/client.c:2666-2682 | the client's loop gets exactly the destinations of the frame, and leaves no decision open |
| `FrameDeciderObject.Decider.PeerInit` | client/FrameDecider.c:558-624 | a peer without addresses and groups, last in the list |
| `FrameDeciderObject.Decider.PeerSeen` | client/FrameDecider.c:687-688 | the source address becomes the peer's |
| `FrameDeciderObject.Decider.PeerFree` | client/FrameDecider.c:626-669 | the peer is taken out of everything |
| `Relays.AllocatorInvariant` | client/client.c:1729-1898 | after every handler of every run: link, relaying and waiting exclude each other, relays have links, the lists mirror the flags, users are those relaying, and nobody waits while there is a relay |
| `Relays.AssignExactly` | client/client.c:2684-2709 | assigning gives every waiting peer the first relay and changes nothing for the others |
| `Relays.NeedRelayOutcome` | client/client.c:1847-1868 | a peer in need gets the first relay, and waits only if there is none |
| `Relays.DisableMovesUsers` | client/client.c:1771-1800 | the users of a relay that goes move to the first of the others, or wait if there is none |
| `RelaysRoles.RolesExactly` | client/client.c:1729-1898 | after every run each peer has exactly the role that the events give it: apart, a link of its own, a relay, through the peer that has been a relay for longest, or waiting; and the relays are listed in the order in which they became relays |
| `Relays.FreedLinkIsUnused` | client/client.c:1695-1710 | when a link is freed nobody relays through its peer |
| `RelaysObject.Peers.AssignRelays` | client/client.c:2684-2709 | the loop over the waiting list realises the assignment |
| `RelaysObject.Peers.CleanupConnections` | client/client.c:1729-1748 | the peer ends up unconnected, whatever it had, and the invariant is kept |
| `RelaysObject.Peers.EnableRelayProvider` | client/client.c:1750-1769 | the peer becomes a relay, and whoever waits is assigned |
| `RelaysObject.Peers.DisableRelayProvider` | client/client.c:1771-1800 | the loop makes its users wait, the relay goes, and whoever waits is assigned |
| `RelaysObject.Peers.NeedRelay` | client/client.c:1847-1868 | whatever the peer had is given up, and it waits or is assigned |
| `RelaysObject.Peers.DataProtoHandler` | client/client.c:2626-2645 | a link that goes up or down makes the peer a relay or ends that |
| `RelaysObject.Peers.FreshLink` | client/client.c:2348-2355 | a fresh link replaces whatever the peer had |
| `RelaysObject.Peers.RemovePeer` | client/client.c:1509-1523 | a peer goes without leaving a trace in the lists |
| `Negotiation.NegotiationEnds` | client/client.c:2001-2122 | at most 2 * (nM + nS) + 2 messages are sent however they are delivered, at most one is on its way, and it is over exactly when none is |
| `Negotiation.OutcomeExactly` | client/client.c:2293-2340 | the slave connects to the master's first address that works, else the master to the slave's first, else both have asked for a relay; each if and only if |
| `Negotiation.BindResult` | client/client.c:2301-2340 | binding ends with an offer of the next bindable address, or with giving up |
| `NegotiationObject.Setup.Bind` | client/client.c:2301-2340 | the loop over bind addresses |
| `NegotiationObject.Setup.StartBinding` | client/client.c:2293-2299 | binding starts from the first address |
| `NegotiationObject.Setup.MsgYouConnect` | client/client.c:2001-2085 | the loop connects to the first usable external address, and refuses if and only if there is none |
| `NegotiationObject.Setup.MsgCannotConnect` | client/client.c:2087-2104 | the next address is tried, if this side is binding |
| `NegotiationObject.Setup.MsgCannotBind` | client/client.c:2106-2122 | the slave starts binding, the master asks for a relay |
| `Dhcp.RunSafety` | dhcpclient/BDHCPClientCore.c:406-678 | in every run: running timers are determined by the state; up and down are reported in turn; up is exactly finished or renewing; while up, the address was offered and acknowledged by one server in one transaction; the time since the last acknowledgement is within the lease plus twice the lateness of timers |
| `Dhcp.NeverUpBeyondLease` | dhcpclient/BDHCPClientCore.c:44-57 | with timers on time, the client is up at most 1000 * lease ms after its last accepted acknowledgement |
| `Dhcp.FiresInPhase` | dhcpclient/BDHCPClientCore.c:591-678 | no assertion about the state fails when a timer fires |
| `Dhcp.ReportExactly` | dhcpclient/BDHCPClientCore.c:406-678 | the user is told of exactly the changes between up and down |
| `DhcpProtocol.FollowsProtocol` | dhcpclient/BDHCPClientCore.c:406-678 | in every run the client is at the stage of the exchange that replies and time have brought about: an offer, a confirmation or a refusal is acted on exactly at the stages that wait for it and from the server in question; timers are due when the stage says; exactly the stage's messages have been sent; what is held is what the server granted |
| `DhcpProtocol.RepliesExactly` | dhcpclient/BDHCPClientCore.c:406-563 | in every run, of the next reply and the offer last taken: an offer is taken, the client comes up, a renewal is accepted and a refusal is obeyed, each if and only if the client waits for it and the reply is what it waits for, from the server in question; nothing else that arrives changes anything |
| `DhcpProtocol.UpAndDownExactly` | dhcpclient/BDHCPClientCore.c:406-563 | in every run the client comes up if and only if it is asking for an offer and the server confirms it, and goes down if and only if the server refuses or the lease runs out while it is being extended |
| `DhcpProtocol.AnsweredComesUp` | dhcpclient/BDHCPClientCore.c:477-531 | a server that offers in the transaction of a search and confirms before the client asks again brings it up, with the address offered and the parameters confirmed |
| `DhcpOptions.ScanMessage` | dhcpclient/BDHCPClientCore.c:277-392 | options, padding, an end and padding are read as the options they were made of |
| `DhcpOptions.ScannedIsMessage` | dhcpclient/BDHCPClientCore.c:277-392 | nothing but such messages is read |
| `DhcpOptions.InterpretExactly` | dhcpclient/BDHCPClientCore.c:316-387 | the options are used if and only if none has a wrong length; then message type, server, lease, mask and router are those of the last option of their code, and the name servers the first sixteen of the last name-server option |
| `DhcpOptionValues.SaidIsRead` | dhcpclient/BDHCPClientCore.c:277-392 | whatever padding there is between options and after them, the client reads the numbers, addresses and the first sixteen name servers that the server wrote |
| `DhcpOptionValues.RefusedExactly` | dhcpclient/BDHCPClientCore.c:316-387 | an option is refused if and only if its payload is not the encoding of any value of its kind |
| `DhcpOptions.Parse` | dhcpclient/BDHCPClientCore.c:277-392 | the loop over the bytes, with its early returns, is that reading |
| `DhcpOptions.ReadOption` | dhcpclient/BDHCPClientCore.c:316-387 | one option: rejected exactly if its length is wrong; otherwise its field, and no other, is what the option says |
| `DhcpOptions.ReadServers` | dhcpclient/BDHCPClientCore.c:370-386 | the loop over name servers reads the first sixteen |
| `DhcpObject.Client.constructor` | dhcpclient/BDHCPClientCore.c:685-791 | the client starts by sending a discovery, at the beginning of the exchange |
| `DhcpObject.Client.RecvHandlerDone` | dhcpclient/BDHCPClientCore.c:208-563 | a packet that is no reply changes nothing; a reply takes the exchange to the stage that it calls for and the client with it, keeps all that is safe about a run, and is reported exactly if the client comes up or goes down |
| `DhcpObject.Client.SendHandlerDone` | dhcpclient/BDHCPClientCore.c:200-206 | sending is possible again; all that is safe about a run is kept |
| `DhcpObject.Client.FiringIsSafe` | dhcpclient/BDHCPClientCore.c:591-678 | when a timer is due, the assertions that open its handler hold, and what the handler does keeps all that is safe about a run |
| `DhcpObject.Client.ResetTimerHandler` | dhcpclient/BDHCPClientCore.c:591-599 | due is all that it needs; the client starts again, all that is safe about a run is kept, and nothing is reported since it was not up |
| `DhcpObject.Client.RequestTimerHandler` | dhcpclient/BDHCPClientCore.c:601-626 | due is all that it needs; the request is repeated, or the client starts again after the fourth; all that is safe about a run is kept, and nothing is reported |
| `DhcpObject.Client.RenewTimerHandler` | dhcpclient/BDHCPClientCore.c:628-646 | due is all that it needs; the client stays up and renews, with the rest of the lease to go; all that is safe about a run is kept |
| `DhcpObject.Client.RenewRequestTimerHandler` | dhcpclient/BDHCPClientCore.c:648-660 | due is all that it needs; the client stays up and repeats the renewal; all that is safe about a run is kept |
| `DhcpObject.Client.LeaseTimerHandler` | dhcpclient/BDHCPClientCore.c:662-678 | due is all that it needs; the client starts again, reports down, and keeps all that is safe about a run |

## Left out

- Command line, TLS, sockets, logging, one-time passwords and the server side: input, output and calls into other libraries.
- The encryption and authentication of datagrams (SPProto): cipher and hash are outside, only padding would remain.
- Connectors, notifiers, copiers, blockers, single-packet buffers, FIFO and priority queues: easy next to the fair queue.
- `flow/PacketBuffer.c` and `flow/PacketRouter.c`: their buffers are not part of this model.
- `dostest/StreamBuffer.c`, `arpprobe/BArpProbe.c`, `flow/LineBuffer.c`, `client/SimpleStreamBuffer.c`: small.
- The up and down job and the keep-alives of a sink (`client/DataProto.c:54-109`): only easy properties.
- BProto entries of type message, which the generator does not implement, and the PHP that tokenises and parses declarations.
- The wire layout of Ethernet, IPv4, IGMP and DHCP headers: parsed headers are inputs. The sender's hardware address that the DHCP client remembers is left out with it.
- Link errors, resets and retries during connection setup, malformed setup messages, keys and passwords: the negotiation theorems are about chats that lose nothing and messages that are well-formed.
- Failure to allocate memory: initialisation functions are modelled when they succeed.
- The linked representation of trees and lists: lists are sequences and trees are maps, so rotations and node pointers are not captured.
- Relays.AllocatorInvariant: speaks of the state after each handler; inside `peer_disable_relay_provider` peers may wait while the relay is still listed.
- FrameDeciderObject.Decider.AddGroupToPeer: a membership is identified by peer and group instead of by a slot of the peer's array; that free and used slots share out the array is proved for addresses only.
- FragmentRoundTrip.RoundTrip: says frame by frame what comes out only where ids are kept apart: one entry, one slot, few enough chunks to a packet, or fewer than 65536 frames after one that does not fit. FragmentDense.DenseStreamSpoils gives streams beyond that for which it is false; FragmentReuse.RoundTripExactly needs no such condition.
- FragmentCancel.CancelExactly: is about one late cancel. After several, which frames are lost depends also on where they were cut.
- FrameDeciderRuns.StraysExactly: a decision that is astray is taken as it stood when its entry was released; what becomes of released memory, and the reuse of the entry's slot by its peer, is not modelled.
- The bytes of the messages that the DHCP client sends: only which request each is.
