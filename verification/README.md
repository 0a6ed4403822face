# Audio stream protocols

A model of the stream plumbing of a Bluetooth audio system-on-chip: how bytes and samples are cut up,
queued, handed between cores or threads, and put together again. Code that updates variables in place is
a class with methods; each method is proved against a function of the old state, and the properties are
proved about those functions. Protocols between cores or threads are step systems in which every atomic
access is a step, with the history of everything written and read; their theorems hold for every
interleaving, and beside what no run does wrong there is, for each, a theorem that runs exist which get
everything through.

- `Bytes`, `Rings`, `Copies`: bytes, length-prefixed framing, cyclic buffers, element copies.
- `CQueues`: the byte queue that the other parts stand on.
- `RpcQueue`, `RpcBthDsp`, `RpcLink`, `RpcTxSemaphore`: message framing between two cores, the code of one
  core, the link with its threads, and the counting semaphore that wakes the transmit thread.
- `LhdcAssembler`: reassembly of fragmented media packets under loss.
- `A2dpInCache`, `A2dpPipeline`: the AAC byte ring between MCU and co-processor, alone and under every
  interleaving of Bluetooth thread, MCU and co-processor.
- `DecodeSlots`, `SlotRuns`: the three PCM slots that pass between co-processor and MCU.
- `Reframer`, `ReframerRuns`: conversion of IO frames to processing frames by a worker thread.
- `MsbcDecoder`, `LossDetection`, `MsbcLink`: alignment to the synchronization header (section 5.7.2 of the
  Hands-Free Profile 1.7), verdicts on received packets, and encoder to verdict in one theorem.
- `Upsampler`: the polyphase filter, its independence of chunking and the exact range of its accumulator.
- `ScoHandoff`: the exchange of voice frames between two cores.
- `Crc32`: the table-driven checksum (section 8 of RFC 1952).
- `QosFreq`: the packed frequency requests.
- `CvsdDelay`: the delay line in front of the CVSD decoder.

Where the code does not do what one would expect, the code is followed, with a run or an input that shows
it and the exact condition:

- An RPC message of 65536 bytes or more is measured by its low 16 bits (`RpcQueue.OversizedPushWitness`,
  `RpcQueue.PushKeepsFramingIff`).
- A packet that finds the far receive queue full is dropped in silence (`RpcLink.DropWitness`,
  `RpcLink.PutOnLinkStoresIff`).
- A PCM slot finished between the MCU's verdict and its second look at the state is given back unheard
  (`SlotRuns.SkippedWitness`, `SlotRuns.HandedOutIff`).
- A retried decode attempt is told the whole slot size, so that it can write beyond its slot
  (`SlotRuns.OverrunWitness`, `SlotRuns.OverrunIff`) or end DONE without filling it
  (`SlotRuns.DoneIsFullIff`). `fixed` in these modules is the variant that passes the missing length; the
  theorems cover both.
- A packet in sequence can be reported as a conflict of BLE and SCO when the packet before the previous one
  did not pass (`LossDetection.FalseConflictWitness`, `LossDetection.GapVerdict`).
- At phase 1 the last byte of a packet may not have arrived, and the mSBC decoder passes on the padding of an
  earlier packet for it, or zero (`MsbcDecoder.WrongPadWitness`). With the encoder of this repository, which
  pads with zero, that is right for every mix of call sizes if and only if sync was acquired with a zero there
  (`MsbcLink.EncoderToDecoder`, `MsbcLink.EncoderToColdDecoder`).
- The frequency table of `platform/hal/best1603` has zero holes. A request for such a level adds nothing to the
  demand, and is met if and only if the other users' demand reaches that far (`QosFreq.HoleWitness`,
  `QosFreq.RequestIsMetIff`).
- The exception is `apps/audioplayers/bt_sco_chain_reframe.c:352`, which reads 640 samples from a buffer of
  320: the model queues 640 zeros.

## Model

| member | source | states |
|---|---|---|
| `CQueues.CQueue.constructor` | utils/cqueue/cqueue.c:29-40 | an initialised queue is empty and has the given size |
| `CQueues.CQueue.EnCQueue` | utils/cqueue/cqueue.c:67-97 | all or nothing: succeeds exactly when the bytes fit, then appends them to the queue; a refused call changes no byte |
| `CQueues.CQueue.DeCQueue` | utils/cqueue/cqueue.c:325-363 | removes exactly the oldest bytes, copied to the target unless that is null, or nothing when fewer are queued |
| `CQueues.CQueue.TakeOldest` | utils/cqueue/cqueue.c:339-350 | the copy to the target: the oldest bytes in order, across the end of the buffer |
| `CQueues.CQueue.PeekCQueue` | utils/cqueue/cqueue.c:365-390 | the two segments returned are, joined, the oldest bytes asked for, wherever the queue wraps; the second one is used only at the end of the buffer |
| `CQueues.StoreAround` | utils/cqueue/cqueue.c:67-97 | the one- or two-part copy stores a run cyclically from the write position |
| `RpcQueue.Push` | apps/app_rpc/rpc_queue.c:35-54 | return value and queue content after a push, refusals and 16-bit truncation of the stored length included |
| `RpcQueue.GetNextEntryLength` | apps/app_rpc/rpc_queue.c:56-75 | the little-endian length at the head, 0 on an empty queue |
| `RpcQueue.Pop` | apps/app_rpc/rpc_queue.c:77-99 | drops the length, returns the next bytes and removes them |
| `RpcQueue.Wipe` | apps/app_rpc/rpc_queue.c:92-94 | clearing the popped bytes in place leaves every pending byte as it was |
| `RpcQueue.PushAddsMessage` | apps/app_rpc/rpc_queue.c:35-54 | on a queue that is the framing of a list of messages, a push either refuses and changes nothing or adds one whole message at the end |
| `RpcQueue.PopTakesOldest` | apps/app_rpc/rpc_queue.c:56-99 | length-then-pop returns the oldest message unchanged and leaves the framing of the others |
| `RpcQueue.PushKeepsFramingIff` | apps/app_rpc/rpc_queue.c:35-99 | what an accepted push leaves behind the pending messages reads back as the message pushed if and only if that is shorter than 65536 bytes, for queues of any size |
| `RpcQueue.OversizedPushWitness` | apps/app_rpc/rpc_queue.c:35-54 | a message of 65537 bytes is accepted by the truncated length check and leaves a header without its body |
| `RpcQueue.PopOfTooMany` | apps/app_rpc/rpc_queue.c:77-99 | a pop of more than is queued returns zeros and removes the length only |
| `RpcQueue.OpsTakeEffect` | apps/app_rpc/rpc_queue.c:35-99 | in every state of a run a push is accepted if and only if it holds something and fits with its length, and a pop returns the oldest message whenever one is queued |
| `RpcQueue.RunIsFifo` | apps/app_rpc/rpc_queue.c:35-99 | over any run of pushes and pops, what was returned is a prefix of what was accepted, and the queue is the framing of the rest |
| `RpcBthDsp.Core.SendCmd` | apps/app_rpc_old/rpc_bth_dsp.c:359-376 | size assert, then a push of the code and the content |
| `RpcBthDsp.Core.TxTake` | apps/app_rpc_old/rpc_bth_dsp.c:295-329 | one pass of the transmit thread: nothing, an assert, or the entry dispatched by its code; new queue content in each case |
| `RpcBthDsp.Core.TransmitData` | apps/app_rpc_old/rpc_bth_dsp.c:204-235 | the packet put on the link, with the next 16-bit sequence number |
| `RpcBthDsp.Core.SendRsp` | apps/app_rpc_old/rpc_bth_dsp.c:237-262 | the response packet: code, sequence number, response code, content; both size asserts |
| `RpcBthDsp.Core.DataReceived` | apps/app_rpc_old/rpc_bth_dsp.c:138-159 | received data is pushed; the result of the push is dropped |
| `RpcBthDsp.Core.RxProcess` | apps/app_rpc_old/rpc_bth_dsp.c:445-464 | takes one packet and hands over a command, a response or an assert, by size, code and table |
| `RpcBthDsp.PacketFields` | apps/app_rpc_old/rpc_bth_dsp.c:204-235 | code, sequence number and content of a packet read back as they were put in |
| `RpcBthDsp.EntryIsDispatchedIff` | apps/app_rpc_old/rpc_bth_dsp.c:295-329 | the transmit thread dispatches an entry if and only if its code is registered and it fits the buffer |
| `RpcBthDsp.PacketIsProcessed` | apps/app_rpc_old/rpc_bth_dsp.c:264-464 | what the receive thread makes of a packet of any code and content |
| `RpcBthDsp.CommandArrivesIff` | apps/app_rpc_old/rpc_bth_dsp.c:204-376 | a command of a registered code arrives with code and content intact if and only if the content has at most 508 bytes; a longer one trips a size assert |
| `RpcBthDsp.OtherCommands` | apps/app_rpc_old/rpc_bth_dsp.c:204-464 | what becomes of every other command: an assert, no effect, or a response taken from its content |
| `RpcBthDsp.ResponseArrivesIff` | apps/app_rpc_old/rpc_bth_dsp.c:237-357 | a response arrives intact if and only if its content has at most 506 bytes |
| `RpcLink.PutOnLinkStoresIff` | apps/app_rpc_old/rpc_bth_dsp.c:138-262 | a message put on the link is stored at the far end if and only if it met room there, is dropped as a whole otherwise, and takes the next number either way |
| `RpcLink.SendAcceptsIff` | apps/app_rpc_old/rpc_bth_dsp.c:359-376 | a command is accepted if and only if the near queue has room for it; a refused one leaves no trace |
| `RpcLink.TransmitForwardsOldest` | apps/app_rpc_old/rpc_bth_dsp.c:295-329 | whatever is queued, the transmit thread puts exactly the oldest waiting command on the link |
| `RpcLink.ReceiveTakesOldest` | apps/app_rpc_old/rpc_bth_dsp.c:445-464 | the receiver hands over exactly the oldest stored message, command or response |
| `RpcLink.MessagesArriveInOrder` | apps/app_rpc_old/rpc_bth_dsp.c:138-464 | from the empty link over every interleaving of command senders, transmit thread, response senders and far receiver, far queue full or not: no assert fires, commands go out in the order accepted, and received messages followed by pending ones are exactly the packets that met room, in one order, with code and content unchanged |
| `RpcLink.CommandsArriveInOrder` | apps/app_rpc_old/rpc_bth_dsp.c:138-464 | when every packet met room, the commands received are the oldest of those accepted |
| `RpcLink.EveryCommandCanArrive` | apps/app_rpc_old/rpc_bth_dsp.c:138-464 | progress: from every state reached, transmit thread and far receiver can bring every accepted command across without another packet being dropped |
| `RpcLink.DropWitness` | apps/app_rpc_old/rpc_bth_dsp.c:138-159 | a run in which the far queue is full: of four long responses the fourth is dropped |
| `RpcTxSemaphore.FrameBoundsCount` | apps/app_rpc_old/rpc_bth_dsp.c:96-108 | a queue of 2048 bytes holds too few entries for the saturating semaphore to lose one that matters |
| `RpcTxSemaphore.StepKeepsInv` | apps/app_rpc_old/rpc_bth_dsp.c:96-108 | tokens + senders between push and release + the token the thread holds never fall below the number of queued entries, although failed pushes release too |
| `RpcTxSemaphore.RunKeepsInv` | apps/app_rpc_old/rpc_bth_dsp.c:307-376 | the same over any interleaving of senders and thread |
| `RpcTxSemaphore.BlockedMeansEmpty` | apps/app_rpc_old/rpc_bth_dsp.c:307-376 | no stranded command: when the thread is blocked and no sender is between push and release, the queue is empty |
| `RpcTxSemaphore.PushStoresIff` | apps/app_rpc_old/rpc_bth_dsp.c:359-376 | a push stores its entry if and only if there is room for it with its length, and is followed by a release either way |
| `RpcTxSemaphore.RunIsFifo` | apps/app_rpc_old/rpc_bth_dsp.c:96-376 | over any interleaving what was taken followed by what is queued is what was stored, and until 65535 releases have been made the tokens are the releases less the acquisitions |
| `RpcTxSemaphore.QueueCanBeEmptied` | apps/app_rpc_old/rpc_bth_dsp.c:96-376 | progress: from every state reached, the senders under way and the thread can empty the queue, in order |
| `LhdcAssembler.Assembler.constructor` | apps/audioplayers/a2dpplay.cpp:1665-1671 | the initial state: not synchronised, waiting for a start |
| `LhdcAssembler.Assembler.ResetAssembly` | apps/audioplayers/a2dpplay.cpp:1657-1663 | reset keeps the serial number and drops everything else |
| `LhdcAssembler.Assembler.Start` | apps/audioplayers/a2dpplay.cpp:1785-1866 | the two states, with buffer, length, return code and payload of every branch |
| `LhdcAssembler.Assembler.Assemble` | apps/audioplayers/a2dpplay.cpp:1752-1866 | the whole routine: sequence check with reset and restart, then the two states |
| `LhdcAssembler.FlagsOfBits` | apps/audioplayers/a2dp_decoder/a2dp_decoder_lhdc.cpp:70-73 | the three flags are the upper three bits of the header byte |
| `LhdcAssembler.NextWithoutPart` | apps/audioplayers/a2dpplay.cpp:1752-1866 | return code, payload and state after a fragment that continues nothing |
| `LhdcAssembler.NextWithPart` | apps/audioplayers/a2dpplay.cpp:1752-1866 | return code, payload and state after the fragment due next |
| `LhdcAssembler.ArrivalStep` | apps/audioplayers/a2dpplay.cpp:1752-1866 | a fragment that arrives continues, completes or abandons the packet under assembly, in step with the sender |
| `LhdcAssembler.LossStep` | apps/audioplayers/a2dpplay.cpp:1752-1866 | a lost fragment leaves the assembler in step with the sender |
| `LhdcAssembler.ReassemblyIsExact` | apps/audioplayers/a2dpplay.cpp:1752-1866 | sound and complete under loss: for well-formed packets (single ones up to 4096 bytes), any first sequence number and any loss in which no gap that begins inside a packet is a positive multiple of 256, the payloads emitted are exactly, in order, the packets all of whose fragments arrived (fragmented ones under 4096 bytes) |
| `LhdcAssembler.UndetectableGapMixes` | apps/audioplayers/a2dpplay.cpp:1752-1866 | the bound on gaps is needed: after every gap that is a multiple of 256 the tail of one packet completes the head of another |
| `A2dpInCache.StoreAac` | apps/audioplayers/a2dpplay.cpp:508-518 | length and packet go into the queue together or not at all |
| `A2dpInCache.InCache.constructor` | apps/audioplayers/a2dpplay.cpp:2000-2001 | the ring starts empty |
| `A2dpInCache.InCache.PutClipped` | apps/audioplayers/a2dpplay.cpp:2630-2665 | a segment copied in two parts lands cyclically behind the position |
| `A2dpInCache.InCache.CopySegments` | apps/audioplayers/a2dpplay.cpp:2610-2669 | the many-branch two-segment copy stores both segments one after the other, for every position of writer, reader and split |
| `A2dpInCache.InCache.McuLoad` | apps/audioplayers/a2dpplay.cpp:2582-2672 | moves as many of the oldest queue bytes as there is room for: ring content grows by them, the queue loses exactly them, no unread byte is overwritten |
| `A2dpInCache.InCache.GetData` | apps/audioplayers/a2dpplay.cpp:2315-2329 | a read across the end returns the abstract prefix |
| `A2dpInCache.InCache.LoadAacFrame` | apps/audioplayers/a2dpplay.cpp:2187-2247 | return code, packet and new content of every branch; a refusal consumes nothing |
| `A2dpInCache.RingRoom` | apps/audioplayers/a2dpplay.cpp:2300-2313 | used and free length add up to one less than the ring; the positions are equal exactly when the ring is empty |
| `A2dpInCache.RingMoves` | apps/audioplayers/a2dpplay.cpp:2331-2340 | advancing a position adds or removes exactly that many readable bytes |
| `A2dpInCache.TransferExtends` | apps/audioplayers/a2dpplay.cpp:2591-2669 | bytes stored behind the writer extend the readable content and change none of it |
| `A2dpInCache.ConsumeSplits` | apps/audioplayers/a2dpplay.cpp:2196-2240 | reading header and packet splits the readable content at the packet's end |
| `A2dpInCache.RefusalLeavesRoom` | apps/audioplayers/a2dpplay.cpp:2197-2232 | when a load refuses an incomplete packet the ring has free space |
| `A2dpInCache.ParseFramed` | apps/audioplayers/a2dpplay.cpp:2187-2247 | on any prefix of a framed stream a load returns the oldest packet if and only if all of it is there and it has fewer than 2048 bytes, reports a bad header if and only if it sees the length of a longer one, and which of the two codes for waiting it returns |
| `A2dpInCache.MaxReadIsLeast` | apps/audioplayers/a2dpplay.cpp:2209-2226 | the decoder is told to read the least of the six sizes that exceeds the packet |
| `A2dpPipeline.StoreKeeps` | apps/audioplayers/a2dpplay.cpp:508-518 | a store between any two steps of the others keeps the invariant |
| `A2dpPipeline.McuCopyKeeps` | apps/audioplayers/a2dpplay.cpp:2591-2669 | the MCU's copy, made from an outdated view of the reader, touches no readable byte |
| `A2dpPipeline.McuPublishKeeps` | apps/audioplayers/a2dpplay.cpp:2666-2669 | publishing makes the moved bytes readable exactly once, also while they are still in the queue |
| `A2dpPipeline.LoadYieldsOldest` | apps/audioplayers/a2dpplay.cpp:2187-2240 | what a load from an outdated view of the writer finds: the oldest undelivered packet if and only if all of it is seen and it is short enough, a bad header if and only if the length of a longer one is seen |
| `A2dpPipeline.LoadHandsOverIff` | apps/audioplayers/a2dpplay.cpp:2187-2247 | a load step hands over the oldest undelivered packet if and only if it sees all of it and it has fewer than 2048 bytes; otherwise the co-processor looks again |
| `A2dpPipeline.StoreAcceptsIff` | apps/audioplayers/a2dpplay.cpp:508-518 | a store step accepts a packet if and only if it fits the queue with its length, and otherwise changes nothing |
| `A2dpPipeline.BadHeaderIff` | apps/audioplayers/a2dpplay.cpp:2220-2224 | a bad header is reported exactly by a load that sees the length of a packet of 2048 bytes or more at the head |
| `A2dpPipeline.CpReleaseKeeps` | apps/audioplayers/a2dpplay.cpp:2236-2240 | releasing a packet removes exactly its frame |
| `A2dpPipeline.NextKeepsInv` | apps/audioplayers/a2dpplay.cpp:2187-2672 | every step of the three actors keeps conservation: ring + queue bytes not in the ring = framing of the undelivered packets |
| `A2dpPipeline.DeliveryIsExact` | apps/audioplayers/a2dpplay.cpp:2187-2672 | end to end over every interleaving, for packets of any 16-bit length: frame(delivered) + ring + queue = frame(accepted), so delivered packets are a byte-exact ordered prefix of the accepted ones, and a bad header is reported only when the oldest undelivered packet has 2048 bytes or more |
| `A2dpPipeline.DeliverOne` | apps/audioplayers/a2dpplay.cpp:2187-2247 | look, load and release, undisturbed, deliver the oldest packet whenever all of it is in the ring |
| `A2dpPipeline.TransferSome` | apps/audioplayers/a2dpplay.cpp:2582-2672 | the five steps of a transfer, undisturbed, move as many of the oldest queue bytes as there is room for |
| `A2dpPipeline.NoDeadlock` | apps/audioplayers/a2dpplay.cpp:2187-2672 | with both cores idle and the oldest undelivered packet not too long, either the three steps of a load lengthen what was delivered by exactly that packet, or the five steps of a transfer make the readable content longer |
| `A2dpPipeline.EverythingCanBeDelivered` | apps/audioplayers/a2dpplay.cpp:2187-2672 | from every state reached with both cores idle there is a run that delivers all accepted packets, if each has fewer than 2048 bytes |
| `DecodeSlots.SlotBuffer.constructor` | apps/audioplayers/a2dpplay.cpp:2548-2578 | the initial slots: the last one (two for LHDC) DONE with silence |
| `DecodeSlots.SlotBuffer.DecodeFrame` | apps/audioplayers/a2dpplay.cpp:2343-2360 | one decode attempt, begin to end (end at lines 2441-2468): refused on a finished slot, else new state, length and bytes of the slot and the index |
| `DecodeSlots.SlotBuffer.Process` | apps/audioplayers/a2dpplay.cpp:2675-2721 | the MCU side: code, bytes handed out, release and index |
| `SlotRuns.BeginOwned` | apps/audioplayers/a2dpplay.cpp:2343-2360 | beginning an attempt takes a free slot only |
| `SlotRuns.EndOwned` | apps/audioplayers/a2dpplay.cpp:2441-2468 | ending one appends the frame to the run of finished slots, or keeps the slot for a retry |
| `SlotRuns.ReleaseOwned` | apps/audioplayers/a2dpplay.cpp:2704-2718 | releasing takes the oldest finished slot |
| `SlotRuns.NextOwned` | apps/audioplayers/a2dpplay.cpp:2343-2721 | every atomic step of either core keeps ownership: finished slots are a cyclic run from the MCU's index to just before the CP's, at most the slot at the CP's index is WORKING |
| `SlotRuns.SlotProtocolIsSafe` | apps/audioplayers/a2dpplay.cpp:2343-2721 | over every interleaving: ownership, and outputs are full DONE frames in order of production, each at most once; their bytes are what was decoded unless a write left its slot, which cannot happen when the missing length is passed |
| `SlotRuns.AttemptContinuesIff` | apps/audioplayers/a2dpplay.cpp:2343-2360 | an attempt is refused with three frames waiting; else it takes up what earlier ones left in the slot, unless that fills it already or the slot is new |
| `SlotRuns.DoneIsFullIff` | apps/audioplayers/a2dpplay.cpp:2522-2545 | a DONE frame fills its slot if and only if the finishing attempt began with an empty slot (line 2541 passes the whole slot size) or the missing length is passed; in these cases a frame is DONE if and only if it is full |
| `SlotRuns.MayOverrunIff` | apps/audioplayers/a2dpplay.cpp:2522-2545 | some output of the decoder leaves the slot if and only if the whole size is passed and the slot holds bytes already |
| `SlotRuns.OverrunIff` | apps/audioplayers/a2dpplay.cpp:2522-2545 | the same at every point of every run at which the decoder is at work |
| `SlotRuns.EmptyStartsStayInside` | apps/audioplayers/a2dpplay.cpp:2343-2545 | in a run without attempts on a slot that holds bytes no write leaves its slot |
| `SlotRuns.OverrunWitness` | apps/audioplayers/a2dpplay.cpp:2522-2545 | a run from the start in which a retry writes beyond its slot and the frame is DONE with too many bytes |
| `SlotRuns.VerdictIff` | apps/audioplayers/a2dpplay.cpp:2687-2703 | the MCU finds a slot good if and only if the oldest waiting frame is there, DONE and full, and reports that there is none if and only if it is not there or not DONE |
| `SlotRuns.HandedOutIff` | apps/audioplayers/a2dpplay.cpp:2343-2721 | over every interleaving a frame given back was handed out if and only if it is a full DONE frame that had been produced when the call that gave it back came to its verdict |
| `SlotRuns.EveryRunIsWatched` | apps/audioplayers/a2dpplay.cpp:2343-2721 | the history this speaks of can be kept beside every run |
| `SlotRuns.FinishedLateIsSkipped` | apps/audioplayers/a2dpplay.cpp:2675-2721 | in every state in which it can happen, a frame finished between the verdict and the second look is released without being handed out |
| `SlotRuns.SkippedWitness` | apps/audioplayers/a2dpplay.cpp:2343-2721 | a run from the start in which that happens to a full DONE frame |
| `SlotRuns.EveryFrameIsPlayed` | apps/audioplayers/a2dpplay.cpp:2343-2721 | progress: for any list of full frames there is a run in which they are decoded and, behind the silence of the start, handed out in order |
| `Copies.ShiftDown` | apps/audioplayers/app_audio.cpp:308-315 | an overlapping copy towards the start moves the samples unchanged |
| `Copies.CopyInto` | multimedia/inc/speech/inc/speech_utils.h:69-74 | copies the elements and touches no others |
| `Reframer.Queues.constructor` | apps/audioplayers/bt_sco_chain_reframe.c:329-373 | empty input, 640 zeros queued for output |
| `Reframer.Queues.WriteInput` | apps/audioplayers/bt_sco_chain_reframe.c:147-168 | appends the block on all four channels, or fails on overflow and changes nothing |
| `Reframer.Queues.TakeChannel` | apps/audioplayers/bt_sco_chain_reframe.c:178-188 | one channel: the oldest samples out, the rest shifted to the front in place |
| `Reframer.Queues.ReadInput` | apps/audioplayers/bt_sco_chain_reframe.c:170-192 | takes the oldest block on all channels, or returns zeros and changes nothing |
| `Reframer.Queues.WriteOutput` | apps/audioplayers/bt_sco_chain_reframe.c:194-213 | appends to the output or fails on overflow and changes nothing |
| `Reframer.Queues.ReadOutput` | apps/audioplayers/bt_sco_chain_reframe.c:215-236 | takes the oldest samples, or returns zeros and changes nothing |
| `Reframer.Queues.ForwardFrame` | apps/audioplayers/bt_sco_chain_reframe.c:274-319 | one pass of the worker: a frame off every channel, its voice channel to the output, or lost when there is no room |
| `Reframer.Queues.Drain` | apps/audioplayers/bt_sco_chain_reframe.c:274-319 | the inner loop forwards every whole frame for which there is room; one more is lost exactly when there are more |
| `Reframer.RoomForAll` | apps/audioplayers/bt_sco_chain_reframe.c:274-319 | with at most 1280 samples in both queues nothing is lost and less than a frame is left |
| `ReframerRuns.NextKeepsInv` | apps/audioplayers/bt_sco_chain_reframe.c:147-320 | the length checks made outside the lock still hold when it is taken, after every step of either thread, and order is kept |
| `ReframerRuns.ReframingIsFifo` | apps/audioplayers/bt_sco_chain_reframe.c:260-429 | first in first out over every interleaving in which no frame is thrown away: drawn + output queue + frame in flight + voice input queue = 640 zeros + voice input; on all channels the input queue holds the same stretch |
| `ReframerRuns.FailuresShow` | apps/audioplayers/bt_sco_chain_reframe.c:147-320 | the exact step and condition of each of the four failures |
| `ReframerRuns.NextKeepsBalance` | apps/audioplayers/bt_sco_chain_reframe.c:147-429 | until an output is missing, the queues and the frame in flight hold 640 samples, plus one IO frame between a call's write and its read |
| `ReframerRuns.UnderflowComesFirst` | apps/audioplayers/bt_sco_chain_reframe.c:147-429 | an input overflow, a frame dropped by the worker or an output overflow can occur only after an output underflow, for 120- and 240-sample IO |
| `ReframerRuns.NextKeepsSupplied` | apps/audioplayers/bt_sco_chain_reframe.c:260-429 | a drained worker at the start of a call leaves enough output for it |
| `ReframerRuns.DelayIsExact` | apps/audioplayers/bt_sco_chain_reframe.c:260-429 | if the worker drains between calls no queue call ever fails and the output is the voice input delayed by exactly 640 samples |
| `ReframerRuns.EveryInputIsServed` | apps/audioplayers/bt_sco_chain_reframe.c:260-429 | progress: for any list of blocks there is a run in which each is accepted, the worker drains in between, and the output is the voice input of all of them delayed by 640 samples |
| `MsbcDecoder.Aligner.constructor` | apps/audioplayers/bt_sco_codec_msbc.c:97-176 | the window starts at zero, without sync |
| `MsbcDecoder.Aligner.LoadInput` | apps/audioplayers/bt_sco_codec_msbc.c:266-268 | the window is the carry, the input, and what earlier calls left behind it |
| `MsbcDecoder.Aligner.FindSync` | apps/audioplayers/bt_sco_codec_msbc.c:289-293 | the index of the first header, or the size if there is none |
| `MsbcDecoder.Aligner.CheckSlots` | apps/audioplayers/bt_sco_codec_msbc.c:331-409 | drift of every packet, and sync lost exactly when some packet is judged lost |
| `MsbcDecoder.Aligner.TakePackets` | apps/audioplayers/bt_sco_codec_msbc.c:412-425 | 60 bytes from each packet's place |
| `MsbcDecoder.Aligner.KeepCarry` | apps/audioplayers/bt_sco_codec_msbc.c:530-532 | the last 60 bytes written become the carry, everything else in the buffer stays |
| `MsbcDecoder.Aligner.DecodeCall` | apps/audioplayers/bt_sco_codec_msbc.c:240-536 | one call of 60 or 120 bytes, in any order of sizes: packets passed on and the state left |
| `MsbcDecoder.SyncKeptIff` | apps/audioplayers/bt_sco_codec_msbc.c:331-409 | a call in sync stays so if and only if every place due holds a header at most one byte off or mute; every packet then passed on starts as one |
| `MsbcDecoder.AcquiredKeptIff` | apps/audioplayers/bt_sco_codec_msbc.c:288-409 | the call that finds the first header keeps sync if and only if every place due from that header on holds a header at most one byte off or mute |
| `MsbcDecoder.PacketFollowsHeader` | apps/audioplayers/bt_sco_codec_msbc.c:331-425 | a packet whose header is at its place or one byte beside it is taken from where the header is; the earliest of the three counts |
| `MsbcDecoder.MuteIsMute` | apps/audioplayers/bt_sco_codec_msbc.c:389-391 | sixty bytes of the mute pattern are mute where a packet is due, and no header |
| `MsbcDecoder.CallInSync` | apps/audioplayers/bt_sco_codec_msbc.c:301-425 | with a header or mute at every place due, no drift is seen, sync is kept, and each packet is the one at its place |
| `MsbcDecoder.CallAcquires` | apps/audioplayers/bt_sco_codec_msbc.c:288-425 | the call that finds the first header keeps sync in the same call, and packets before the header do not upset it |
| `MsbcDecoder.CallUnsynced` | apps/audioplayers/bt_sco_codec_msbc.c:288-425 | without a header the stream is passed on in 60-byte pieces |
| `MsbcDecoder.RunInSync` | apps/audioplayers/bt_sco_codec_msbc.c:266-532 | over any run of calls of 60 and 120 bytes mixed, for every phase 0 to 59, sync is never lost and packet k of the run is packet k of the stream, each once and in order; at phase 1 the last of a call has 59 exact bytes, and its last byte is exactly zero in a call of 120 bytes, byte 60 of the latest such call in one of 60 |
| `MsbcDecoder.PadIsLeftover` | apps/audioplayers/bt_sco_codec_msbc.c:412-425 | at phase 1 the last byte of a call is whatever the cell behind its input holds |
| `MsbcDecoder.LeftoverOfLongCall` | apps/audioplayers/bt_sco_codec_msbc.c:412-425 | so after a call of 120 bytes the pad of a call of 60 is byte 60 of the former, the padding of an earlier packet |
| `MsbcDecoder.WrongPadWitness` | apps/audioplayers/bt_sco_codec_msbc.c:412-425 | a run in which a packet is passed on with the nonzero padding of an earlier one |
| `MsbcDecoder.PadIsZero` | apps/audioplayers/bt_sco_codec_msbc.c:266-532 | in a stream padded with zero every such byte is zero for any mix of sizes, if the first one is |
| `MsbcDecoder.LatePadIsZero` | apps/audioplayers/bt_sco_codec_msbc.c:266-532 | the same for a stream padded with zero from its first header on, if the call that acquires sync finds zero |
| `MsbcDecoder.AcquiringPad` | apps/audioplayers/bt_sco_codec_msbc.c:288-425 | a call that acquires sync at phase 1 and does not find zero has 60 bytes, and its one packet is the first in sync |
| `MsbcDecoder.AlignmentIsExact` | apps/audioplayers/bt_sco_codec_msbc.c:266-532 | the same from a decoder without sync: it locks at the phase of the first header, in the call whose window that falls in, and no false drift, loss or doubling follows |
| `LossDetection.Encoder.constructor` | apps/audioplayers/bt_sco_codec_msbc.c:57 | the sequence index starts at 0 |
| `LossDetection.Encoder.Encode` | apps/audioplayers/bt_sco_codec_msbc.c:222-235 | packets with the cyclic sequence bytes 0x08, 0x38, 0xC8, 0xF8, continued across calls |
| `LossDetection.StreamAt` | apps/audioplayers/bt_sco_codec_msbc.c:46-53 | packet k of a stream carries sequence byte (start + k) mod 4 |
| `LossDetection.EncodedIsSound` | apps/audioplayers/bt_sco_codec_msbc.c:46-53 | an encoded packet has a sound header if and only if the codec delivers sync word, two zero bytes and a good checksum |
| `LossDetection.PacketLossState.constructor` | apps/audioplayers/plc_utils.c:235-242 | no number, two zero packets, no conflicts, empty histogram |
| `LossDetection.PacketLossState.UpdateBleScoConflict` | apps/audioplayers/plc_utils.c:145-154 | compares 59 bytes with the packet two before, and shifts the two packets kept |
| `LossDetection.PacketLossState.CheckBleScoConflict` | apps/audioplayers/plc_utils.c:156-162 | shifts the two conflict flags |
| `LossDetection.AllOf` | apps/audioplayers/plc_utils.c:165-173 | true exactly when all bytes of the range are the mute pattern |
| `LossDetection.CheckTransmitterOffset` | apps/audioplayers/plc_utils.c:183-212 | true exactly when the front or back part cut off by a displaced boundary is mute |
| `LossDetection.PacketLossState.UpdateHistogram` | apps/audioplayers/plc_utils.c:327-340 | 32-bit counters; a decoder error takes one off the passes |
| `LossDetection.PacketLossState.Process` | apps/audioplayers/plc_utils.c:244-325 | verdict, next state and histogram of every branch |
| `LossDetection.LostVerdictIff` | apps/audioplayers/plc_utils.c:165-262 | by the bytes alone: CONTROLLER_MUTE if and only if the first 59 bytes are 0x55; else TRANSMITTER_OFFSET if and only if, displaced by index > 0, the first 60 - index bytes are, or the first byte is not and the last index bytes are; such a packet moves no flag |
| `LossDetection.ArrivedVerdictIff` | apps/audioplayers/plc_utils.c:244-325 | every other packet by its bytes: BLE_CONFLICT if and only if 59 bytes equal the packet two before and that was not in conflict; then HEADER_ERROR if and only if the header is none of the four; then CRC_ERROR if and only if a zero byte or the checksum is wrong |
| `LossDetection.LostPacketIsFound` | apps/audioplayers/plc_utils.c:175-262 | in a stream cut index bytes out of place a lost packet is found in both packets it touches: the second is always reported, as cut off or all mute; the first if and only if it is all mute or does not start with the mute byte itself, and otherwise it is a conflict or a header error |
| `LossDetection.ParseInverts` | apps/audioplayers/plc_utils.c:48-130 | the parser accepts exactly the four headers the encoder writes, each with its number; such a header fails only by the zero bytes or the checksum |
| `LossDetection.RecoversAtOnce` | apps/audioplayers/plc_utils.c:244-325 | after any verdict but PASS the number is forgotten and the next sound packet passes if and only if it is not in conflict |
| `LossDetection.SoundVerdict` | apps/audioplayers/plc_utils.c:244-325 | on a sound packet the verdict is decided by conflict first, then by the sequence number |
| `LossDetection.SoundPasses` | apps/audioplayers/plc_utils.c:244-325 | a packet that is due passes and is not taken for a conflict |
| `LossDetection.LosslessPasses` | apps/audioplayers/plc_utils.c:48-325 | a loss-free stream of sound packets passes for ever, at any phase, from any state that expects its first number |
| `LossDetection.NoiseStaysBlank` | apps/audioplayers/plc_utils.c:244-325 | packets without a header never pass and leave no trace |
| `LossDetection.EncoderStreamPasses` | apps/audioplayers/plc_utils.c:48-325 | the encoder's own stream, starting anywhere in its cycle, passes at a fresh detector |
| `LossDetection.GapVerdict` | apps/audioplayers/plc_utils.c:230-320 | after a pass and k lost packets the exact verdict: PASS if and only if k mod 4 = 0 and the packet is not in conflict; else a conflict or a discontinuity |
| `LossDetection.GapAfterTwoPasses` | apps/audioplayers/plc_utils.c:145-320 | after two passes in a row: PASS if and only if k mod 4 = 0, and a conflict needs k mod 4 = 2 |
| `LossDetection.GapsOverARun` | apps/audioplayers/plc_utils.c:48-325 | over a whole run with losses anywhere: wherever the last two arrivals passed, the next passes if and only if the number of packets lost before it is a multiple of four |
| `LossDetection.FalseConflictWitness` | apps/audioplayers/plc_utils.c:145-162 | after one pass only, a packet in sequence can be reported as a conflict |
| `LossDetection.ConflictNotTwice` | apps/audioplayers/plc_utils.c:143-162 | a repeated packet is reported once: two packets later there is no second report |
| `LossDetection.HistogramCounts` | apps/audioplayers/plc_utils.c:327-340 | every counter is the net number of its verdict modulo 2^32 |
| `LossDetection.HistogramSums` | apps/audioplayers/plc_utils.c:244-340 | over any run the counters add up to the number of packets modulo 2^32, decoder errors or not |
| `LossDetection.HistogramIsExact` | apps/audioplayers/plc_utils.c:327-340 | before a counter can wrap, and with each decoder error right after a pass (as in bt_sco_codec_msbc.c:456-459), the histogram is exact |
| `LossDetection.SumIsExact` | apps/audioplayers/plc_utils.c:327-340 | and so is its sum: the verdicts other than decoder errors |
| `LossDetection.SumIsArrivals` | apps/audioplayers/plc_utils.c:244-340 | which is the number of packets that arrived |
| `MsbcLink.EncoderToDecoder` | apps/audioplayers/bt_sco_codec_msbc.c:222-425 | the encoder's packets, sent at any phase, come out of a decoder in sync byte for byte, for every mix of call sizes, if and only if at phase 1 the first call does not find something other than zero behind its input |
| `MsbcLink.EncoderToColdDecoder` | apps/audioplayers/bt_sco_codec_msbc.c:222-425 | from a decoder without sync: noise without headers, then the encoder's packets, each once and in order, at most the first of them missing, for every mix of call sizes, if and only if at phase 1 the call that acquires sync finds zero behind its input |
| `MsbcLink.EncoderToVerdict` | apps/audioplayers/bt_sco_codec_msbc.c:222-437 | and with a fresh detector the packets that pass are exactly those of the encoder |
| `MsbcLink.HeaderIsParsed` | apps/audioplayers/plc_utils.c:48-70 | alignment and loss detection agree on what starts a packet |
| `Upsampler.Fir.constructor` | apps/audioplayers/upsampling_to_48k.cpp:56-60 | the history is 23 zeros |
| `Upsampler.Fir.Accumulate` | apps/audioplayers/upsampling_to_48k.cpp:69-79 | one output sample is the 32-bit product sum over history and input |
| `Upsampler.Fir.RunPhases` | apps/audioplayers/upsampling_to_48k.cpp:69-81 | all phases of one input sample, in order |
| `Upsampler.Fir.KeepHistory` | apps/audioplayers/upsampling_to_48k.cpp:83-97 | the history becomes the last 23 samples of history and input, also for short inputs shifted in place |
| `Upsampler.Fir.Run` | apps/audioplayers/upsampling_to_48k.cpp:64-100 | a call's output is the polyphase convolution of history and input |
| `Upsampler.WrapAdds` | apps/audioplayers/upsampling_to_48k.cpp:69-79 | wrapping at every addition equals wrapping once |
| `Upsampler.ChunkingIsInvisible` | apps/audioplayers/upsampling_to_48k.cpp:64-100 | for any split of the input into calls, of any lengths, output and history are those of one call on the whole input |
| `Upsampler.PolyphaseIsFilter` | apps/audioplayers/upsampling_to_48k.cpp:46-79 | the polyphase form computes the plain one: zeros stuffed between the samples, then one filter at the output rate with all coefficients, one after the other |
| `Upsampler.ImpulseResponse` | apps/audioplayers/upsampling_to_48k.cpp:46-79 | one sample alone comes out as the coefficients of every phase, in the order of their delay |
| `Upsampler.Impulse8k` | apps/audioplayers/upsampling_to_48k.cpp:20-79 | an impulse of 16384 gives, 12 samples later at ratio 6, the outputs 7680, 7032, 5837, 4273, 2571, 965 |
| `Upsampler.Impulse16k` | apps/audioplayers/upsampling_to_48k.cpp:39-79 | and at ratio 3 the outputs 7336, 5080, 1831 |
| `Upsampler.PhasesInterpolate` | apps/audioplayers/upsampling_to_48k.cpp:20-79 | while a sample is the older of the two in the middle of the window the outputs fall from phase to phase, while it is the newer they rise; strictly so from 26 on |
| `Upsampler.RowNorms8k` | apps/audioplayers/upsampling_to_48k.cpp:20-28 | the norms of the six rows; the worst is 71978 |
| `Upsampler.RowNorms16k` | apps/audioplayers/upsampling_to_48k.cpp:39-44 | the norms of the three rows; the worst is 70524 |
| `Upsampler.OverflowByWorstRow` | apps/audioplayers/upsampling_to_48k.cpp:69-79 | partial sums fit in 32 bits for all windows if and only if bound times worst norm does |
| `Upsampler.AccumulatorBound8k` | apps/audioplayers/upsampling_to_48k.cpp:20-79 | at ratio 6 no partial sum overflows if and only if samples are at most 29835 |
| `Upsampler.AccumulatorBound16k` | apps/audioplayers/upsampling_to_48k.cpp:39-79 | at ratio 3 if and only if they are at most 30450 |
| `Upsampler.SampleIsExact` | apps/audioplayers/upsampling_to_48k.cpp:69-79 | within the bound an output is the exact sum divided by 65536, rounded down |
| `ScoHandoff.Accelerator.constructor` | apps/audioplayers/bt_sco_chain_cp.c:188-232 | idle, frame_len zeros as first output |
| `ScoHandoff.Accelerator.Exchange` | apps/audioplayers/bt_sco_chain_cp.c:89-147 | the input buffers hold the frame, the status and, if given, the reference of this call; what is returned is the output frame and status as they were; the length is that of the new frame and the state WORKING |
| `ScoHandoff.Accelerator.RunFrame` | apps/audioplayers/bt_sco_chain_cp.c:152-185 | runs the algorithm on exactly the frame, reference and status in the buffers, leaves its output, length and status, and the state IDLE |
| `ScoHandoff.MarkKeepsInv` | apps/audioplayers/bt_sco_chain_cp.c:89-147 | passing the state to WORKING gives the buffers away |
| `ScoHandoff.FinishKeepsInv` | apps/audioplayers/bt_sco_chain_cp.c:152-185 | passing it back to IDLE returns them with the output complete |
| `ScoHandoff.NextKeepsInv` | apps/audioplayers/bt_sco_chain_cp.c:89-185 | every step of either core keeps exclusion and buffer contents |
| `ScoHandoff.OnlyOwnersTouch` | apps/audioplayers/bt_sco_chain_cp.c:89-185 | no step of a core that does not own the shared variables changes them or reads them out |
| `ScoHandoff.HandoffIsExact` | apps/audioplayers/bt_sco_chain_cp.c:89-232 | over every interleaving AP and CP never own the buffers together, and call k returns the algorithm's output, length and status for frame k - 1, frame_len zeros on the first call |
| `ScoHandoff.InputsAreGiven` | apps/audioplayers/bt_sco_chain_cp.c:89-147 | over every interleaving the input of call k is the frame and status that call was given, with the reference of the latest call so far that gave one, or zeros |
| `ScoHandoff.CallIsServed` | apps/audioplayers/bt_sco_chain_cp.c:89-185 | a call made while nothing is under way is served by ten steps, and nothing is under way afterwards |
| `ScoHandoff.EveryListIsServed` | apps/audioplayers/bt_sco_chain_cp.c:89-232 | progress: for any list of legal requests there is a run that serves them all |
| `Crc32.Shift8Linear` | tools/generate_crc32_of_image.py:7-61 | eight bit-steps are linear over exclusive or |
| `Crc32.LookupIsShift8` | tools/generate_crc32_of_image.py:7-61 | each of the 256 table entries is the eight-step remainder of its index |
| `Crc32.StepIsShift8` | tools/generate_crc32_of_image.py:70-72 | one table step is eight bit-steps on register and byte |
| `Crc32.CreateCrc32` | tools/generate_crc32_of_image.py:66-73 | the table algorithm computes the bit-at-a-time reflected CRC-32 of every byte string |
| `Crc32.CheckValue` | tools/generate_crc32_of_image.py:66-73 | the checksum of the digits 1 to 9 is 0xCBF43926, the check value of this CRC |
| `Crc32.RegisterSplits` | tools/generate_crc32_of_image.py:66-73 | the register carries on from any point of the message |
| `Crc32.RegisterInjective` | tools/generate_crc32_of_image.py:66-73 | registers that differ stay different whatever follows |
| `Crc32.OneByteIsDetected` | tools/generate_crc32_of_image.py:66-73 | changing any one byte of an image changes its checksum |
| `QosFreq.FieldOfPlace` | apps/common/app_utils.c:149-151 | a user's five bits read back what was written and no other user's change |
| `QosFreq.FieldOfClear` | apps/common/app_utils.c:153-154 | a release clears that user's bits only |
| `QosFreq.LiveOfMark` | apps/common/app_utils.c:151-154 | liveness bits are independent |
| `QosFreq.Allocator.constructor` | apps/common/app_utils.c:108-120 | nobody has asked for anything |
| `QosFreq.Allocator.SumRequests` | apps/common/app_utils.c:157-167 | the sum of the MHz of the live users |
| `QosFreq.Allocator.FindLevel` | apps/common/app_utils.c:169-187 | the least level covering the sum, or the top level if none does |
| `QosFreq.Allocator.QosFreqReq` | apps/common/app_utils.c:122-201 | rejections change nothing; otherwise that user's request is replaced and the least covering level is asked for |
| `QosFreq.Allocator.SysFreqReq` | apps/common/app_utils.c:203-215 | users of the map go through the allocator, all others straight on |
| `QosFreq.UpdateDenotes` | apps/common/app_utils.c:148-155 | a request replaces that user's live request and touches no other |
| `QosFreq.UpdateKeepsCanonical` | apps/common/app_utils.c:148-155 | live fields hold a level other than 0, all others are zero |
| `QosFreq.UpdateMovesTotal` | apps/common/app_utils.c:148-167 | a request or release changes the demand by exactly the difference to the request it replaces |
| `QosFreq.TotalOfTwo` | apps/common/app_utils.c:42-48 | two live requests alone add up |
| `QosFreq.TwoUsersExample` | apps/common/app_utils.c:42-48 | the example of the source: two users that ask for 26 MHz get 52 MHz, level 2 and no other |
| `QosFreq.PlaceOfUser` | apps/common/app_utils.c:84-92 | the place of every user of the enumeration, or none |
| `QosFreq.WordsDenoteLatest` | apps/common/app_utils.c:122-201 | after any run the two words denote exactly each user's latest live request |
| `QosFreq.RunDemandsLatest` | apps/common/app_utils.c:122-201 | after any run the demand is the sum over all users of the MHz of their latest request |
| `QosFreq.TablesOfTheSource` | apps/common/app_utils.c:63-82 | both frequency tables of the source, with and without holes, start at 0 and ascend apart from holes |
| `QosFreq.LeastCoverMeans` | apps/common/app_utils.c:169-187 | a level covers the demand if and only if it names at least as many MHz as the chosen one |
| `QosFreq.RequestIsMetIff` | apps/common/app_utils.c:42-48 | whoever else has asked: a live request is met if and only if its level names some MHz or the demand of all users exceeds everything below it |
| `QosFreq.RunMeetsIff` | apps/common/app_utils.c:122-201 | the same after any run of requests and releases, for each user's latest request |
| `QosFreq.AloneIsGrantedIff` | apps/common/app_utils.c:157-187 | in particular one live request alone is granted if and only if its level is no hole of the table |
| `QosFreq.HoleWitness` | apps/common/app_utils.c:122-201 | with the table that has holes, a run whose only request is for 36 MHz is answered with level 0 |
| `QosFreq.HoleBesideOthers` | apps/common/app_utils.c:122-201 | beside a request for 48 MHz the same request is met |
| `CvsdDelay.Decoder.constructor` | apps/audioplayers/bt_sco_codec_cvsd.c:87-91 | the carry is CVSD_OFFSET_BYTES of mute |
| `CvsdDelay.Decoder.Realign` | apps/audioplayers/bt_sco_codec_cvsd.c:148-150 | one packet in, the oldest packet out, the rest carried |
| `CvsdDelay.Decoder.Decode` | apps/audioplayers/bt_sco_codec_cvsd.c:138-182 | a call replaces its buffer by what the delay line gives out and counts mute packets |
| `CvsdDelay.DelayedJoins` | apps/audioplayers/bt_sco_codec_cvsd.c:147-182 | two inputs one after the other are one input |
| `CvsdDelay.GroupingIsInvisible` | apps/audioplayers/bt_sco_codec_cvsd.c:138-182 | over any sequence of calls the stream decoded is the initial mute bytes followed by the input, however grouped, and the carry is its last bytes |
| `CvsdDelay.MuteLinesUp` | apps/audioplayers/bt_sco_codec_cvsd.c:147-160 | mute that fills no packet of the input, but ends as many bytes before a boundary as are carried, leaves the line as one whole packet and is counted |

## Left out

- Hardware, DMA, timers, RTOS objects, traces and dumps: they are atomic steps or do not appear. Hang asserts after busy waits are part of no claim.
- Codecs and signal processing (SBC, AAC, LDAC, LHDC, packet loss concealment, noise suppression, resamplers): their bytes are parameters. `sco_cp_algo` is any function of its memory and input that fits its buffers.
- The mSBC checksum is any predicate of the packet: `sbc_crc_tbl` is not part of this model. The pad check and the trailing-zero check are compiled out.
- Loads of LDAC, SBC and LHDC on the co-processor, and the latency field of LHDC: the same ring as AAC with another header.
- Resetting a queue while a run is going on (`ResetCQueue`), and the retry loops around a full queue: the caller of the model decides when to store again.
- LhdcAssembler.Assembler.Start: an unfragmented payload is copied without a length check in the source, so the 4096-byte bound is demanded of the caller; copies are not followed beyond the buffer.
- LhdcAssembler.Assembler.Assemble: the same bound, for the same reason.
- LhdcAssembler.ReassemblyIsExact: single packets of more than 4096 bytes are not well formed, for the same reason.
- DecodeSlots.SlotBuffer.DecodeFrame: a write beyond its slot is recorded as an overrun and not followed into the neighbouring memory; byte claims hold for runs without one.
- A2dpPipeline.McuCopyKeeps: the copy is one step; that MCU and co-processor use disjoint cells meanwhile is what the invariant states. The decoder's own copy out of the ring is one step likewise.
- A2dpPipeline.DeliveryIsExact: packets of 65536 bytes or more, whose length does not fit the two bytes stored for it; and the reset of queue and ring that a bad header asks for.
- A2dpInCache.InCache.constructor: ring positions and `cp_dec_idx` start at 0 as zeroed memory; the initialiser does not set them.
- ReframerRuns.ReframingIsFifo: the algorithm between the queues is the pass-through copy of the voice channel that the file contains; other channel configurations are not modelled.
- MsbcDecoder.RunInSync: real drift of the packet phase is excluded by its hypothesis, and `MsbcDecoder.AlignmentIsExact` takes the first header of the stream for that of a packet; what the code does with drift is in `MsbcDecoder.SyncKeptIff` and `MsbcDecoder.PacketFollowsHeader`. `next_frame_flag` is never set in the source and does not appear. At phase 1 with a late header the source reads one byte beyond the buffer; the model takes zero for it.
- MsbcDecoder.Aligner.DecodeCall: calls of 60 or 120 bytes, which is what the window of 181 bytes has room for.
- Chips that mute with 0x00 instead of 0x55.
- Reframer.Queues.constructor: 640 zeros stand for the 640 samples that line 352 reads, half of them from beyond a buffer.
- Upsampler.Fir.Run: signed overflow is modelled as two's complement wrap; ratios 4 and 5, for which the tables have no rows, are not supported.
- QosFreq.Allocator.constructor: the frequency table is a parameter as long as the enumeration of levels, and its entries are small enough for the sum to fit in 32 bits. Builds with AUD_PLL_DOUBLE are not covered: there the enumeration has 24 levels and the table 20 entries, levels 20 to 23 pass the check at line 131 and index past the table, and the level of last resort is 23. What `hal_sysfreq_req` does with the level is outside.
- QosFreq.Allocator.FindLevel: the level of last resort is the last of the table, for the same reason.
- QosFreq.Allocator.QosFreqReq: the same builds.
- QosFreq.Allocator.SysFreqReq: the same builds.
- The RPC transmit and receive handlers behind the command table, the wait for a response, and `rpc_bth_dsp_send_data_wait_rsp`.
- RpcLink.MessagesArriveInOrder: taking the next number, sending and the push at the far end are one step. Two threads of one core that take numbers at the same moment, and the order in which their packets then go out, are not modelled; the receiver does not look at the number.
- `find_key_word` of the checksum tool and the rest of its command line.
- `packet_loss_detection_report`, balance, RSSI and load estimates in floating point, battery averaging, allocators: easy or out of reach.
- Configuration tables, key and user-interface dispatch, mode switches, and code that is compiled out.
