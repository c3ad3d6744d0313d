# Receive pipeline of gr-pico: a verified model

gr-pico receives VITA 49 data from a DRS radio over UDP and hands complex samples
to GNU Radio. This project models that receive pipeline and proves what it
promises: which bytes become which frames, which frames become which packets, and
which packets become which samples, across all the threads involved.

| file | what it models |
|---|---|
| `Words.dfy`, `Modular.dfy` | bytes, little-endian words, wrapping `size_t`; remainders |
| `VrtPacket.dfy` | the VRT packet header, optional-field layout and accessors |
| `VrlFrame.dfy` | the alignment search, the packet walk, the frame parser, a frame writer |
| `Reassembly.dfy` | one pass over a receive buffer; runs over any sequence of chunks |
| `Gaps.dfy` | streams with words between the frames, and when splitting them loses frames |
| `FrameLoop.dfy` | the same, as an object working in place on the buffers |
| `LossReports.dfy` | the frame and packet counters behind the F and L messages |
| `Listener.dfy` | the UDP listener: the receive loop, its double buffer, the hand-over |
| `ReceivePath.dfy` | listener and frame loop together; where payloads lie in memory |
| `TaskWorker.dfy` | the worker handshake, mutex and condition variable included |
| `Streams.dfy`, `StreamManager.dfy` | per-stream double buffers: as values, and as objects updated in place |
| `Pipeline.dfy` | consumer, main loop, workers and listener as one system of steps, and its invariant |
| `Delivery.dfy` | what every run of that system guarantees |
| `WorkerOrder.dfy` | two runs that differ only in the workers' timing and choice |
| `FillBuffers.dfy` | what a call of `fill_buffers` returns, exactly |
| `Progress.dfy` | how calls of `fill_buffers` and `update_tuners` come to their end |
| `UpdateTiming.dfy` | when an update in the midst of `fill_buffers` would do harm |
| `PacketLoop.dfy` | the packet loop on top of that system: from packets sent to samples accepted |
| `LoopProgress.dfy` | how the packet loop gets through its packets, and when one has to wait |
| `AlignedBuffer.dfy` | aligned allocation with wrapping arithmetic |

Code that works in place (`FrameReader`, `UdpListener`, `BufferManager`, `Manager`,
`ProcessPacket`, `Make`, the parser's loops) is modelled by methods that are proved
equal to functions on values; the lemmas are about those functions. In
`Pipeline.dfy` the number of streams and of workers is arbitrary, each action is one
atomic step of one thread, and the functions of `Streams.dfy` say what a step does,
the same functions that `StreamManager.dfy`'s methods are proved against. A packet
is accepted in one step: everything the main loop touches between choosing a worker
and waking it is its own until the wake-up. Waking, running and coming to rest again
follow the four phases that `TaskWorker.dfy` proves the handshake to refine.

## What the code relies on

These are not checked by the code; they appear as preconditions or guards.

- A frame makes the byte index move, and what is left of a buffer fits the overflow
  buffer. Otherwise the loop stands still, or copies past the end of the buffer;
  `ProcessBuffer` reports either as a fault and says exactly when. `ParseProgress`
  shows that the index stands still only for a size field of zero at the very start,
  `OverflowsExactly` that too much is saved exactly if more than 40000 bytes lie
  behind the last frame found and start with an unfinished one. `ChunkIndependence`
  proves that neither happens for any stream of well-formed frames.
- Frames have at least 5 words, the least the parser looks at, and at most 40000
  bytes (`WellFormed`, which `EncodedFrameWellFormed` shows to be no more than that
  for written frames). For frames of fewer than three words the packet bound is void
  (`PacketsInsideFrame`).
- The low byte of a data packet's stream id is not the number of streams: the bound
  check lets that one value through (outcome `BeyondArray` of `DispatchPacket`).
- `handle_update` does not fall between the scan of `fill_buffers` and the end of
  its copies (guard of `Perform`). `UpdateDuringScan` and `UpdateDuringCopies` say
  exactly when such an update would make a count go below zero, `ScanCanBeHit` and
  `CopiesCanBeHit` give runs that come to such a point. The tuners passed to
  `fill_buffers` are the valid streams (action `Copy`).
- No worker is woken while its loop is at the top, before a wait (`Punctual`).
  `PunctualExactly` proves that this is the exact condition under which no call is
  lost, `PatientIsPunctual` that a caller who lets the loop reach its first wait
  keeps it; `EarlyCallLost` is a run that does not. `EveryCallServed` proves that
  otherwise every call can be brought to its end.
- The alignment is a power of two (`PadExact`).

A packet too short for its own fields is not among these: its payload size wraps to
an enormous number, so it never finds room and is sent round for ever
(`DispatchPacket`).

## Where comments and code differ

- `complex_manager.h:119-121` promises one L per packet lost. The code prints one per
  gap, and none when a multiple of 16 packets is missing. `OneReportPerLoss` proves
  that the promise holds exactly when no two consecutive packets are lost.
- The repository's `README.md:27` says that an F comes with at least one L. The two
  counters are independent. `FrameAndPacketLoss` proves that at a gap there is an F
  and no L for a stream exactly if the frames lost are not a multiple of 4096 and the
  stream's packets in them are a multiple of 16; `FrameLossWithoutPacketLoss` gives
  such a case for any stream.
- `complex_manager.cpp:452-453` says that after an exception the index moves by one
  word. The code drops the rest of the buffer, all frames in it included
  (`DropsTheRest`, `UnknownTypeThrows`).
- The packet loop of `vita49.cpp:562-576` looks at one packet header even if a frame
  has none, and takes the trailer for it. `ParseEncode` proves that a frame without
  packets is parsed as such exactly if its trailer reads as a header of size zero.
  The standard trailer VEND does not: such a frame is saved again and again, with
  everything behind it (`EmptyFrameStalls`, `StallsForever`).

## Model

| member | source | states |
|---|---|---|
| Reassembly.ChunkIndependence | lib/complex_manager.cpp:252-459 | for every stream of back-to-back well-formed frames, cut anywhere and split into chunks in any way (empty ones included), the run finds exactly the complete frames in order, equals one pass over the unsplit bytes, and saves exactly a proper part of the next frame, which fits the overflow buffer |
| Reassembly.FeedFrames | lib/complex_manager.cpp:270-284 | resuming from any saved tail and feeding the remaining chunks equals consuming tail and chunks at once |
| Reassembly.WholeFrame | lib/vita49.cpp:513-577 | a complete frame parses to the same result whatever bytes follow it |
| Reassembly.PartialFrame | lib/vita49.cpp:548-554 | every proper part of a well-formed frame is reported as incomplete, never as an error that drops data |
| Reassembly.ParseProgress | lib/complex_manager.cpp:301-310 | a parsed frame moves the byte index forward and never past the end, except exactly for a size field of zero in the first word pair |
| Reassembly.EncodedFrameWellFormed | lib/vita49.cpp:513-577 | the bytes of a frame a sender writes are well formed, as the chunk theorems assume, if and only if it has at least 5 words and at most 40000 bytes |
| Gaps.GapLosesFrame | lib/complex_manager.cpp:430-458 | behind any non-empty gap without alignment words, for every well-formed frame, there is a chunk boundary with which the run finds no frame of that length, while the unsplit pass finds it |
| Gaps.SplitsAgreeExactly | lib/complex_manager.cpp:252-459 | for a stream of gaps and well-formed frames, all ways of splitting it into chunks give the result of the unsplit pass if and only if every gap is empty |
| Reassembly.StopsAt | lib/complex_manager.cpp:430-459 | a pass goes on to the first place where parsing fails or stands still, saves everything from there on exactly for incomplete data, and drops it otherwise |
| Reassembly.OverflowsExactly | lib/complex_manager.cpp:439-448 | what is saved exceeds the overflow buffer if and only if more than 40000 bytes lie behind the last frame found and start with an unfinished frame |
| Reassembly.DropsTheRest | lib/complex_manager.cpp:451-458 | after an exception all frames behind the offending one in the buffer are lost, and exactly those before it are found |
| Reassembly.UnknownTypeThrows | lib/vita49.cpp:562-576 | a frame with a packet of unknown type is such an offender whatever follows it |
| Reassembly.EmptyFrameStalls | lib/vita49.cpp:561-576 | a frame without packets whose trailer reads as a packet header with a size is never got past: the whole buffer is saved |
| Reassembly.StandardTrailerStalls | lib/vita49.cpp:556-559 | a frame without packets and with the trailer VEND is such a frame |
| Reassembly.StallsForever | lib/complex_manager.cpp:272-284 | from then on every run saves all bytes that come, without bound |
| FrameLoop.FrameReader.ProcessBuffer | lib/complex_manager.cpp:252-458 | working in place on any buffer, the frames, saved bytes, frame counter and F reports are those of the pass over saved and received bytes, the received bytes are left alone, and a fault occurs exactly when that pass stands still or saves more than 40000 bytes |
| FrameLoop.FrameReader.ParseBuffer | lib/complex_manager.cpp:287-458 | the inner loop computes the pass over the bytes from the index to the end |
| FrameLoop.FrameReader.TakeSaved | lib/complex_manager.cpp:272-284 | the saved bytes end up directly in front of the received ones, which are untouched |
| FrameLoop.FrameReader.SaveRest | lib/complex_manager.cpp:439-450 | the saved bytes are exactly the unparsed rest of the buffer, and it is too much exactly above 40000 bytes |
| FrameLoop.FrameReader.ParseNext | lib/complex_manager.cpp:296-310 | each outcome of a parse call is one step of the pass over the buffer |
| FrameLoop.FrameReader.CheckFrameCount | lib/complex_manager.cpp:313-324 | the counter takes the frame's count, and one F report is logged as expected and received counts differ |
| ReceivePath.FramesReceived | lib/udp_listener.cpp:122-151 | however datagrams arrive and switches are requested, without a flush the frames parsed are the first frames sent, and every received byte is in a parsed frame, in the saved tail or still in the listener |
| ReceivePath.NoFalseFrameLoss | lib/complex_manager.cpp:313-324 | frames numbered consecutively modulo 4096 produce no F over any such run |
| ReceivePath.CollectAndProcess | lib/complex_manager.cpp:252-284 | the manager processing a chunk in the listener's own buffer keeps the listener's data and state valid, meets everything the code relies on, and advances the run by exactly that chunk |
| ReceivePath.PayloadInBuffer | lib/complex_manager.cpp:411-416 | the payload address and count the code computes from a parsed frame select, in the receive buffer, exactly the payload words the packet carries |
| Listener.ReceiveBound | lib/udp_listener.cpp:122-135 | in every reachable state the write index is below the limit and a whole datagram fits the allocation |
| Listener.FlushesExactly | lib/udp_listener.cpp:128-151 | a turn flushes if and only if its datagram is not empty and leaves no more than one datagram's room in the allocation, 319860000 bytes in all; then everything is dropped, and otherwise nothing |
| Listener.NeverFlushes | lib/udp_listener.cpp:128-151 | a run never flushes if and only if no datagram comes that, with all bytes since the last answered request, leaves no more than that |
| Listener.PendingSinceEmptied | lib/udp_listener.cpp:128-135 | the receive buffer holds, in order, exactly the datagrams since it was last emptied |
| Listener.ChunkContents | lib/udp_listener.cpp:137-151 | a served request hands over exactly the datagrams since the later of the last flush and the last hand-over |
| Listener.OverflowReport | lib/udp_listener.cpp:137-141 | an O is printed at a served request if and only if at least one flush happened since the one before |
| Listener.NothingLost | lib/udp_listener.cpp:118-151 | without a flush, chunks handed over followed by pending bytes are all datagrams, in order |
| Listener.UdpListener.LoopTurn | lib/udp_listener.cpp:122-151 | one turn of the loop, in place, is one step of the model; the headroom and the side handed over are not touched |
| Listener.UdpListener.ReceiveLoop | lib/udp_listener.cpp:118-151 | over any number of datagrams without a request the side handed over and the headroom of the other stay as they were, and no reply is made |
| Listener.UdpListener.Serve | lib/udp_listener.cpp:137-151 | answering a request swaps sides only if there is data, and publishes exactly that data |
| Listener.UdpListener.Fill | lib/udp_listener.cpp:128-135 | a datagram is appended, or, if and only if no more than one datagram's room would be left in the buffer, everything is flushed |
| Listener.UdpListener.Collect | lib/udp_listener.cpp:63-79 | the returned region holds the last reply, and lies on the side not being written whenever its length is positive |
| VrlFrame.ParseFrame | lib/vita49.cpp:513-577 | the constructor's loops compute the specification of the parser |
| VrlFrame.FindAlignment | lib/vita49.cpp:523-535 | the word-by-word search stops where the specification says |
| VrlFrame.ParsePackets | lib/vita49.cpp:562-576 | the do-while loop pushes exactly the packets of the walk, or fails as it does |
| VrlFrame.SkipFindsFirst | lib/vita49.cpp:523-541 | the search succeeds at k if and only if k is the least index of an alignment word with at least 20 bytes left |
| VrlFrame.SkipFailsExactly | lib/vita49.cpp:537-541 | the search fails if and only if there is no such index |
| VrlFrame.AlignmentBytes | lib/vita49.cpp:523-526 | an alignment word is, in memory, one of two strings of four bytes |
| VrlFrame.WalkTiles | lib/vita49.cpp:561-576 | the walk returns a list if and only if the list tiles the frame from word 2 to its trailer, or to a packet of size zero |
| VrlFrame.WalkStops | lib/vita49.cpp:561-576 | for every outcome, the adjacent packets accepted before it and the header that caused it |
| VrlFrame.PacketsInsideFrame | lib/vita49.cpp:566-569 | packets stay inside the frame exactly when it has three words or no packet |
| VrlFrame.ParsedFrameFits | lib/vita49.cpp:543-554 | a parsed frame starts at the first alignment word, has the size and count stored there, and lies inside the input |
| VrlFrame.ParseExactly | lib/vita49.cpp:513-577 | the outcome on every input: which inputs lack data, which are an error, and which are a frame, with which packets |
| VrlFrame.WalkExactly | lib/vita49.cpp:561-576 | the walk over three words or more fails if and only if, behind adjacent packets, it comes to one that reaches too far, or to one of unknown type |
| VrlFrame.ParseEncode | lib/vita49.cpp:513-577 | after words without an alignment word and whatever follows, a written frame with any list of packets parses to its count, size and packets if and only if it has a packet or its trailer reads as a header of size zero; otherwise to the error given |
| VrlFrame.PacketsReadBack | lib/vita49.cpp:561-576 | each packet of a written frame is found whole, with all its fields |
| VrlFrame.StandardTrailer | lib/vita49.cpp:556-559 | VEND reads as a header of type 5 and of 0x4E44 words |
| VrlFrame.EncodeParse | lib/vita49.cpp:513-577 | a parsed frame with well-formed packets up to its trailer is the encoding of what was read from it |
| VrlFrame.InfoBitLayout | lib/vita49.cpp:501-505 | size is the low 20 bits and count the high 12 |
| VrtPacket.HeaderBitLayout | lib/vita49.cpp:39-60 | every header field is the run of bits that declaration order gives it |
| VrtPacket.HeaderRoundTrip | lib/vita49.cpp:39-60 | the header word of any header reads back as that header |
| VrtPacket.FieldLayout | lib/vita49.cpp:449-489 | the offsets of all fields are the prefix sums of the reference layout, for every setting of type, c, t, tsi and tsf |
| VrtPacket.LayoutOfWord | lib/vita49.cpp:257-271 | from the header word alone, by a table of the packet types and bits 20 to 27: every field's offset, whether the size has room for the fields, and the payload's size |
| VrtPacket.PayloadSizeExact | lib/vita49.cpp:379-392 | the wrapping payload size lies inside the packet if and only if the packet has room for its announced fields, and is then the layout's |
| VrtPacket.DecodeEncode | lib/vita49.cpp:240-419 | reading an encoded packet returns every field, whatever follows it |
| VrtPacket.EncodeDecode | lib/vita49.cpp:240-419 | a well-formed packet's fields re-encode to exactly its words |
| VrtPacket.AccessorsReadBack | lib/vita49.cpp:273-419 | each accessor throws exactly when the sender left the field out, and otherwise returns what was sent, the fractional time as its high and low half |
| VrtPacket.AccessorsOfWords | lib/vita49.cpp:273-419 | on every well-formed packet each accessor throws or returns just the words that the packet type and the header bits say; a data packet's stream id is its second word |
| LossReports.ReportsExactly | lib/complex_manager.cpp:313-324 | a loss is printed exactly for counts that are not the first and do not follow the one before modulo 4096 or 16 |
| LossReports.SilentRun | lib/complex_manager.cpp:378-390 | a run without a report has consecutive counts from its first one on |
| LossReports.ConsecutiveIsSilent | lib/complex_manager.cpp:378-390 | consecutive counts cause no report |
| LossReports.GapReported | lib/complex_manager.cpp:387-390 | a gap is reported if and only if the number of missing items is not a multiple of 4096 or 16 |
| LossReports.OneReportPerLoss | lib/complex_manager.h:116-122 | never more reports than losses, and equally many if and only if no two consecutive items are lost |
| LossReports.StreamGap | lib/complex_manager.cpp:373-390 | what a stream loses between two frames that arrived is what the lost frames carried of it |
| LossReports.FrameAndPacketLoss | lib/complex_manager.cpp:313-390 | at every gap there is an F exactly if the frames lost are not a multiple of 4096, and an L for a stream exactly if its packets in them are not a multiple of 16 |
| LossReports.FrameLossWithoutPacketLoss | lib/complex_manager.cpp:319-322 | one lost frame with sixteen packets of a stream causes an F and no L for it |
| TaskWorker.ExactlyOneRunPerCall | lib/task.cpp:43-66 | in every interleaving without a call too early each wake-up is run exactly once, and is_running being false means that all are run to the end |
| TaskWorker.RefinesPhases | lib/task.cpp:43-66 | such a run refines a worker with four phases; is_running is "not idle" |
| TaskWorker.EveryCallServed | lib/task.cpp:43-66 | a punctual run has a finite continuation, by steps of the loop and of the call under way alone and without a wait that ends unnotified, in which every call made has been run to its end and the loop waits, if and only if the caller does not hold the mutex to set the flag while the loop is at the top; the continued run is punctual |
| TaskWorker.NextCallServed | lib/task.cpp:43-66 | the next call can then be made, and is run to its end in the same way |
| TaskWorker.DoomedIsLost | lib/task.cpp:49-64 | in the excepted state, whatever the steps, one call is never run |
| TaskWorker.PunctualExactly | lib/task.cpp:49-64 | every call is accounted for in every state of a run if and only if no call sets the flag while the loop is at the top |
| TaskWorker.EarlyCallIsLost | lib/task.cpp:49-64 | after a call that does, every later state is one run short |
| TaskWorker.PatientIsPunctual | lib/task.cpp:49-64 | a caller that makes no call before the loop's first wait is never too early |
| TaskWorker.EarlyCallLost | lib/task.cpp:49-64 | a run in which a wake-up before the first wait is lost |
| Delivery.Reachable | lib/complex_manager.cpp:126-465 | every reachable state of the thread system satisfies the invariant |
| Delivery.SampleConservation | lib/complex_manager.cpp:181-212 | samples accepted are those delivered, those unread and those of the write side, each slot written or still owed by a worker |
| Delivery.Fifo | lib/complex_manager.cpp:181-194 | between updates deliveries only append and are a prefix of what was accepted |
| Delivery.FlipPublishes | lib/complex_manager.cpp:196-212 | a flip happens with no worker active, discards only delivered sides, and makes readable only slots that hold their samples |
| Delivery.WritesAreUnread | lib/complex_manager.cpp:480-499 | a worker never writes a readable side and stores exactly the accepted sample |
| WorkerOrder.ScriptsAlike | lib/complex_manager.cpp:396-428 | two runs from the same state that do the same apart from the workers' steps and choice stay the same in everything but the workers and the samples stored |
| WorkerOrder.OrderIrrelevant | lib/complex_manager.cpp:396-428 | if moreover no worker is active at their ends, they have accepted and delivered the same samples, have the same counts and hold the same samples on both sides |
| Delivery.BoundsHold | lib/complex_manager.cpp:183-190 | copies and stores stay inside the buffers and counts never go below zero, in every reachable state |
| Progress.NoDeadlock | lib/complex_manager.cpp:152-171 | in every reachable state with a fill_buffers call in progress the consumer, the main loop or a worker can take a step that lowers a rank of what the call has ahead of it |
| Progress.CallReturns | lib/complex_manager.cpp:126-194 | every run can be continued by finitely many such steps, and nothing from outside, until the call has come back |
| Progress.UpdateReturns | lib/complex_manager.cpp:107-124 | every run with a call of update_tuners pending can be continued by finitely many steps of the pipeline's own threads until the call has come back and exactly the streams asked for are valid |
| Progress.NeverTurnedAway | lib/complex_manager.cpp:107-124 | in every state that keeps the invariant update_tuners can be called for any streams unless an update is pending, changing only what is asked for, and the listener can store what it receives, changing only the side not in use |
| Delivery.ScanResult | lib/complex_manager.cpp:139-150 | the completed scan gives the least of the asked amount and the valid streams' counts, and marks exactly the valid empty streams |
| Delivery.FillBuffersResult | lib/complex_manager.cpp:126-194 | a call that comes back does so after at most ten scans with at most the asked amount, having delivered exactly that many samples of every valid stream and none of others; one made while an update is pending comes back at once with 0 |
| FillBuffers.EntryExactly | lib/complex_manager.cpp:131-138 | a call can be made whenever none is in progress, for any amount; it, and each further attempt, returns 0 at once if an update is pending and otherwise begins a scan for the whole amount |
| FillBuffers.ResultExactly | lib/complex_manager.cpp:126-194 | the result of a call that scans is the least of the asked amount and what the valid streams had to read at its last scan, and that least was 0 at every scan before; a call that does not scan found an update pending and returns 0; the safety count it leaves |
| FillBuffers.LeastIs | lib/complex_manager.cpp:139-150 | that least is unique, and 0 for a call that asks for something if and only if a valid stream has nothing to read |
| FillBuffers.NothingOnlyIf | lib/complex_manager.cpp:152-171 | a call that asks for something returns nothing only if an update was pending at an entry, or each scan found a valid stream with nothing to read and the scans since a call last came to its own end are ten |
| FillBuffers.GivesUpEarly | lib/complex_manager.cpp:131-170 | a reachable call that gives up after nine scans: the one before it was cut short by an update, and its scan still counts |
| Delivery.SafetyCount | lib/complex_manager.cpp:131-170 | the safety count is below NUM_RECURSIVE at every entry, also after the early return |
| Delivery.DispatchTiles | lib/complex_manager.cpp:362-428 | between flips the ranges handed to workers are consecutive and fill exactly the growth of the write count, which stays below the buffer size |
| Delivery.PacketLossReports | lib/complex_manager.cpp:373-390 | a stream's L reports are those of its counter over the packets accepted, retries counted once |
| Delivery.PacketLossSinceUpdate | lib/complex_manager.cpp:214-230 | since an update an L is printed exactly for packets that are not the first and do not follow the one before modulo 16 |
| Delivery.TunersTakeEffect | lib/complex_manager.cpp:108-124 | a call of update_tuners takes effect at the next update as a whole and not before |
| UpdateTiming.UpdateDuringScan | lib/complex_manager.cpp:139-190 | an update during the scan makes fill_buffers take more than a stream has, whatever the other threads do until the scan ends, if and only if the minimum so far is not zero, no stream still to be scanned is valid after it, and some stream was asked for |
| UpdateTiming.UpdateDuringCopies | lib/complex_manager.cpp:181-190 | an update during the copies does so if and only if a stream asked for has not been copied yet |
| UpdateTiming.ScanCanBeHit | lib/complex_manager.cpp:139-165 | a reachable state in the midst of a scan with such an update due |
| UpdateTiming.CopiesCanBeHit | lib/complex_manager.cpp:181-190 | a reachable state in the midst of the copies with such an update due |
| PacketLoop.SentIsAccepted | lib/complex_manager.cpp:252-459 | for every split into chunks, every interleaving and all tuners set meanwhile: what a valid stream has accepted since the last update is the converted payloads of the packets for it among those looked at since, in the order sent, each once; what was delivered is the start of that; when everything fetched has been looked at, that is all packets of the frames complete by then |
| PacketLoop.NothingHeldBack | lib/complex_manager.cpp:328-428 | with an idle worker the next data packet can be dispatched if and only if its stream is valid and the buffer being written is longer than what it holds with the packet's samples; the next chunk can always be taken over |
| PacketLoop.BufferCarried | lib/complex_manager.cpp:410-416 | in a buffer that holds whole frames, every packet's computed address and count select exactly its payload |
| PacketLoop.ParcelsOfImage | lib/vita49.cpp:240-419 | what the loop takes from a written frame is, packet by packet, the header and payload the sender put in and, for the types 1, 3, 4 and 5, the low byte of the stream id |
| PacketLoop.IdOfParcel | lib/complex_manager.cpp:345-347 | the id the loop uses for a data packet is the low byte of what get_stream_id returns for it |
| PacketLoop.HandedOverClean | lib/udp_listener.cpp:118-151 | the chunks of a run of the listener without a flush are such a split |
| PacketLoop.LoopReaches | lib/complex_manager.cpp:328-428 | every state the packet loop comes to is one the pipeline can reach, so all results about its runs hold there |
| LoopProgress.LoopGoesOn | lib/complex_manager.cpp:233-428 | with a worker at least, every run has a finite continuation by the pipeline's own threads in which all chunks are fetched and all packets of their frames looked at, or that comes to a packet which has to wait for room or is looked up beyond the array |
| LoopProgress.HaltedMeans | lib/complex_manager.cpp:362-372 | a packet has to wait only if it is too short for its own fields, or if with it 20 million samples have come for its stream since the last update |
| Pipeline.InvStep | lib/complex_manager.cpp:126-502 | no step of any thread breaks the invariant |
| Pipeline.StreamFlip | lib/complex_manager.cpp:203-211 | swapping in a fully written side makes exactly its samples readable |
| Streams.ConvertFaithful | lib/complex_manager.cpp:481-494 | a sample's two signed halves determine the word, upper half real, lower half imaginary |
| StreamManager.Manager.ScanStreams | lib/complex_manager.cpp:139-150 | the loop computes the least readable count and marks exactly the valid empty streams |
| StreamManager.Manager.CopyStreams | lib/complex_manager.cpp:181-190 | each target gets the next unread samples of its stream, and only asked streams move on |
| StreamManager.Manager.FlipStreams | lib/complex_manager.cpp:203-211 | every flagged valid stream, and no other, is flipped |
| StreamManager.Manager.UpdateStreams | lib/complex_manager.cpp:221-229 | every stream is emptied and takes its new validity |
| StreamManager.Manager.UpdateTuners | lib/complex_manager.cpp:109-118 | a stream is to become valid exactly if its number is among the tuners |
| StreamManager.Manager.DispatchPacket | lib/complex_manager.cpp:337-427 | which packets are ignored, rejected, sent round again or accepted, or looked up beyond the array; one of a valid stream is accepted if and only if the buffer being written is longer than what it holds with the packet's samples; an undersized packet is always sent round; the first idle worker is chosen; other streams stay as they were |
| StreamManager.ProcessPacket | lib/complex_manager.cpp:472-502 | the target slots get the payload's samples and all others keep theirs |
| AlignedBuffer.PadExact | lib/aligned_buffer.cpp:26-30 | with wrapping arithmetic the padding is right if and only if the subtraction does not wrap or the alignment is a power of two |
| AlignedBuffer.PowersDivide | lib/aligned_buffer.cpp:26-30 | the alignments below 2^64 that divide 2^64 are exactly the powers of two |
| AlignedBuffer.PadPowerOfTwo | lib/aligned_buffer.cpp:26-30 | for powers of two it is the least multiple not below the size |
| AlignedBuffer.RoundsUpUnique | lib/aligned_buffer.cpp:26-30 | nothing smaller would do |
| AlignedBuffer.ThreeIsNotEnough | lib/aligned_buffer.cpp:26-30 | an alignment for which the padding is wrong |
| AlignedBuffer.Make | lib/aligned_buffer.cpp:32-54 | the buffers are aligned, long enough, pairwise disjoint and inside the allocation |

## Left out

- Sockets, `bind`, `recv` itself, sleeps and console output: `recv` is a datagram of 0 to PACKET_SIZE bytes, prints are logs.
- Shutdown (`stop`, thread interruption, `m_run` false) and a listener that is not connected: a request is then answered with length 0.
- Fairness of the scheduler: `CallReturns`, `UpdateReturns`, `EveryCallServed` and `LoopGoesOn` give continuations that come to the end, not that every schedule takes them.
- The division of samples by 32768 and their rounding to `float`: a sample is the pair of 16-bit values.
- The CPU's memory model: every flag read or write is one atomic step.
- `packet_info_string`, `frame_info_string`, `get_class_id`'s three parts, `get_timestamp_mode`, the trailer check (a todo in the code) and the big-endian layout.
- The comparison of the last word with VEND, which has no effect; for a frame size of zero it reads before the frame.
- StreamManager.Manager.DispatchPacket: does not say what the code finds beyond the array of streams for the one id it lets through; in `PacketLoop` such a packet is not passed.
- FrameLoop.FrameReader.ProcessBuffer: stops at a fault, because nothing is defined for the code from there on.
- PacketLoop.SentIsAccepted: takes frames that are back to back, as `ChunkIndependence` does, and no flush in the listener; with words between frames chunk boundaries decide which frames are found (`SplitsAgreeExactly`).
- `lib/boost_client.cpp`, `lib/pico_src_impl.cc`, `lib/pico_sink_impl.cc`, `lib/mne_helper.h`: radio commands, wall-clock throttling and volk calls.
- The in-place methods of `StreamManager` run one at a time; their interleaving is the subject of `Pipeline`, which uses the same functions on values.
