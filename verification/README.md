# Verified models of a QUIC transport

This project models the data structures, the codecs, the batching and the control logic of a QUIC
transport (a port of mvfst) and proves what they promise, for all inputs and over whole runs.
`dafny verify dfyconfig.toml` checks everything.

| file | models |
|---|---|
| `CircularDeque.dfy` | the growable ring buffer with insertion and erasure at any position, refined to sequences |
| `IntervalSet.dfy` | sorted disjoint intervals, refined to sets of numbers |
| `AckCodec.dfy`, `PacketNumber.dfy` | variable-length integers, ACK frames, packet numbers |
| `BufQueue.dfy` | the byte queue over a chain of buffers |
| `StreamSend.dfy`, `StreamReceive.dfy`, `StreamEndToEnd.dfy` | both halves of a stream, and in-order delivery across a network that loses, repeats and reorders |
| `GsoBatch.dfy`, `MultiGso.dfy` | the segmentation-offload batch writers, and the receiver that undoes them |
| `StartupDetection.dfy`, `Bbr.dfy`, `WindowedFilter.dfy` | bandwidth arithmetic, the BBR controller, the windowed maximum filter |
| `ByteEvents.dfy` | the registry of byte event callbacks |
| `RoundRobin.dfy` | the round-robin walk over the control streams |
| `FunctionLooper.dfy` | the wake-ups of a looper |

State that the program updates in place is a class whose methods are specified against functions of
its abstract value; the laws are lemmas about those functions. Ghost histories (frames sent, bytes
received, acknowledgements handled, notes given to callbacks) turn invariants into statements about
whole runs. What the socket, the clock, the random source, the samplers and the callbacks of the
application answer is a parameter.

## Findings

Properties that one would expect and that the code does not have. The members named give a failing case
and state when the property holds: exactly, as an if-and-only-if, except for the windowed filter, where
the condition is sufficient.

- Copy and list assignment of a deque (`AssignCopy`, `AssignList`, `CopyIsLost`, `ListIsLost`,
  `SelfAssignmentEmpties`): `clear` keeps `begin_` when the deque is empty already, and the assignment
  writes from slot 0. Assigning a deque to itself empties it.
- A GSO batch (`MaximumMustBeTwo`) exceeds a maximum below 2, because the first packet of a batch is
  never counted against it. The two GSO writers (`WritersAgree`) part ways after an empty packet, which
  no packet builder produces.
- A batch that the socket refuses is dropped (`OffloadIsTransparent`, `AllHasArrived`). `write` reports that
  only for the batch of its own packet; a batch that goes out first, to make room for a larger packet, is
  lost without notice (`WritePacket`, `SilentRefusal`). A socket that takes only some of the chains for
  several addresses is not reported either (`MultiBatch.WriteOut`).
- Packet number decoding (`DecodeRestores`, `WindowEdgeIsMissed`) compares strictly where appendix A.3 of
  RFC 9000 does not, and misses one number of the window.
- Booking a retransmission (`OrderKeptIffFits`, `HandleStreamWritten`, `LongerFrameBreaksOrder`) relies on
  the frame fitting the loss element; it is not checked.
- In background mode (`TransitToDrain`) Drain has a pacing gain of 1.4425, above the estimated rate.
- The windowed filter (`ForgetsALargerSample`) can report less than the maximum of its window. By
  `TopStaysBest` that takes a window maximum that was preceded by a larger sample which has left the window
  since; every other maximum is the best estimate for as long as it is the maximum.
- A looper (`OneCallPending`, `RunThenInstall`, `TwoStayTwo`) comes to have two pending calls exactly if
  its function calls `run` without a pacing timer, does not stop after that, and leaves with a timer that
  paces it. With functions that install none (`RunAndStopOnly`) there is always one. The comment on firing
  early says within one millisecond; rounding to whole milliseconds makes it less than two.

## Model

The main results come first, then the operations and the steps towards those results, file by file.

| member | source | states |
|---|---|---|
| `CircularDeques.CircularDeque.Emplace` | src/common/CircularDeque-inl.h:250-301 | for every valid deque and position, contents become the sequence with the element inserted there, and the returned iterator designates it |
| `CircularDeques.CircularDeque.Erase` | src/common/CircularDeque-inl.h:364-429 | for every valid deque and range, contents become the sequence without that slice, and the returned iterator designates the element that followed it, or the end |
| `CircularDeques.PerformAll` | src/common/CircularDeque-inl.h:214-429 | over every run of pushes, pops, emplaces, erases, clears and resizes the ring invariant holds and the contents are those of the sequence run |
| `CircularDeques.CircularDeque.AssignCopy` | src/common/CircularDeque.h:49-55 | what copy assignment leaves behind in every case, and that it equals the source if and only if no stale `begin_` survives and a non-empty deque is not assigned to itself |
| `CircularDeques.CircularDeque.AssignList` | src/common/CircularDeque-inl.h:33-42 | list assignment stores the list if and only if no stale `begin_` survives; otherwise even the number of elements is wrong |
| `RingLayout.Layout.DistanceTo` | src/common/CircularDeque.h:132-160 | the walk, in the direction chosen from the raw indices, terminates and returns the difference of the logical positions |
| `IntervalSets.CanonicalIsUnique` | src/common/IntervalSet.h:101-104 | two canonical containers denote the same set exactly if they are structurally equal |
| `IntervalSets.InsertionOrderIsIrrelevant` | src/common/IntervalSet-inl.h:15-20 | building from the same intervals in any order, with any repetition, gives the same container |
| `IntervalSets.IntervalSet.Insert` | src/common/IntervalSet-inl.h:23-43 | the in-place edit computes the union, keeps the container canonical and raises the version exactly on growth, in 64-bit arithmetic that never overflows |
| `IntervalSets.IntervalSet.Withdraw` | src/common/IntervalSet-inl.h:46-80 | the in-place edit computes the difference and keeps the container canonical, in 64-bit arithmetic that never overflows |
| `IntervalSets.IntervalSet.Contains` | src/common/IntervalSet-inl.h:83-94 | for `s <= e`, true exactly if every number of `[s, e]` is covered |
| `AckFrames.WriteAckFrame` | src/protocol/quic_write_codec.cpp:325-422 | the frame fits the packet, holds the largest intervals of the set, and no longer selection would fit; read integer by integer its bytes are the type, the fields and the pairs of the further blocks in the order of the standard; exactly when nothing is written, and why |
| `AckFrames.DecodedFrameOnWire` | src/protocol/parse.cpp:200-256 | both directions, for any bytes and any frame: block by block, the first integer of a pair is the gap and the second the length |
| `AckFrames.PeerLearnsLargestIntervals` | src/protocol/quic_write_codec.cpp:325-422 | end to end: the peer learns exactly the packets of the `k` largest intervals, the whole set when all were written, and the delay to within one unit |
| `AckFrames.DecodedFrameIsSpaced` | src/protocol/parse.cpp:200-256 | whatever the bytes, the blocks of an accepted frame are disjoint, descending and start at the largest acknowledged |
| `PacketNumbers.DecodeRestores` | src/protocol/quic_packet_num.cpp:28-44 | decoding restores a number if and only if it lies in the window around the expected one, with the exact edges of the code |
| `PacketNumbers.RoundTrip` | src/protocol/quic_packet_num.cpp:8-44 | a receiver that has seen the acknowledged packet and is less than half a window ahead restores the number |
| `BufQueues.BufQueue.SplitAtMost` | src/common/BufUtil.cpp:14-61 | the first `min(n, length)` bytes are returned, the rest stays, and `chainLength_` is the true total |
| `StreamReceive.Place` | src/state/quic_stream_function.cpp:126-216 | the read buffer stays sorted with gaps between its elements, and covers exactly the old positions and the new ones, with the bytes received there |
| `StreamReceive.ReceiveStream.Append` | src/state/quic_stream_function.cpp:77-216 | a frame is refused exactly if it contradicts the final size; otherwise exactly its bytes are added, whatever overlaps, and nothing read is disturbed |
| `StreamSend.SendStream.HandleStreamWritten` | src/api/quic_transport_function.cpp:525-585 | every frame is booked as new, retransmitted or cloned by its offset alone, a frame beyond the data sent is refused, and the stream invariant holds afterwards if and only if a frame booked against a loss element fits it |
| `StreamSend.OrderKeptIffFits` | src/api/quic_transport_function.cpp:467-491 | booking a retransmission keeps the loss buffer sorted and disjoint if and only if the frame fits the element it is booked against |
| `StreamSend.LostUntilSentOverRuns` | src/api/quic_transport_function.cpp:467-491 | over every run, a byte or FIN that is lost stays in the loss buffer until a frame that carries it goes out |
| `StreamEndToEnd.System.Step` | src/api/quic_transport_function.cpp:525-585 | over every run of writes, frames, losses, deliveries in any order and number, and reads: what each step writes, sends, loses and reads, exactly; the receiver holds exactly the bytes delivered and knows the end exactly from the FIN; what is declared lost waits in the loss buffer until a frame that carries it goes out |
| `StreamEndToEnd.System.InOrderDelivery` | src/state/quic_stream_function.cpp:276-301 | what the application reads is a prefix of what was written, and all of it once the end is reported (section 2.2 of RFC 9000) |
| `StreamEndToEnd.System.EverySentByteArrives` | src/api/quic_transport_function.cpp:419-441 | when every frame sent has been delivered, every byte sent has reached the receiver: the frames leave no gap |
| `StreamEndToEnd.System.ReadRest` | src/state/quic_stream_function.cpp:229-270 | when every byte has arrived, one read hands over all that is left, and reports the end exactly if the FIN has arrived |
| `GsoBatches.NothingLost` | src/api/io_buf_quic_batch.cpp:28-66 | for every run of writes and flushes, flushed batches followed by the pending one are the packets written, in order and once each |
| `GsoBatches.BatchesAreGood` | src/api/quic_batch_writer.cpp:164-207 | with a maximum of at least 2, in every run of writes and flushes every batch holds at most the maximum, all packets but the last of one size and the last no larger |
| `GsoBatches.NoneTooEarly` | src/api/quic_batch_writer.cpp:170-207 | over every run, no batch is handed over too early: it was full, or ended with a shorter packet, or the client flushed, or the next packet was larger |
| `GsoBatches.MaximumMustBeTwo` | src/api/quic_batch_writer.cpp:176-207 | the bound on batches holds for every run of writes and flushes if and only if the maximum is at least 2 |
| `GsoBatches.InplaceRefinesChained` | src/api/quic_batch_writer.cpp:218-260 | on packets with content the in-place writer forms the same batches in every run of writes and flushes |
| `GsoBatches.FlushDeliversAll` | src/api/io_buf_quic_batch.cpp:53-66 | after a final flush everything written has arrived if and only if the socket took every batch |
| `InplaceGso.InplaceBatch.WriteOut` | src/api/quic_batch_writer.cpp:262-316 | the pending batch is sent, and the buffer holds exactly the bytes of the deferred packet, moved to the front, or nothing |
| `MultiGso.MultiBatch.WriteOut` | src/api/quic_batch_writer.cpp:440-466 | at each address arrives a prefix of what was appended for it, and everything everywhere if and only if the socket took all chains; the number of chains taken and the result are exact, so a socket that takes some is not reported |
| `StartupDetection.StartupEnds` | src/congestion_control/bbr.cpp:610-631 | Startup terminates: with all estimates in `[lo, hi]` and `hi < lo * 1.25^k`, the bottleneck is found within `3 * k + 1` rounds |
| `StartupDetection.StartupOverIff` | src/congestion_control/bbr.cpp:610-631 | the bottleneck is found if and only if three estimates in a row have failed to grow by a quarter over the last one that counted |
| `BbrController.Bbr.Run` | src/congestion_control/bbr.cpp:106-254 | over every run: Startup only while the bottleneck is unknown, Drain and ProbeBw only once it is known, `btlbwFound_` never reverts, windows and lookups in range, ProbeRtt disciplined; what is in flight is what the events leave there, and every explicit ack that is looked at is in the log |
| `BbrController.EveryByteIsAccountedFor` | src/congestion_control/bbr.cpp:106-161 | conservation over every run without underflow: what was sent is in flight or has left with exactly one event |
| `BbrController.Bbr.OnPacketAcked` | src/congestion_control/bbr.cpp:163-254 | after an explicit ack round, recovery, state, clock, gains, cycle and log are exactly what the rules make of the state before, and after any ack the window and the send quantum; an implicit ack changes nothing else; the invariant holds |
| `BbrController.Bbr.HandleAckInProbeRtt` | src/congestion_control/bbr.cpp:354-382 | ProbeRtt is left exactly when the clock has run out and a round has started since; the clock starts with the first ack that finds little in flight; in the log, whose records hold the bytes in flight, the window and the states, every departure comes at least 200 ms after a low-inflight ack of the same stay and not before a later ack has started a round |
| `BbrController.Bbr.GetCongestionWindow` | src/congestion_control/bbr.cpp:582-601 | in ProbeRtt the window of ProbeRtt, in recovery the smaller of the two windows, otherwise `cwnd_`; it lies between the minimum and the maximum in every state, and only the starting window, before its first update, may lie outside |
| `WindowedFilters.TopStaysBest` | src/congestion_control/windowed_filter.h:83-131 | a sample that is the maximum of its window when it arrives is the best estimate, or one of its value is, until a larger one comes or it leaves the window |
| `WindowedFilters.RunTracks` | src/congestion_control/windowed_filter.h:83-131 | after every run the best estimate is a sample of the last window and at least as large as every sample since |
| `WindowedFilters.UpdateCases` | src/congestion_control/windowed_filter.h:83-131 | the same for the step that all results about runs are stated on |
| `ByteEvents.Registry.Register` | src/api/quic_transport_base.cpp:2363-2473 | every error case and the duplicate check exactly; on success one registration is added and told, and an answer is scheduled exactly if the offset was reached already |
| `ByteEvents.Registry.HandleDeliveries` | src/api/quic_transport_base.cpp:1654-1695 | afterwards no stream that moved has a callback left whose offset was reached, and no other stream was touched; every callback told was told delivery, once for exactly the entries that left the queues |
| `ByteEvents.Registry.CancelForStream` | src/api/quic_transport_base.cpp:1154-1213 | exactly the entries strictly below the bound are cancelled, in order; without a bound, all of them |
| `ByteEvents.Registry.CancelAll` | src/api/quic_transport_base.cpp:1220-1236 | exactly the entries that were waiting are told cancellation, once each; so every registration there ever was has been answered exactly once |
| `RoundRobin.NoStarvation` | src/api/quic_packet_scheduler.cpp:385-407 | whatever other streams come and go, a stream that stays writable is served before as many streams as its id is ahead |
| `RoundRobin.EachServedOnce` | src/api/quic_packet_scheduler.cpp:385-407 | with one stream a packet and a fixed set of `n`, each stream is served by exactly one of `n` packets |
| `RoundRobin.WriteStreams` | src/api/quic_packet_scheduler.cpp:385-407 | the walk terminates, serves a contiguous cyclic run of distinct streams, and returns the first stream not served, or the start if all were |
| `FunctionLoopers.OneCallPending` | src/common/FunctionLooper.cpp:35-131 | over every interleaving of calls from outside, loop turns and timer turns, with any function, a looper runs exactly if a call is pending; and there is never more than one if and only if no function that is called installs a pacing timer after it has called `run` without one and not stopped |
| `FunctionLoopers.RunAndStopOnly` | src/common/FunctionLooper.cpp:35-131 | as long as no function installs a pacing timer, and in particular if functions only run and stop, a running looper always has exactly one pending call and a stopped one none |
| `FunctionLoopers.CallLeaves` | src/common/FunctionLooper.cpp:35-51 | for every script of the function and every pending call: alive exactly if it ends up running; the next call comes from the timer, after the delay, if and only if a pacing function and a free timer are left and ask for one, and from the event loop otherwise or if that was asked for; two calls pending if and only if it leaves a pending timer call alone, or asks for a turn of the event loop and leaves a timer that paces it |
| `RingLayout.Layout.AdvanceIsIteratedIncrement` | src/common/CircularDeque.h:98-124 | the modular jump equals `n` single increments, from every index and for every `n`, in both wrapped and unwrapped layouts |
| `RingLayout.Layout.DecrementUndoesIncrement` | src/common/CircularDeque.h:98-116 | decrement after increment is the identity on every position before the end |
| `RingLayout.Layout.Advance` | src/common/CircularDeque.h:118-130 | jumping `n` forwards or backwards lands on logical position `+ n`, whichever of the two codes the end has |
| `RingLayout.Layout.PositionOfIndex` | src/common/CircularDeque.h:90-130 | `begin() + k` designates the `k`-th element: index and position are inverse to each other |
| `RingLayout.Layout.WrappedDistanceIsPositionDifference` | src/common/CircularDeque.h:363-370 | `wrappedDistance` is the difference of the logical positions |
| `CircularDeques.CircularDeque.Resize` | src/common/CircularDeque-inl.h:71-94 | the new block holds the first `count` elements in order and `max_size() == count`; it may be asked to drop at most one element, because the copy writes all of them |
| `CircularDeques.CircularDeque.Grow` | src/common/CircularDeque-inl.h:44-52 | growth happens exactly when the ring is full, keeps the contents and makes room for 10 elements or for half as many slots again |
| `CircularDeques.CircularDeque.EmplaceFront` | src/common/CircularDeque-inl.h:214-231 | contents become `[x] + old`, wrapped or not, with or without growth |
| `CircularDeques.CircularDeque.EmplaceBack` | src/common/CircularDeque-inl.h:233-248 | contents become `old + [x]`, wrapped or not, with or without growth |
| `CircularDeques.CircularDeque.PopFront` | src/common/CircularDeque-inl.h:337-347 | contents lose exactly their first element |
| `CircularDeques.CircularDeque.PopBack` | src/common/CircularDeque-inl.h:349-356 | contents lose exactly their last element |
| `CircularDeques.CircularDeque.Clear` | src/common/CircularDeque-inl.h:431-442 | contents become empty; `begin_` is reset exactly if the deque was not empty already |
| `CircularDeques.CircularDeque.At` | src/common/CircularDeque-inl.h:96-123 | the element at a logical index, or the out-of-range error, exactly when it is out of range |
| `CircularDeques.CircularDeque.MoveOrCopy` | src/common/CircularDeque.h:246-261 | the overlapping front-to-back move across the wrap point reads every element before it is overwritten |
| `CircularDeques.CircularDeque.ReverseMoveOrCopy` | src/common/CircularDeque.h:297-313 | the overlapping back-to-front move across the wrap point reads every element before it is overwritten |
| `CircularDeques.CopyIsLost` | src/common/CircularDeque.h:49-55 | a deque that was filled and emptied again keeps all but the first element of a copy of just as many as fit |
| `CircularDeques.SelfAssignmentEmpties` | src/common/CircularDeque.h:49-55 | a deque assigned to itself is emptied |
| `CircularDeques.ListIsLost` | src/common/CircularDeque-inl.h:33-42 | a deque that was filled and emptied again keeps only the second element of a list of two |
| `CircularDeques.Perform` | src/common/CircularDeque-inl.h:214-429 | every operation acts on the contents as the sequence operation it is named after |
| `IntervalSets.MakeInterval` | src/common/IntervalSet.h:30-37 | an interval is made exactly if its bounds are in order and the upper one leaves room for the unit |
| `IntervalSets.InsertedIsUnion` | src/common/IntervalSet-inl.h:23-43 | merging denotes set union |
| `IntervalSets.InsertedIsCanonical` | src/common/IntervalSet-inl.h:23-43 | merging keeps the intervals sorted, disjoint and non-touching |
| `IntervalSets.VersionTracksGrowth` | src/common/IntervalSet-inl.h:28-42 | the code raises the version exactly when the denoted set strictly grows |
| `IntervalSets.WithdrawnIsDifference` | src/common/IntervalSet-inl.h:46-80 | withdrawing denotes set difference |
| `IntervalSets.WithdrawnIsCanonical` | src/common/IntervalSet-inl.h:46-80 | withdrawing keeps the container canonical, including the split of one interval in two |
| `IntervalSets.AllCoveredMeansOneInterval` | src/common/IntervalSet-inl.h:83-94 | a stretch that is covered throughout lies inside one interval |
| `IntervalSets.IntervalSet.FromList` | src/common/IntervalSet-inl.h:15-20 | the set of a list denotes the union of its intervals |
| `IntervalSets.IntervalSet.IntersectingRange` | src/common/IntervalSet-inl.h:110-122 | exactly the intervals that meet or touch the given one |
| `IntervalSets.IntervalSet.InsertBounds` | src/common/IntervalSet-inl.h:97-102 | bounds that form no interval are refused and change nothing |
| `Varints.RoundTrip` | src/protocol/quic_integer.hpp:63-75 | decoding an encoded integer gives its value and its size, whatever follows |
| `Varints.DecodeBound` | src/protocol/quic_integer.cpp:43-76 | nothing larger than 62 bits can be read |
| `Varints.IntegerLayout` | src/protocol/quic_integer.cpp:43-76 | which first bytes announce which length, when there are too few bytes, and what each byte weighs |
| `Varints.SizeIsLeast` | src/protocol/quic_integer.cpp:13-24 | the encoded size is the least of 1, 2, 4 and 8 bytes that holds the value |
| `AckFrames.FrameRoundTrip` | src/protocol/quic_write_codec.cpp:325-409 | an ACK frame that was written is read back block for block, with the delay rounded to its unit, whatever follows (section 19.3 of RFC 9000) |
| `AckFrames.ReadAckFrame` | src/protocol/parse.cpp:200-256 | for any bytes: a frame is accepted, and what is left over, exactly if the integers read one after the other are its fields and the gaps and lengths of its blocks, with the delay scaled, refused or dropped as it says |
| `AckFrames.WrittenFrameOnWire` | src/protocol/quic_write_codec.cpp:390-406 | what is written is laid out that way, whatever follows |
| `AckFrames.FillFrame` | src/protocol/quic_write_codec.cpp:196-231 | as many further blocks as the byte limit allows, and no fewer, with the growth of the block count accounted for |
| `AckFrames.FrameSizeGrows` | src/protocol/quic_write_codec.cpp:196-231 | more blocks never make a shorter frame, so stopping at the first block that does not fit loses nothing |
| `PacketNumbers.EncodableRange` | src/protocol/quic_packet_num.cpp:8-23 | the sender can encode exactly the numbers less than 2^31 above the largest acknowledged |
| `PacketNumbers.LengthIsLeast` | src/protocol/quic_packet_num.cpp:9-17 | the length is the least number of bytes that holds twice the distance |
| `PacketNumbers.EncodedIsShortest` | src/protocol/quic_packet_num.cpp:8-23 | what is sent are the low bytes of the number, as few as hold twice its distance from the largest acknowledged |
| `PacketNumbers.WindowEdgeIsMissed` | src/protocol/quic_packet_num.cpp:28-44 | a number of the window of appendix A.3 of RFC 9000 that the code, with its strict comparison, does not restore |
| `BufQueues.BufQueue.TrimStartAtMost` | src/common/BufUtil.cpp:63-103 | exactly `min(n, length)` bytes are dropped and counted, and `chainLength_` is the true total |
| `BufQueues.BufQueue.Append` | src/common/BufUtil.cpp:113-127 | the bytes are added at the end, and `chainLength_` is the true total |
| `StreamReceive.ReceiveStream.ReadInOrder` | src/state/quic_stream_function.cpp:229-270 | reads contiguous bytes from the read offset, and stops early only where the next byte has not arrived |
| `StreamReceive.ReceiveStream.Read` | src/state/quic_stream_function.cpp:276-301 | as before, and the end is reported exactly when every byte before it has been handed over |
| `StreamSend.LongerFrameBreaksOrder` | src/api/quic_transport_function.cpp:467-491 | a run of writes, sends and losses after which booking a clone, which the code does not check, breaks the order of the loss buffer |
| `StreamSend.LossKeepsLossSound` | src/state/stream_data.h:183-199 | putting a lost stretch back keeps the loss buffer sorted, disjoint and truthful, merged or not |
| `StreamSend.SendStream.Write` | src/api/quic_transport_base.cpp:2206-2246 | a stream that has been ended or is no longer open refuses more; otherwise the bytes are appended, and the final offset is the total written |
| `StreamSend.SendStream.HandleNewData` | src/api/quic_transport_function.cpp:419-441 | new frames tile the offsets from 0 without gap or overlap, and the FIN takes one offset |
| `StreamSend.SendStream.SendNew` | src/api/quic_packet_scheduler.cpp:487-520 | the frame carries what buffer, flow control and packet allow, and the FIN exactly if it empties a finished stream |
| `StreamSend.SendStream.SendClone` | src/api/quic_transport_function.cpp:582-584 | a frame sent again is counted as cloned, or as retransmitted if its offset is waiting for that and it fits |
| `StreamSend.SendStream.SendAllLost` | src/api/quic_packet_scheduler.cpp:337-366 | one frame for each loss element in order, as long as there is room, with its FIN exactly if it carries all of it; what is left over stays in the loss buffer, in order, and nothing else leaves it |
| `StreamSend.SendStream.Lose` | src/state/stream_data.h:183-199 | the stretch is put back where its offset belongs, merged exactly if it continues another: exactly its positions, and its FIN, are added to what is lost |
| `StreamSend.LossCovers` | src/state/stream_data.h:183-199 | putting a lost stretch back adds exactly its positions |
| `StreamSend.RetransmissionUncovers` | src/api/quic_transport_function.cpp:467-491 | booking a fitting retransmission takes away exactly the positions of the frame |
| `StreamEndToEnd.System.DeliverFrame` | src/state/quic_stream_function.cpp:77-216 | a frame of the sender is accepted at any time, adds exactly its bytes, and with the FIN fixes the final offset at the total written |
| `GsoBatches.SmallMaximumIsExceeded` | src/api/quic_batch_writer.cpp:176-207 | three packets that exceed a maximum below 2 |
| `GsoBatches.WritersAgree` | src/api/quic_batch_writer.cpp:164-260 | the chained and the in-place writer decide alike in every state except exactly when a packet follows an empty one |
| `GsoBatches.SplitGro` | src/client/quic_client_transport.cpp:1186-1212 | the receiver's loop cuts the bytes into segments of the given size |
| `GsoBatches.SegmentsRestore` | src/client/quic_client_transport.cpp:1186-1212 | cutting a uniform batch at the size of its first packet restores its packets |
| `GsoBatches.OffloadIsTransparent` | src/api/quic_batch_writer.cpp:164-212 | end to end: what arrives are the batches the socket took, in order; with the packets held back it is everything written if and only if the socket took every batch |
| `GsoBatches.OneFlushPerWrite` | src/api/io_buf_quic_batch.cpp:28-51 | a packet that causes a flush before it starts a batch, so it never causes one after it |
| `ChainedGso.SilentRefusal` | src/api/io_buf_quic_batch.cpp:34-51 | a run in which every call succeeds and a batch is lost |
| `InplaceGso.InplaceBatch.HasRoom` | src/api/quic_batch_writer.cpp:233-260 | a buffer for as many packets of the longest length as a batch may hold always has room for the next |
| `ChainedGso.ChainedBatch.AppendPacket` | src/api/quic_batch_writer.cpp:176-207 | the fields of the writer follow the batch being formed |
| `ChainedGso.ChainedBatch.WritePacket` | src/api/io_buf_quic_batch.cpp:28-51 | the batches depend on what the client does alone; the result reports exactly the flush of the packet's own batch, and not one that makes room for it; which batches the socket took is recorded |
| `ChainedGso.ChainedBatch.FlushPending` | src/api/io_buf_quic_batch.cpp:53-66 | the batch is handed over and the writer starts anew, whatever the socket answers; the class stays valid |
| `ChainedGso.ChainedBatch.AllHasArrived` | src/api/quic_batch_writer.cpp:209-212 | with nothing pending, what was handed to the socket arrives as the packets written if and only if it took every batch |
| `InplaceGso.InplaceBatch.FlushPending` | src/api/io_buf_quic_batch.cpp:53-66 | the same for the in-place writer; its buffer is empty afterwards |
| `InplaceGso.InplaceBatch.AllHasArrived` | src/api/quic_batch_writer.cpp:262-316 | the same for the in-place writer |
| `InplaceGso.ContiguousBuf.Retreat` | src/api/quic_batch_writer.cpp:262-316 | moving the content to the front of its own storage keeps the bytes, although the areas overlap |
| `InplaceGso.ContiguousBuf.TakePrefix` | src/api/quic_batch_writer.cpp:262-316 | the first bytes are sent, the others become the content at the front |
| `InplaceGso.InplaceBatch.NeedsFlush` | src/api/quic_batch_writer.cpp:225-231 | a flush is asked for exactly when the chained writer asks, and exactly then the size of the packet is remembered |
| `InplaceGso.InplaceBatch.AppendPacket` | src/api/quic_batch_writer.cpp:233-260 | the buffer holds the bytes of the pending packets and nothing else |
| `InplaceGso.InplaceBatch.WritePacket` | src/api/io_buf_quic_batch.cpp:28-51 | build, then write: the buffer and the batches stay in step, and the result reports exactly the flush of the packet's own batch |
| `InplaceGso.InplaceBatch.EmitsAsChained` | src/api/quic_batch_writer.cpp:218-316 | for packets with content, the bytes and segment sizes handed to the socket are those of the chained writer |
| `MultiGso.ChainArrives` | src/api/quic_batch_writer.cpp:397-438 | each chain, cut at its segment size, arrives as the packets it was made of |
| `MultiGso.MultiBatch.Append` | src/api/quic_batch_writer.cpp:397-438 | every chain has all packets but the last of the segment size and the last no larger; a chain is started only if the last one of its address cannot take the packet; the chains of an address concatenate to its packets in order; `currSize_` and `currBufs_` are exact; a flush is asked for exactly at the maximum |
| `MultiGso.ChainsArrive` | src/api/quic_batch_writer.cpp:397-438 | chains cut at their segment sizes arrive, address by address, as the packets they were made of |
| `MultiGso.MultiBatch.Reset` | src/api/quic_batch_writer.cpp:386-395 | everything is forgotten |
| `Bandwidths.ComparisonsFollowRates` | src/congestion_control/bandwidth.cpp:32-65 | the cross-multiplied comparisons order bandwidths as rational rates, unset ones as 0 |
| `Bandwidths.TimesScalesRate` | src/congestion_control/bandwidth.h:42-45 | scaling rounds up: the rate grows by the factor, and by less than one unit per interval more |
| `Bandwidths.OverMeaning` | src/congestion_control/bandwidth.h:52-55 | the units over a delay are the rate times the delay, rounded down |
| `StartupDetection.GrowthSoFar` | src/congestion_control/bbr.cpp:610-631 | while Startup lasts, at most three rounds go into each growth by a quarter |
| `BbrController.Bbr.GetWritableBytes` | src/congestion_control/bbr.cpp:451-454 | never more than the window gets into flight |
| `BbrController.Bbr.OnPacketSent` | src/congestion_control/bbr.cpp:106-114 | bytes in flight and leaving quiescence |
| `BbrController.Bbr.OnRemoveBytesFromInflight` | src/congestion_control/bbr.cpp:633-635 | removing more than is in flight is refused |
| `BbrController.Bbr.OnPacketLoss` | src/congestion_control/bbr.cpp:75-104 | recovery starts from what is in flight and with a new round; each loss takes its bytes off the recovery window, down to the minimum; persistent congestion takes it to the minimum |
| `BbrController.Bbr.UpdateRoundTripCounter` | src/congestion_control/bbr.cpp:58-65 | a new round starts exactly with a packet sent after the last one started |
| `BbrController.Bbr.UpdateRecoveryWindowWithAck` | src/congestion_control/bbr.cpp:431-441 | the recovery window does not shrink on an ack, grows by what was acknowledged in Growth, and follows what is in flight before; exact |
| `BbrController.Bbr.RecoverOnAck` | src/congestion_control/bbr.cpp:189-199 | recovery ends exactly when a packet sent after the last loss is acknowledged; until then a new round moves it to Growth, and the window follows |
| `BbrController.Bbr.HandleAckInProbeBw` | src/congestion_control/bbr.cpp:289-329 | every gain looked up is in range even if the index was kept from a longer cycle; the cycle advances exactly when it is over, and takes the next gain exactly if draining to the target does not go on |
| `BbrController.Bbr.DetectBottleneckBandwidth` | src/congestion_control/bbr.cpp:610-631 | the fields are the detector run over the estimates of all rounds that were not limited by the application |
| `BbrController.Bbr.TransitToDrain` | src/congestion_control/bbr.cpp:406-415 | Drain sends below the estimated rate if and only if the controller is not in background mode |
| `BbrController.Bbr.TransitToProbeBw` | src/congestion_control/bbr.cpp:417-429 | the cycle is entered at the random place, never at the draining gain, and within range |
| `BbrController.Bbr.UpdateSendQuantum` | src/congestion_control/bbr.cpp:479-486 | the send quantum by the rate of pacing: one packet, two packets, or a millisecond's worth up to 64 KiB |
| `BbrController.Bbr.UpdateCwnd` | src/congestion_control/bbr.cpp:474-503 | outside ProbeRtt, once the bottleneck is known the window grows by what was acknowledged, but not beyond the target and the aggregated acks; before that it grows while below the target or within the first window; exact, and always bounded |
| `BbrController.Bbr.Advance` | src/congestion_control/bbr.cpp:211-225 | Startup is left with the bottleneck found; Drain lasts exactly while more than the target is in flight; ProbeRtt is entered exactly when the minimum round trip has expired and nothing forbids it; what was found stays found |
| `BbrController.Bbr.Transit` | src/congestion_control/bbr.cpp:207-230 | the state, the clock of ProbeRtt, the gains and the cycle after an explicit ack, each as a function of what was before, with the whole invariant kept |
| `BbrController.Bbr.OnPacketAckOrLoss` | src/congestion_control/bbr.cpp:143-161 | the same, from the state in which what was acknowledged and lost has left the network and the loss has been dealt with; an underflow is refused |
| `BbrController.Bbr.SetAppLimited` | src/congestion_control/bbr.cpp:519-527 | noted exactly if no more than the window is in flight |
| `BbrController.Bbr.SetBandwidthUtilizationFactor` | src/congestion_control/bbr.cpp:533-568 | the factor is clamped to [0.25, 1] and the cycle table always matches it |
| `BbrController.Bbr.FoundIffStalled` | src/congestion_control/bbr.cpp:610-631 | in every reachable state the bottleneck is known if and only if the estimates have stalled three times in a row |
| `BbrController.TargetMeaning` | src/congestion_control/bbr.cpp:464-472 | the target is the rate times the round trip, rounded down, times the gain, and three send quanta, rounded down; without an estimate the initial window times the gain |
| `BbrController.Bbr.StartupIsOver` | src/congestion_control/bbr.cpp:331-333 | in every reachable state with more than `3 * k` such rounds, Startup has been left for good |
| `WindowedFilters.UpdatedTracks` | src/congestion_control/windowed_filter.h:83-131 | every update keeps three ordered estimates, each a sample no later sample exceeds, and a best one at most a window old |
| `WindowedFilters.BestLasts` | src/congestion_control/windowed_filter.h:83-131 | a best estimate is kept by an update if and only if the sample is smaller and the estimate is still in the window |
| `WindowedFilters.FirstWindowIsExact` | src/congestion_control/windowed_filter.h:83-131 | while all samples fit into one window the best estimate is the largest of them, as a corollary |
| `WindowedFilters.ForgetsALargerSample` | src/congestion_control/windowed_filter.h:83-131 | a run after which a larger sample of the current window has been forgotten: the best estimate is not the maximum of the window |
| `WindowedFilters.WindowedFilter.Update` | src/congestion_control/windowed_filter.h:83-131 | the three estimates after an update, case by case: restarted, kept with the second and third refreshed after a quarter and half of the window, or promoted |
| `WindowedFilters.EstimatesAreSpread` | src/congestion_control/windowed_filter.h:118-130 | while the best estimate lasts, a second of its value is at most a quarter of the window old, and a third of the value of the second at most half |
| `ByteEvents.Registry.Enqueue` | src/api/quic_transport_base.cpp:2383-2422 | the queue stays sorted by offset, ties in order of registration, and never holds an offset and callback twice |
| `ByteEvents.Registry.AnswerReady` | src/api/quic_transport_base.cpp:2436-2470 | the scheduled answer delivers exactly once: only if the registration is still waiting |
| `ByteEvents.Registry.Deliver` | src/api/quic_transport_base.cpp:1656-1694 | exactly the entries up to the acknowledged offset are delivered, in order, and the rest stays |
| `ByteEvents.Registry.DeliverSent` | src/api/quic_transport_base.cpp:1459-1510 | the same for the offset that was sent |
| `ByteEvents.Registry.HandleSent` | src/api/quic_transport_base.cpp:1454-1511 | as for deliveries, with the offsets that were sent; nothing once the connection is closed |
| `ByteEvents.Registry.Close` | src/api/quic_transport_base.cpp:2837-2846 | whoever still waits is told cancellation, once each; every registration there ever was has been answered exactly once |
| `ByteEvents.Registry.CloseThenPerform` | src/api/quic_transport_base.cpp:2363-2473 | whatever is called after the connection has closed, whoever waited has been told cancellation, once, and nobody is told anything else |
| `ByteEvents.Registry.Perform` | src/api/quic_transport_base.cpp:2363-2473 | who is told what by each call, and who waits afterwards |
| `RoundRobin.WalkVisitsOnce` | src/api/quic_packet_scheduler.cpp:20-100 | the whole walk visits every stream exactly once |
| `RoundRobin.PassApproaches` | src/api/quic_packet_scheduler.cpp:385-407 | a pass that does not serve a stream brings it closer by the number of streams it serves |
| `RoundRobin.WritePackets` | src/api/quic_packet_scheduler.cpp:445-460 | packet after packet goes on where the one before stopped, and serves the streams of the walk in order up to the first write that does not succeed, or one if that is the rule |
| `RoundRobin.WriteUntilServed` | src/api/quic_packet_scheduler.cpp:445-460 | so a stream that stays writable is served once more streams have been served than its id is ahead |
| `FunctionLoopers.ScriptDoes` | src/common/FunctionLooper.cpp:35-107 | what a script does to the pending calls, stated on its text: where it runs without a timer, where it stops, what it installs |
| `FunctionLoopers.WithoutNewTimer` | src/common/FunctionLooper.cpp:35-100 | a function that installs no pacing timer does not ask twice when its call was the only one |
| `FunctionLoopers.RunThenInstall` | src/common/FunctionLooper.cpp:35-100 | a function that calls `run` and then installs a pacing timer does |
| `FunctionLoopers.TwoStayTwo` | src/common/FunctionLooper.cpp:35-63 | two pending calls stay two through a turn of the event loop, unless the function stops or takes the timer away |
| `FunctionLoopers.FunctionLooper.Run` | src/common/FunctionLooper.cpp:70-100 | nothing changes in a paced body or with a turn of the loop pending; without any call pending a turn of the loop is; a pending timer call gives way exactly if it is less than two milliseconds away and firing early is allowed |
| `FunctionLoopers.FunctionLooper.Stop` | src/common/FunctionLooper.cpp:102-107 | nothing is pending afterwards |
| `FunctionLoopers.FunctionLooper.RunLoopCallback` | src/common/FunctionLooper.cpp:65-68 | a turn of the event loop leaves exactly what the text of the function says: paced by the timer or called from the loop, alive if running, two calls pending if and only if it asked twice |
| `FunctionLoopers.FunctionLooper.TimeoutExpired` | src/common/FunctionLooper.cpp:128-131 | the same for a turn of the pacing timer |
| `FunctionLoopers.Interleave` | src/common/FunctionLooper.cpp:35-131 | every run of the looper is the run of its model |

## Left out

- Memory: allocation, placement new, destructors, exceptions thrown by element types, and the moved-from state of elements. Deques hold values.
- Buffer chains: `BufQueue`, the read buffer, the loss buffer and the batches of the chained writers are sequences of byte sequences; relinking, sharing and cloning of `IOBuf`s are not modelled. The in-place writer's contiguous buffer is an array.
- 64-bit overflow of byte counters, packet totals, `insertVersion_` and the cross-multiplied bandwidth comparison. `IntervalSet` bounds are 64-bit with overflow excluded.
- The retention of sent bytes: the emplace into the retransmission buffer is commented out in the source (src/api/quic_transport_function.cpp:432-440 and 483-490), so loss is an environment step that puts back a stretch of bytes already sent.
- StreamSend.SendStream.Lose: takes stretches that do not overlap the loss buffer, which is what the source assumes of its callers (src/state/stream_data.h:184-185). Taking stretches out of the loss buffer when a clone is acknowledged is not modelled.
- StreamSend.SendStream.SendAllLost: the bytes the packet has room for are a parameter; the layout of frame headers is not modelled.
- StreamSend.SendStream.Write: of the refusals of `writeChain`, those of a stream that was ended or is not open, which is a parameter; what a reset does to a stream is not modelled.
- StreamEndToEnd.System.ReadRest: delivery of every byte is an assumption, met when every frame was delivered; that lost frames are sent again eventually depends on timers that are not modelled.
- Flow control, stream limits, streams fed from buffer metadata, crypto streams, and the priority queue of ordinary streams. Flow control limits are parameters.
- CircularDeques.CircularDeque.Resize: demands at most one element more than the new size, because the source copies all elements into the new block before it drops any.
- ACK frames: receive timestamps and ECN counts. With a delay exponent of 0 the source shifts a word by its own width (src/protocol/parse.cpp:686-688), which C++ leaves undefined; the model multiplies by 1.
- Batch writers: thread-local delay, happy eyeballs, errno handling and the exceptions on fatal socket errors. `SinglePacketBatchWriter` and `SendmmsgPacketBatchWriter`, which neither join nor split packets.
- BbrController.Bbr.OnPacketAcked: the bandwidth and round-trip samplers, ack aggregation and the maximum of its filter are inputs; pacing windows and ack frequency requests are not modelled. Both samplers are present. Gains are exact rationals.
- BBR version 2, Copa, Cubic and NewReno.
- WindowedFilters.WindowedFilter.Update: samples arrive in the order of their times, as round counts do; only the maximum filter is modelled.
- WindowedFilters.TopStaysBest: sufficient for the best estimate to be the maximum of the window, not necessary; a smaller sample can also come to be the second estimate and take over when the best one expires.
- ByteEvents.Registry.Deliver: callbacks that re-enter the transport or close it in the middle of a drain.
- FunctionLoopers.FunctionLooper.Run: whether the call happens in this or the next turn of the event loop, and attaching and detaching of event bases.
- RoundRobin.WriteStreams: the writing of one stream is a parameter; an empty set is excluded, as its caller excludes it.
- Handshake, ciphers, header protection, transport parameters, connection close, logging and statistics.
