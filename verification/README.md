# NXP in Dafny

A model of the NXP transport's protocol engine, and proofs of what it promises. NXP is a QUIC-like transport
without I/O of its own; the model follows its C code function by function: the same branches, edge cases, error
returns and constants. Pure functions on values say what each operation computes; classes with arrays, pointers and
loops do it in place, as the C code does, and are proved to compute those functions; lemmas prove what the
functions promise together, over all inputs and all runs.

| files | what they model |
|---|---|
| `HashMap.dfy` | the Robin Hood hash table refines a finite map |
| `AckRanges.dfy`, `Recovery.dfy`, `AckState.dfy` | received ranges, ACK frames, loss detection, packet conservation |
| `Circular.dfy`, `Streams.dfy`, `StreamObject.dfy`, `Pipe.dfy` | stream buffers, and two endpoints joined by an unreliable network |
| `Scheduler.dfy`, `SendPath.dfy`, `FlowControl.dfy` | round-robin list, packing loop, credit |
| `RingBuffer.dfy` | the lock-free ring as interleaved atomic steps |
| `Varint.dfy`, `Frames.dfy`, `Reader.dfy`, `FrameDecoder.dfy`, `Headers.dfy`, `HeaderProtection.dfy`, `PacketNumbers.dfy` | wire format |
| `TransportParams.dfy`, `Handshake.dfy`, `HandshakeObject.dfy`, `HandshakeNetwork.dfy` | the handshake, alone and over a network |
| `Bbr.dfy`, `WindowedFilter.dfy`, `Pacing.dfy` | congestion control and pacing |
| `PriorityQueue.dfy`, `EventLoop.dfy` | binary heap and timers |
| `Bytes.dfy` | bytes, big-endian numbers, memcpy |

`dafny verify dfyconfig.toml` checks the whole project.

## Where the code does not keep a promise

Each of these is proved, with the exact condition under which the code does keep it.

- A stream is a pipe as long as no frame arrives beyond a gap or beyond the receive buffer (`Pipe.FitsIsExact`) and no
  more than a send buffer has been written since the first byte of the next frame (`Pipe.RetransmissionIsExact`).
  Each condition is exact: without it some contents are corrupted. Both can fail: `Pipe.OvertakingCorrupts`, `Pipe.LossBelowAckedCorrupts`,
  `Pipe.AckAboveSentCorrupts`. Acks and losses that come in order never lead there (`Pipe.OrderSuffices`).
- A server whose parameters have no encoding can never be joined: its hello is one byte below the minimum length
  (`HandshakeNetwork.CompletesExactlyWhen`). A client whose parameters have no encoding is accepted without them
  (`HandshakeNetwork.Agreement`).
- `src/core/handshake_internal.h` says that the server hello goes out under handshake keys; the code sends it under
  initial keys, and the model follows the code.
- `nxp_pkt_num_len` is documented as minimal; it is not for numbers just half a window ahead and for numbers below
  one window (`PacketNumbers.LengthIsMinimal`).
- Setting a stream's rate refills its bucket (`Pacing.SettingTheRateGrantsABurst`), and the refill product can wrap
  (`Pacing.RefillCanWrap`).
- A FIN without accepted data is not scheduled (`SendPath.Connection.StreamSend`, `SendPath.Connection.FinAlone`).
- The windowed filter can fall short of the extremum of its window, of the newest sample or of an older one. An exact
  estimate is lost exactly when an update rotates and promotes a sample that one in the window beats
  (`WindowedFilter.UpdateIsExact`), and over whole runs only samples up to the last rotation can be missed
  (`WindowedFilter.ExactExactlyWhen`). What each kept sample is the best of, and when it stops being so, is
  `WindowedFilter.CoverExactlyWhen`.
- The age of the least RTT is counted from time zero until the first sample, so with a clock past ten seconds the
  first ACK sends a fresh connection into PROBE_RTT (`Bbr.FirstAckProbesExactlyWhen`).
- STARTUP notices a plateau only from 4 bytes per second on (`Bbr.PlateauIsNoticedExactlyFrom4`).
- Credit is never given back: a connection's record is never told what was consumed (`nxp_flow_on_consume` is called
  for streams only, `src/core/stream.c:203`), so its update is never due (`src/core/connection.c:890` and `961-970`);
  a stream's record is, but nothing asks it for an update and no MAX_STREAM_DATA frame is ever built. In both cases
  what can be sent in all is the first limit (`FlowControl.CreditIsSpentOnce`); with all the steps on one record it
  would not be (`FlowControl.BlockedSenderIsReleased`).
- The sender's initial credit must not exceed the receiver's (`FlowControl.InitialLimitsMatter`).
- The window that `nxp_flow_on_consume` opens grows with the limit already advertised, not with the original window
  its comment names; the model follows the code.
- The loss timer runs detection against the largest number still outstanding, not the largest acked
  (`AckTracker.AckState.OnLossTimeout`); in the range update the merge with the previous range is unreachable
  (`AckTracker.ExtendAt`), and the largest received number moves even when the arrival itself is dropped
  (`AckTracker.AckState.OnPktRecv`).

## Model

| member | source | states |
|---|---|---|
| `RobinHood.ProbePathIsRich` | src/util/hash_map.c:144-159 | every slot between an entry's home and its place is occupied by an entry at least as far from its home as the slot is from this one's |
| `RobinHood.EmptySlotIsBeyond` | src/util/hash_map.c:144-159 | an empty slot lies beyond an entry's whole probe path, so a probe that meets one has missed nothing |
| `RobinHood.SearchOn` | src/util/hash_map.c:144-159 | passing an occupied slot with another key keeps the search state and comes one step closer to the empty slot |
| `RobinHood.SearchFails` | src/util/hash_map.c:144-159 | a slot with a smaller psl proves the key absent from the whole table |
| `RobinHood.EmptySlotExists` | src/util/hash_map.c:105-142 | a well-formed table with fewer bindings than slots has an empty slot, which bounds every probing loop |
| `RobinHood.DisplaceSlot` | src/util/hash_map.c:105-142 | swapping the carried entry with a richer one keeps probe distances, the rise-by-at-most-one order and the bindings of table and hand together |
| `RobinHood.LandInEmptySlot` | src/util/hash_map.c:105-142 | dropping the carried entry into an empty slot gives a well-formed table that stores all bindings |
| `RobinHood.PutHits` | src/util/hash_map.c:105-142 | meeting the key overwrites exactly its binding |
| `RobinHood.PutDisplaces` | src/util/hash_map.c:105-142 | displacement during a put keeps the put state: the result will be the old map with the one binding changed |
| `RobinHood.PutLands` | src/util/hash_map.c:105-142 | a put that reaches an empty slot has produced the old map with the new binding |
| `RobinHood.StartDeleting` | src/util/hash_map.c:161-192 | clearing the found slot removes exactly its key |
| `RobinHood.ShiftBack` | src/util/hash_map.c:161-192 | one backward shift keeps distances, order, uniqueness and contents, and moves the hole one slot on |
| `RobinHood.FinishDeleting` | src/util/hash_map.c:161-192 | a hole followed by an empty or home entry leaves a well-formed table |
| `RobinHood.NextPowerOfTwo` | src/util/hash_map.c:12-21 | the least power of two that is not below the argument |
| `RobinHood.HashMap.constructor` | src/util/hash_map.c:35-57 | an empty map of at least 16 slots, capacity a power of two |
| `RobinHood.HashMap.Probe` | src/util/hash_map.c:144-159 | the shared probing loop ends and finds the slot of the key exactly when the map has it |
| `RobinHood.HashMap.Get` | src/util/hash_map.c:144-159 | lookup in the finite map, NULL for an absent key |
| `RobinHood.HashMap.Contains` | src/util/hash_map.c:194-196 | whether the key is bound to a non-null value |
| `RobinHood.HashMap.Remove` | src/util/hash_map.c:161-192 | deletes exactly the key's binding, returns its old value, keeps the table well formed |
| `RobinHood.HashMap.ShiftFrom` | src/util/hash_map.c:161-192 | the backward-shift loop ends and restores a well-formed table with the same contents |
| `RobinHood.HashMap.Resize` | src/util/hash_map.c:65-103 | doubles the capacity and keeps every binding |
| `RobinHood.HashMap.ReinsertAll` | src/util/hash_map.c:65-103 | re-inserting all entries builds a well-formed table with the same map |
| `RobinHood.HashMap.Reinsert` | src/util/hash_map.c:65-103 | the re-insertion loop, with displacement, adds one binding |
| `RobinHood.HashMap.Put` | src/util/hash_map.c:105-142 | map update: changes exactly one binding, returns the old value, resizes first when the load factor is reached |
| `RobinHood.HashMap.PutWithRoom` | src/util/hash_map.c:105-142 | the same without the resize |
| `RobinHood.HashMap.PutFrom` | src/util/hash_map.c:105-142 | the insertion loop with displacement ends with the updated map and tells whether the key is new |
| `Varint.RoundTrip` | src/util/varint.c:12-87 | decoding undoes encoding for every value below 2^62, whatever bytes follow, and returns exactly those |
| `Varint.WireFormat` | src/util/varint.c:12-45 | the length is two to the power of the two prefix bits, and the remaining bits are the value, most significant first |
| `Varint.EncodingIsShortest` | src/util/varint.c:12-87 | no byte string that decodes to a value is shorter than the value's encoding |
| `Varint.Write` | src/util/varint.c:12-45 | writes the shortest encoding in place, or 0 when the value has none or there is no room |
| `Frames.RoundTrip` | src/core/frame.c:36-666 | for every frame of all 23 kinds and any following bytes: decoding the encoding returns that frame and exactly the rest if and only if the frame is in the decoder's limits |
| `Frames.TypeOnTheWire` | src/core/frame.c:36-366 | the first byte of each frame is its type from section 19 of RFC 9000, or of the three extensions |
| `Frames.StreamHeaderSize` | src/core/frame.c:168-200 | the header of a STREAM frame with less than 16 KB takes at most 19 bytes |
| `Frames.StreamDecoded` | src/core/frame.c:168-206 | the exact decoding of any encoded STREAM frame, with or without offset and length |
| `Frames.PaddingDecoded` | src/core/frame.c:36-40 | PADDING decodes to its own count plus the zero bytes that follow |
| `Frames.AckRoundTrip` | src/core/frame.c:48-109 | ACK and ACK_ECN come back with all their ranges, for as many ranges as the record can hold |
| `Frames.PlainRoundTrip` | src/core/frame.c:208-256 | the frames made of a type and varints always come back |
| `Frames.BlockRoundTrip` | src/core/frame.c:134-166 | CRYPTO, NEW_TOKEN and DATAGRAM come back exactly when their data is within the length limit |
| `Frames.CloseRoundTrip` | src/core/frame.c:307-331 | CONNECTION_CLOSE comes back exactly when its reason is within the length limit and an application close names no frame type |
| `Frames.NewConnectionIdRoundTrip` | src/core/frame.c:258-278 | NEW_CONNECTION_ID comes back |
| `Frames.RawRoundTrip` | src/core/frame.c:287-354 | PATH_CHALLENGE, PATH_RESPONSE and STREAM_PRIORITY come back |
| `Frames.PayloadRoundTrip` | src/core/connection.c:306-313 | the payload loop recovers any list of in-limit frames in order and goes on with whatever follows, so that frames before a malformed one are still processed |
| `Frames.WriteVarints` | src/core/frame.c:23-27 | a run of varint writes gives the concatenated encodings, or 0 exactly when one is impossible or does not fit |
| `Frames.EncodeInto` | src/core/frame.c:36-371 | each encoder writes exactly the encoding, or returns 0 exactly when a field has no encoding or it does not fit |
| `Readers.Reader.Varint` | src/util/varint.c:47-87 | reading at the position gives the value and the rest that the wire format defines, or fails with it |
| `Readers.Reader.Block` | src/core/frame.c:503-513 | a length within the limit and that many bytes, or failure |
| `FrameDecoder.CountPadding` | src/core/frame.c:384-395 | the padding loop consumes exactly the leading zero bytes |
| `FrameDecoder.DecodeStreamAt` | src/core/frame.c:398-449 | STREAM with its flags, limits and optional fields, read at an advancing position |
| `FrameDecoder.ReadAckRanges` | src/core/frame.c:461-488 | the ACK range loop reads exactly the pairs the wire holds, or fails with them |
| `FrameDecoder.DecodeAckAt` | src/core/frame.c:461-488 | ACK and ACK_ECN |
| `FrameDecoder.DecodePlainAt` | src/core/frame.c:490-570 | the frames made of varints |
| `FrameDecoder.DecodeBlockAt` | src/core/frame.c:503-524 | CRYPTO, NEW_TOKEN and DATAGRAM with their length limits |
| `FrameDecoder.DecodeNewConnectionIdAt` | src/core/frame.c:572-592 | NEW_CONNECTION_ID |
| `FrameDecoder.DecodeCloseAt` | src/core/frame.c:613-632 | CONNECTION_CLOSE of both kinds |
| `FrameDecoder.DecodeRawAt` | src/core/frame.c:599-611 | PATH_CHALLENGE, PATH_RESPONSE and STREAM_PRIORITY |
| `FrameDecoder.DecodeFrame` | src/core/frame.c:375-666 | the decoder, every field read at an advancing position, parses any bytes as the format that the round trips are about; it fails exactly when there is no parse |
| `FrameDecoder.ProcessPayload` | src/core/connection.c:306-313 | the payload loop ends on every payload; it processes the frames up to the first malformed one and reports it |
| `AckRanges.NormalIsUnique` | src/core/ack.c:53-136 | a set of packet numbers has exactly one descending, disjoint, non-adjacent list of ranges |
| `AckRanges.InsertExact` | src/core/ack.c:53-136 | recording a number adds exactly it and keeps the ranges descending, disjoint and non-adjacent |
| `AckRanges.RecordExact` | src/core/ack.c:53-136 | each arrival adds exactly its number, or nothing if it is isolated and all 64 slots are taken |
| `AckRanges.RecordAllExact` | src/core/ack.c:53-136 | after any sequence of arrivals the ranges are normal, at most 64, and hold exactly the numbers not dropped, all of which arrived |
| `AckRanges.FrameMeaning` | src/core/ack.c:367-400 | the acked test, run on the frame built from the ranges, accepts exactly the numbers the ranges hold |
| `AckRanges.WireMeaning` | src/core/ack.c:295-322 | the same after encoding and decoding the ACK frame on the wire |
| `AckRanges.GapsMeaning` | src/core/ack.c:295-322 | walking the gap-coded ranges visits exactly the numbers of the ranges below the first |
| `AckRanges.GapsCountTheMissing` | src/core/ack.c:382-396 | a gap is the number of missing packets less one, and a range the number of its packets less one |
| `Recovery.DetectionIsExact` | src/core/ack.c:205-260 | a pass keeps precisely the packets above the given number, or fewer than 3 behind it and younger than a millisecond or than 9/8 of the smoothed or the latest RTT; it reports exactly the others, and arms the timer with the earliest deadline of a survivor at or below that number, strictly after now, or not at all |
| `Recovery.ThresholdIsTheBoundary` | src/core/ack.c:211-214 | there is one delay that is 9/8 of the larger RTT rounded down and at least 1000, it is the boundary of being in time, and the code computes it |
| `Recovery.LossTimeIsEarliest` | src/core/ack.c:205-260 | the loss time is the minimum deadline over the survivors it may concern |
| `Recovery.DeductExact` | src/core/ack.c:290-348 | the guarded subtractions never skip when the removed packets are part of the total |
| `Recovery.StepConserves` | src/core/ack.c:140-437 | every send, ACK and timer event keeps the books: packets, order, bytes in flight, timer |
| `Recovery.ConservedAlways` | src/core/ack.c:140-437 | over any legal run tracked = outstanding + acked + lost as multisets, order is kept and bytes in flight is the sum over outstanding packets |
| `Recovery.ExactlyOneFate` | src/core/ack.c:140-437 | every tracked packet is in exactly one of outstanding, acked once, lost once |
| `Recovery.TimerStaysArmed` | src/core/ack.c:404-419 | while an in-flight packet is outstanding the loss timer is armed |
| `Recovery.FiringMakesProgress` | src/core/ack.c:421-437 | a loss timer that fires on time declares at least one packet lost and moves past now |
| `Recovery.ProbeBacksOff` | src/core/ack.c:404-437 | without a loss deadline the timer stands one PTO after the last ack-eliciting packet, and twice as far after each expiry |
| `Recovery.AckResetsTheBackoff` | src/core/ack.c:355-359 | any ACK resets the backoff to one PTO after the last ack-eliciting packet |
| `Recovery.Pto` | src/core/ack.c:24-29 | 1024 ms before the first sample, then smoothed RTT plus four times the variance, at least 1 ms, plus 25 ms |
| `Recovery.DeadlineComesFirst` | src/core/ack.c:404-413 | a loss deadline is the timer; without one there is none exactly when nothing is in flight |
| `Recovery.TimerRunsFromTheLast` | src/core/ack.c:140-160 | over any run the probe timer starts at the last ack-eliciting packet ever sent |
| `Recovery.RttStaysWithinSamples` | src/core/ack.c:164-201 | over any samples min RTT is the true minimum, and smoothed RTT and variance stay between the extremes |
| `Recovery.RttWeights` | src/core/ack.c:164-201 | smoothed RTT moves an eighth of the way to the sample and variance a quarter of the way to the deviation, rounded down; the first sample sets both |
| `Recovery.Adjusted` | src/core/ack.c:169-185 | the peer's delay, up to 25 ms, is taken off the sample exactly when that leaves more than nothing and no less than the minimum |
| `Recovery.SampleIsTaken` | src/core/ack.c:324-329 | an ACK whose largest packet is outstanding takes its round trip as the sample exactly when the packet was ack-eliciting |
| `Recovery.NoSample` | src/core/ack.c:324-329 | and takes none when that packet is not outstanding |
| `AckTracker.ExtendAt` | src/core/ack.c:79-110 | what touching a range does to the list; the range above never touches too, so the merge with the previous range cannot happen |
| `AckTracker.AckState.constructor` | src/core/ack.c:33-42 | the initial tracker |
| `AckTracker.AckState.IsDuplicate` | src/core/ack.c:53-78 | finds exactly the numbers already held |
| `AckTracker.AckState.FindTouched` | src/core/ack.c:79-110 | the first range next to the number |
| `AckTracker.AckState.Extend` | src/core/ack.c:79-110 | extends or merges in place as insertion does, exactly when a range is touched |
| `AckTracker.AckState.InsertNew` | src/core/ack.c:111-127 | opens a slot in descending order as insertion does |
| `AckTracker.AckState.OnPktRecv` | src/core/ack.c:53-136 | records exactly as specified; a duplicate changes nothing; otherwise the newest number, time and ACK timer are updated |
| `AckTracker.AckState.BuildAck` | src/core/ack.c:367-400 | the frame built from the ranges, or none when there are none |
| `AckTracker.AckState.OnPktSent` | src/core/ack.c:140-160 | appends the packet, doubling the array when full, and counts its bytes |
| `AckTracker.AckState.IsAcked` | src/core/ack.c:295-322 | the range walk decides the acked test |
| `AckTracker.AckState.CompactAcked` | src/core/ack.c:290-348 | the in-place compaction removes exactly the acked packets, keeps order and takes the RTT sample |
| `AckTracker.AckState.CompactLost` | src/core/ack.c:205-260 | the in-place compaction removes exactly the lost packets, keeps order and finds the loss time |
| `AckTracker.AckState.DetectLostPackets` | src/core/ack.c:205-260 | removes in place and reports exactly what detection says; kept are the packets above the given number, or fewer than 3 behind it and younger than a millisecond or than 9/8 of the smoothed or the latest RTT |
| `AckTracker.AckState.OnAckRecv` | src/core/ack.c:264-363 | RTT update, removal and detection as specified |
| `AckTracker.AckState.OnLossTimeout` | src/core/ack.c:421-437 | detection against the largest number outstanding, or a PTO count |
| `SpscRing.EveryInterleaving` | src/util/ring_buffer.c:48-94 | in every interleaving of load, copy and publish steps, with wrapped positions and stale loads: occupancy at most the capacity and bytes consumed a prefix of bytes produced |
| `SpscRing.StepKeeps` | src/util/ring_buffer.c:48-94 | each atomic step keeps the ring invariant |
| `SpscRing.WriteByteSpares` | src/util/ring_buffer.c:48-70 | copying a byte overwrites no unread byte |
| `SpscRing.PublishIsTheQueueOperation` | src/util/ring_buffer.c:48-94 | linearization: the queue changes only at the two publishing stores, by appending the chunk or removing exactly the bytes handed out |
| `SpscRing.WriteTakesAPrefix` | src/util/ring_buffer.c:48-70 | a write takes as long a prefix as fits beside what the producer still counts as unread |
| `SpscRing.ReadTakesAPrefix` | src/util/ring_buffer.c:72-94 | a read takes no more than was asked for and than the consumer has seen published, and the queue holds that much |
| `SpscRing.RingBuffer.Write` | src/util/ring_buffer.c:48-70 | appends as much as fits to the byte queue |
| `SpscRing.RingBuffer.Read` | src/util/ring_buffer.c:72-94 | removes and returns the front of the byte queue |
| `Circular.PutBuffers` | src/core/stream.c:307-321 | copying in a piece that starts inside the held part and ends within a lap keeps every other byte readable |
| `Circular.GetBuffered` | src/core/stream.c:186-193 | reading any held piece returns the stream's bytes |
| `Circular.CopyIn` | src/core/stream.c:143-152 | two memcpy calls write exactly the slots of the offsets, around the end |
| `Circular.CopyOut` | src/core/stream.c:186-193 | two memcpy calls read exactly the slots of the offsets |
| `Circular.PutKeepsLap` | src/core/stream.c:143-152 | whatever was acknowledged or lost, after a write the send buffer holds the last lap of everything written |
| `Pipe.StreamIsAPipe` | src/core/stream.c:109-376 | for two ends configured in any way, over every interleaving with duplicates, overlaps, any acks and losses of sent frames, retransmission and wrap-around: bytes read are a prefix of bytes written, and FIN is seen only when all are read and no more can be written |
| `Pipe.InvAlways` | src/core/stream.c:109-376 | every reachable pair of endpoints is intact in both directions |
| `Pipe.ActKeeps` | src/core/stream.c:109-376 | each write, send, delivery, ack, loss, read and limit keeps both directions intact |
| `Pipe.CreditAlways` | src/core/stream.c:132-139 | in every reachable state on both sides, no more was written than the peer's limit and no more acknowledged than written |
| `Pipe.NeverAViolation` | src/core/stream.c:290-293 | with ordered limits no frame that either end ever produced is a flow-control violation at the other, in any reachable state |
| `Pipe.EverythingArrives` | src/core/stream.c:109-341 | from any state in which the ends are in step, some run of sends, deliveries and reads ends with everything written delivered, and the FIN |
| `Pipe.FreshStreamDelivers` | src/core/stream.c:109-341 | a fresh stream carries over exactly the longest front of the data that send buffer and limit admit, and the FIN |
| `Pipe.RoundDelivers` | src/core/stream.c:221-341 | one frame sent, delivered and read leaves the ends in step with less to do |
| `Pipe.PhaseAlways` | src/core/stream.c:16-49 | in every reachable state the phase tells exactly which FINs have been received and acknowledged |
| `Streams.WriteIsMaximal` | src/core/stream.c:128-141 | a write ends at the end of the data, at the peer's limit or at a full buffer, and passes neither of the two |
| `Streams.WriteWithinCredit` | src/core/stream.c:132-139 | a write that accepts anything stays within the peer's limit, whatever the offsets are |
| `Streams.WriteRefused` | src/core/stream.c:109-121 | a write is refused exactly after FIN was queued or sending was closed, and then changes nothing |
| `Pipe.FitsIsExact` | src/core/stream.c:276-341 | absorbing a frame leaves all contents readable if and only if it starts at or below the received offset and ends within the buffer beyond the read offset |
| `Pipe.OvertakingCorrupts` | src/core/stream.c:276-341 | a frame that overtakes another makes the reader see a byte nobody wrote |
| `Pipe.RetransmissionIsExact` | src/core/stream.c:221-272 | the next frame carries the written bytes, for all contents, if and only if no more than a buffer has been written since its first byte |
| `Pipe.OrderSuffices` | src/core/stream.c:345-376 | over any run in which acks end at or below sent and losses start at or above acked, that condition always holds |
| `Pipe.LossBelowAckedCorrupts` | src/core/stream.c:345-376 | a loss below the acked offset after new data: a different byte is retransmitted, for every capacity |
| `Pipe.AckAboveSentCorrupts` | src/core/stream.c:345-376 | byte 0 lost, the bytes after it acked, then new data: the pending retransmission sends a different byte, for every capacity above one |
| `StreamObjects.StreamObject.constructor` | src/core/stream.c:57-97 | a fresh stream |
| `StreamObjects.StreamObject.WriteData` | src/core/stream.c:109-166 | appends as much as the buffer and the peer's limit allow and passes neither, marks FIN even when part was refused, and keeps the last lap of everything written in the buffer |
| `StreamObjects.StreamObject.ReadData` | src/core/stream.c:170-210 | reads in place as specified and reports FIN at the end |
| `StreamObjects.StreamObject.FillNext` | src/core/stream.c:221-272 | fills the next frame as specified; its bytes are the written ones if no more than a buffer has been written since |
| `StreamObjects.StreamObject.AbsorbData` | src/core/stream.c:296-321 | copies the new part of a frame into the ring |
| `StreamObjects.StreamObject.Receive` | src/core/stream.c:276-341 | accepts, ignores or refuses a frame as specified |
| `StreamObjects.StreamObject.Acknowledge` | src/core/stream.c:345-362 | for any range: acknowledged bytes are never taken back, what is due and what is held stay |
| `StreamObjects.StreamObject.Rewind` | src/core/stream.c:364-376 | for any range: everything from the lost byte on is due again, nothing due is forgotten, a lost FIN is due again |
| `Scheduler.RoundRobin.Add` | src/core/scheduler.c:12-30 | appends to the queue unless queued already; the links stay one circle |
| `Scheduler.RoundRobin.Remove` | src/core/scheduler.c:34-51 | removes the stream from the queue wherever it is; the links stay one circle |
| `Scheduler.RoundRobin.Unlink` | src/core/scheduler.c:34-51 | unlinking rejoins the neighbours and moves the head |
| `Scheduler.RoundRobin.Next` | src/core/scheduler.c:55-70 | serves the front of the queue and requeues it exactly if work remains |
| `Scheduler.WithoutNeighbours` | src/core/scheduler.c:34-51 | neighbours in the circle after a removal |
| `SendPath.Connection.PackStreams` | src/core/connection.c:1049-1119 | the packing loop ends, and only for 8 frames, a full packet, an empty queue (then no stream has unsent bytes), or a stream without credit or whose next frame does not fit; its frames are the next frames of the streams served, and nothing else in any stream changes; they stay in the packet and within connection credit; no stream with unsent bytes leaves the scheduler; a front stream with unsent bytes, credit and 21 bytes of room sends at least one |
| `SendPath.Connection.PackNext` | src/core/connection.c:1049-1119 | a round stops if and only if the queue is empty, or its front has unsent bytes and no credit, or a next frame that does not fit; it skips exactly a front without work; otherwise it packs the next frame of the front |
| `SendPath.Connection.PackFrom` | src/core/connection.c:1054-1100 | packs the next frame of the stream if and only if there is one and it fits, within space and credit, and otherwise changes no stream |
| `SendPath.MaxData` | src/core/connection.c:1061-1070 | as much data as 20 bytes of overhead and the connection's credit leave |
| `SendPath.RewindUndoesFill` | src/core/connection.c:1087-1093 | rewinding after a failed encoding restores the stream exactly |
| `SendPath.PlayedMore` | src/core/connection.c:1049-1119 | one more round adds the next frame of one stream to the frames so far |
| `SendPath.Connection.StreamSend` | src/core/connection.c:1304-1317 | schedules exactly when data was accepted; a pending FIN is left unscheduled exactly when the stream can accept none of the bytes it comes with |
| `SendPath.Connection.FinAlone` | src/core/connection.c:1304-1317 | such a call: an empty write with FIN on an unscheduled stream leaves the FIN pending and the stream out of the queue |
| `SendPath.Connection.StreamLost` | src/core/connection.c:136-144 | rewinds and reschedules; none forgotten |
| `SendPath.Connection.StreamCredit` | src/core/connection.c:376-387 | raises the stream limit and reschedules unsent data; none forgotten |
| `SendPath.Connection.Open` | src/core/connection.c:1268-1302 | a new stream joins the connection with nothing forgotten |
| `FlowControl.CreditSafeAlways` | src/core/flow_control.c:11-72 | with MAX_DATA lost, duplicated or reordered and ordered initial limits: data sent at most sender limit at most receiver limit in every reachable state, and updates strictly increase |
| `FlowControl.StepIsSafe` | src/core/flow_control.c:11-72 | each step keeps credit safety, and each advertised limit exceeds the one before |
| `FlowControl.LimitsOnlyGrow` | src/core/flow_control.c:56-72 | both limits only grow along a run |
| `FlowControl.InitialLimitsMatter` | src/core/flow_control.c:11-24 | credit safety after a full first flight holds if and only if the initial limits are ordered |
| `FlowControl.BlockedSenderIsReleased` | src/core/flow_control.c:36-72 | a sender out of credit whose data has all arrived can send again once the receiver has consumed and its update has arrived; the limit at least doubles (the program never takes all these steps on one record) |
| `FlowControl.CreditIsSpentOnce` | src/core/connection.c:961-970 | over every run of a record that is never consumed on, like the connection's, or never advertised from, like a stream's: no update is sent, both limits stay what they were and the data sent in all stays within the first limit |
| `FlowControl.FlowCtrl.Sent` | src/core/flow_control.c:26-28 | the limit is respected afterwards if and only if the send was allowed before |
| `FlowControl.FlowCtrl.Consumed` | src/core/flow_control.c:36-54 | takes no decided limit back; exactly once more than half the limit was received an update is owed, to that limit past what was received |
| `FlowControl.FlowCtrl.RaisePeerMax` | src/core/flow_control.c:56-60 | the limit becomes the maximum of both, so that order and repetition of MAX_DATA do not matter |
| `FlowControl.FlowCtrl.TakeUpdate` | src/core/flow_control.c:64-72 | the advertised limit never shrinks, grows if and only if an update was due, and none is due afterwards |
| `Bbr.InvAlways` | src/congestion/bbr.c:49-332 | over any ACKs, losses and sends: window at least 4800, gains match phase and cycle index, STARTUP means pipe not filled |
| `Bbr.AckKeeps` | src/congestion/bbr.c:297-314 | an ACK keeps this and sets the controls from the model |
| `Bbr.ControlledAlways` | src/congestion/bbr.c:237-273 | after every ACK of every run: the target is twice the BDP, the window at least that, at most twice that once the pipe is filled, and 4800 in PROBE_RTT; the quantum is a millisecond of pacing between 2400 and 65536 |
| `Bbr.BdpInNumbers` | src/congestion/bbr.c:35-40 | bandwidth times least RTT over a million, rounded down, and at least 4800 |
| `Bbr.PacingFollowsThePhase` | src/congestion/bbr.c:237-241 | the pacing rate is 2.77 times the bandwidth in STARTUP, 1/2.77 in DRAIN, the bandwidth in PROBE_RTT, and 5/4, 3/4 and 1 in the cycle of PROBE_BW, rounded down |
| `Bbr.ProbeRttExactlyWhen` | src/congestion/bbr.c:180-233 | after any run PROBE_RTT begins exactly when the least RTT is more than ten seconds old and the application is not the limit, and ends exactly when four packets or fewer are in flight 200 ms after that was first so |
| `Bbr.ProbeRttGivesTheWindowBack` | src/congestion/bbr.c:180-233 | PROBE_RTT saves the window it found and gives it back, within the bounds that hold outside |
| `Bbr.DrainEndsExactlyWhen` | src/congestion/bbr.c:136-149 | DRAIN ends exactly when no more than the BDP is in flight, unless PROBE_RTT comes first |
| `Bbr.CycleAdvancesExactlyWhen` | src/congestion/bbr.c:161-178 | the gain cycle advances by one of eight exactly when a round trip has passed |
| `Bbr.LossEndsStartupExactlyWhen` | src/congestion/bbr.c:316-332 | a loss ends STARTUP exactly when more than a fifth of what is in flight has been lost |
| `Bbr.BandwidthStep` | src/congestion/bbr.c:78-86 | a sample above the estimate replaces it at once; application-limited samples count only then; all others go into the windowed maximum |
| `Bbr.LeastRttIsTheMinimum` | src/congestion/bbr.c:89-103 | over ten seconds of ACKs the least RTT is exactly the minimum of their samples |
| `Bbr.FirstAckProbesExactlyWhen` | src/congestion/bbr.c:89-103 | the first ACK of a connection leads into PROBE_RTT exactly when it has a sample, is not application limited and the clock is past ten seconds |
| `Bbr.LossKeeps` | src/congestion/bbr.c:316-332 | a loss keeps this and the window |
| `Bbr.ProbeRttWindow` | src/congestion/bbr.c:180-233 | every ACK that leaves BBR in PROBE_RTT leaves the window at exactly 4800 |
| `Bbr.FilledPipeIsForever` | src/congestion/bbr.c:106-132 | once the pipe is filled STARTUP never returns |
| `Bbr.StartupEnds` | src/congestion/bbr.c:106-132 | with rates at most B and full_bw at least 4, STARTUP round starts number at most 3(B-full_bw)+3-count |
| `Bbr.AckPatience` | src/congestion/bbr.c:72-132 | each ACK that starts a round in STARTUP strictly decreases that measure |
| `Bbr.PlateauIsNoticedExactlyFrom4` | src/congestion/bbr.c:106-132 | on a plateau the counter moves if and only if the bandwidth is at least 4 bytes per second |
| `Bbr.Controller.AckReceived` | src/congestion/bbr.c:297-314 | on the record updated in place, after any history of calls: window at least 4800 and exactly 4800 in PROBE_RTT, gains and phase match, a filled pipe stays filled |
| `Bbr.Controller.LossDeclared` | src/congestion/bbr.c:316-332 | after any history: the window stays, and the phase can only change from STARTUP to DRAIN |
| `WindowedFilter.EstimateIsSound` | src/congestion/windowed_filter.h:65-109 | for non-decreasing times the estimate is a sample really fed in, no older than the window, and the stamps stay ordered |
| `WindowedFilter.UpdateIsSound` | src/congestion/windowed_filter.h:65-109 | one update keeps this |
| `WindowedFilter.RunnersUpStayFresh` | src/congestion/windowed_filter.h:97-109 | without a rotation the second sample is no older than a quarter and the third no older than half of the window, and each gives way only to one at least as good or when stale |
| `WindowedFilter.NeverBetterThanTheWindow` | src/congestion/windowed_filter.h:65-109 | the estimate never beats the true extremum of the window |
| `WindowedFilter.UpdateIsExact` | src/congestion/windowed_filter.h:65-109 | an exact estimate stays the extremum of the window unless the best expires and the sample promoted in its place is beaten by one in the window: if and only if |
| `WindowedFilter.ExactExactlyWhen` | src/congestion/windowed_filter.h:65-109 | over any run the estimate is the extremum of the window if and only if no sample fed up to the last rotation and still in the window beats it |
| `WindowedFilter.NoRotationNoShortfall` | src/congestion/windowed_filter.h:65-109 | over a run in which no update rotates, the estimate is the extremum of everything fed |
| `WindowedFilter.CoverIsExact` | src/congestion/windowed_filter.h:80-95 | each of the three samples stays the best since it was taken if and only if the update does not rotate past a better new sample |
| `WindowedFilter.CoverExactlyWhen` | src/congestion/windowed_filter.h:65-109 | the same over whole runs |
| `WindowedFilter.CoveredEstimateIsExact` | src/congestion/windowed_filter.h:65-109 | then the estimate is the extremum of the window if and only if nothing in it as old as the estimate beats it |
| `WindowedFilter.BetterSampleWins` | src/congestion/windowed_filter.h:65-78 | after any run, a sample at least as good as the estimate becomes it at once, and all three samples are the best since they were taken again |
| `WindowedFilter.NewestIsMissedExactlyWhen` | src/congestion/windowed_filter.h:80-95 | the newest sample itself is missed exactly when the best expires and the promoted sample is worse |
| `WindowedFilter.NewestMissedExample` | src/congestion/windowed_filter.h:80-95 | a run that misses its newest sample |
| `WindowedFilter.EvictedExample` | src/congestion/windowed_filter.h:80-95 | a run that misses a sample in the window which is in none of the three places, after an update that does not rotate |
| `WindowedFilter.FilterObject.Add` | src/congestion/windowed_filter.h:65-109 | the array updated in place stays the filter of everything fed, and a sample at least as good as the estimate becomes it |
| `WindowedFilter.FilterObject.Best` | src/congestion/windowed_filter.h:51-53 | a value really fed in, no older than the window |
| `Pacing.Conformance` | src/congestion/pacing.c:25-82 | over any run of rate changes up to R and permitted sends in a period of T microseconds, bytes sent never exceed the bursts granted plus R T / 10^6 |
| `Pacing.OneBurst` | src/congestion/pacing.c:25-82 | without setting a stream rate anew the only burst granted is max_burst |
| `Pacing.SettingTheRateGrantsABurst` | src/core/stream_rate.h:35-41 | setting the per-stream rate refills the bucket: two full bursts pass at one instant |
| `Pacing.WaitIsExact` | src/congestion/pacing.c:30-58 | sending is possible after a wait if and only if the wrapped refill covers the deficit and the size is within the burst |
| `Pacing.DelayIsTight` | src/congestion/pacing.c:71-82 | impossible after any wait shorter than the delay, possible after any longer one unless the refill wraps |
| `Pacing.RefillCanWrap` | src/congestion/pacing.c:44-46 | the refill product wraps: a long wait can gain nothing |
| `Pacing.BudgetIsExact` | src/core/stream_rate.h:66-87 | the budget is exactly the largest permitted size |
| `Pacing.TokenBucket.Conforms` | src/congestion/pacing.c:18-82 | over the whole life of a bucket the bytes it permitted are at most the bursts granted plus its highest rate over the time it has seen |
| `Pacing.TokenBucket.Consume` | src/congestion/pacing.c:60-69 | a permitted send is counted in full and keeps that account; tokens never exceed the burst |
| `Pacing.TokenBucket.Replenish` | src/congestion/pacing.c:30-53 | a refill keeps the account: it gains no more than the highest rate over the time passed |
| `Pacing.TokenBucket.UseRate` | src/congestion/pacing.c:25-28 | changing the rate keeps the account and grants no burst |
| `Pacing.StreamBurst` | src/core/stream_rate.h:35-41 | the burst is a tenth of a second at the rate, rounded down, and at least 4800 bytes; the bucket starts full |
| `Pacing.SendingDrains` | src/congestion/pacing.c:60-69 | a send takes its bytes off the bucket, never below empty, and nothing without a rate |
| `Pacing.TokenBucket.UseStreamRate` | src/core/stream_rate.h:35-41 | setting the stream rate keeps the account only at the price of one more burst |
| `PriorityQueue.RootIsMinimum` | src/util/priority_queue.c:86-91 | the root of a heap is a minimum |
| `PriorityQueue.SiftUpStep` | src/util/priority_queue.c:19-26 | a swap with the parent moves the only violation up |
| `PriorityQueue.SiftDownStep` | src/util/priority_queue.c:28-44 | a swap with the smallest child moves the only violation down |
| `PriorityQueue.RemoveRoot` | src/util/priority_queue.c:93-106 | moving the last entry to the root removes exactly the root and leaves one possible violation |
| `PriorityQueue.Heap.constructor` | src/util/priority_queue.c:46-61 | an empty heap |
| `PriorityQueue.Heap.SiftUp` | src/util/priority_queue.c:19-26 | restores heap order and keeps the multiset |
| `PriorityQueue.Heap.SiftDown` | src/util/priority_queue.c:28-44 | restores heap order and keeps the multiset |
| `PriorityQueue.Heap.Push` | src/util/priority_queue.c:69-84 | adds exactly one entry, growing when full, and keeps heap order |
| `PriorityQueue.Heap.Peek` | src/util/priority_queue.c:86-91 | a minimum, or nothing exactly when empty |
| `PriorityQueue.Heap.Pop` | src/util/priority_queue.c:93-106 | removes and returns a minimum and nothing else; nothing exactly when empty |
| `EventLoops.EventLoop.FireTimers` | src/platform/event_loop.c:95-112 | runs exactly the uncancelled timers due at now, in non-decreasing deadline order, drops the cancelled due ones, leaves all later ones |
| `EventLoops.RunExactly` | src/platform/event_loop.c:95-112 | a queued timer is run, as often as queued, if and only if it is due and not cancelled, and stays if and only if it is not due |
| `EventLoops.EventLoop.AddTimer` | src/platform/event_loop.c:69-86 | queues one fresh uncancelled timer |
| `EventLoops.EventLoop.CancelTimer` | src/platform/event_loop.c:88-93 | marks the timer and leaves the queue alone |
| `EventLoops.EventLoop.NextTimeout` | src/platform/event_loop.c:114-137 | drops only cancelled timers, and gives the least whole number of milliseconds that reaches the earliest remaining one |
| `PacketNumbers.ReconstructionIsExact` | src/core/packet.c:309-337 | for all numbers below 2^62: reconstruction returns the number sent if and only if it is within half a window of the expected one, or at an edge of the number space |
| `PacketNumbers.SentNumberIsUnderstood` | src/core/packet.c:309-350 | a number truncated to the chosen length, with 0 <= pn-L < 2^31, is recovered by every receiver between L and pn + half window - 2 |
| `PacketNumbers.LengthIsMinimal` | src/core/packet.c:339-350 | a shorter length is enough for a receiver at L if and only if the number is at most half a window plus one ahead, or below one window |
| `PacketNumbers.LengthIsNotAlwaysMinimal` | src/core/packet.c:339-350 | numbers of both kinds that get a byte too many |
| `Headers.LongRoundTrip` | src/core/packet.c:19-99 | a long header comes back, with the offset of its number, whatever follows, if and only if it is not a Retry and within the limits |
| `Headers.PrefixDecoded` | src/core/packet.c:139-249 | decoding a long header whatever became of the low four bits of its first byte |
| `Headers.OutsideLimits` | src/core/packet.c:139-249 | a Retry, an oversized token or payload, or a token outside an Initial never comes back |
| `Headers.ShortRoundTrip` | src/core/packet.c:101-135 | a short header comes back, whatever follows, if and only if its number fits its length |
| `Headers.EncodeLongInto` | src/core/packet.c:19-99 | writes exactly the encoding, or 0 exactly when it is impossible or does not fit |
| `Headers.EncodeShortInto` | src/core/packet.c:101-135 | writes exactly the encoding, or 0 exactly when it is impossible or does not fit |
| `Headers.WriteNumber` | src/core/packet.c:93-96 | the shifting loop writes the big-endian low bytes |
| `Headers.ReadNumber` | src/core/packet.c:242-244 | the shifting loop reads the big-endian number |
| `Headers.ReadIds` | src/core/packet.c:171-198 | version and connection ids, read at an advancing position |
| `Headers.ReadLengths` | src/core/packet.c:200-234 | token and payload length with their limits, read at an advancing position |
| `Headers.DecodeLongFrom` | src/core/packet.c:139-249 | the decoder, every field read at an advancing position, parses any bytes as the format that the round trip is about |
| `Headers.DecodeShortFrom` | src/core/packet.c:251-305 | the in-place decoder computes the specified parse |
| `HeaderProtection.XorTwice` | src/crypto/header_protection.c:97-108 | exclusive or with the same byte twice is the identity |
| `HeaderProtection.XorFlips` | src/crypto/header_protection.c:97-108 | exclusive or flips exactly the bits that the other operand has |
| `HeaderProtection.ProtectFlips` | src/crypto/header_protection.c:82-111 | protection flips exactly the mask's bits: of the first byte among the low 4 (long) or 5 (short), and of each number byte; nothing else changes |
| `HeaderProtection.UnprotectFlips` | src/crypto/header_protection.c:115-148 | its removal flips the same bits, over as many number bytes as the unmasked first byte says |
| `HeaderProtection.MaskFirstFacts` | src/crypto/header_protection.c:97-103 | masking the first byte keeps the form bit, and the type bits of a long header, and is its own inverse |
| `HeaderProtection.UnprotectUndoesProtect` | src/crypto/header_protection.c:82-148 | for every mask function, removing protection returns the packet and its number length; protection fails only for a short packet or a failing cipher |
| `HeaderProtection.ProtectChangesOnlyTheHeader` | src/crypto/header_protection.c:82-111 | only the first byte and the number bytes change |
| `HeaderProtection.ShortHeaderSurvives` | src/crypto/header_protection.c:82-148 | encode, protect, unprotect, decode returns every field of a short header, for any mask function |
| `HeaderProtection.LongHeaderSurvives` | src/crypto/header_protection.c:82-148 | the same for Initial, Handshake and 0-RTT headers, and the protected header already tells where the number is |
| `HeaderProtection.ProtectedPrefixIsReadable` | src/core/connection.c:500-538 | parsing a still protected long header finds every field but the number, at the right offset |
| `HeaderProtection.XorInto` | src/crypto/header_protection.c:105-108 | the masking loop: each number byte exclusive-ored with its byte of the mask |
| `HeaderProtection.ProtectPacket` | src/crypto/header_protection.c:82-111 | flips in place exactly the bits that the mask selects, or changes nothing |
| `HeaderProtection.UnprotectPacket` | src/crypto/header_protection.c:115-148 | flips in place exactly the bits that the mask selects, or changes nothing; the length is read from the unmasked first byte |
| `TransportParams.RoundTrip` | src/core/handshake.c:23-121 | every parameter comes back; the idle timeout comes back rounded down to a millisecond |
| `TransportParams.EncodableEntries` | src/core/handshake.c:42-88 | the parameters have an encoding if and only if three of them are below 2^62 |
| `TransportParams.WriteParam` | src/core/handshake.c:23-40 | writes one TLV, or 0 exactly when impossible |
| `TransportParams.WriteParams` | src/core/handshake.c:42-88 | writes all TLVs, or gives up with 0 exactly when one is impossible or does not fit |
| `TransportParams.ReadParams` | src/core/handshake.c:90-121 | the parsing loop computes the specified parse, partial record included |
| `Handshakes.HellosFit` | src/core/handshake.c:125-168 | both hellos fit the send buffer and together the transcript |
| `Handshakes.ReceiveKeyed` | src/core/handshake.c:522-542 | any message whatever is refused with the phase unchanged, or accepted with exactly the keys of the new transcript and shared secret; keys once there stay |
| `Handshakes.EveryRecordIsKeyed` | src/core/handshake.c:308-550 | in every reachable record, keys are available exactly once the hello is accepted and are those of its transcript and secret |
| `Handshakes.KeysAreForever` | src/core/handshake.c:349-550 | over any sequence of calls with any messages the keys are those of the record's own transcript and secret, and never change once there |
| `Handshakes.KeysBind` | src/core/handshake.c:173-275 | for injective primitives: records that send with the same application or handshake keys have the same secret, transcript and role; one that receives with them has the other role; keys of the two levels always differ |
| `Handshakes.DirectionsDiffer` | src/core/handshake.c:173-275 | no record sends with the keys it receives with |
| `Handshakes.MasterBinds` | src/core/handshake.c:173-300 | the same master secret means the same shared secret |
| `Handshakes.ScheduleIsInjective` | src/core/handshake.c:173-275 | secret, transcript, level and direction each change the keys |
| `Handshakes.InitialKeysBind` | src/crypto/handshake_crypto.c:135-180 | initial keys bind the connection id and the direction |
| `Handshakes.FirstSupportedCipher` | src/core/handshake.c:425-435 | the first offered cipher that is supported is chosen, none exactly when none is |
| `Handshakes.ClientHelloAccepted` | src/core/handshake.c:408-480 | an honest client hello leaves the server complete with the keys of both hellos; it has the client's parameters if and only if they could be encoded |
| `Handshakes.ServerHelloAccepted` | src/core/handshake.c:482-520 | an honest server hello is accepted if and only if it carries parameters, and gives the client the keys of both hellos |
| `Handshakes.FillCrypto` | src/core/handshake.c:564-580 | the next piece of the hello, in order, and as much of it as there is room for |
| `HandshakeNetwork.Agreement` | src/core/handshake.c:172-550 | over every run with drops, duplicates and reordering: a client with application keys has a complete server with equal transcript, secrets and crossed keys, and each holds the other's parameters, the server exactly when the client's could be encoded |
| `HandshakeNetwork.InvAlways` | src/core/handshake.c:349-550 | every reachable state has the expected records, and only copies of the two hellos and of HANDSHAKE_DONE in flight |
| `HandshakeNetwork.StepKeeps` | src/core/handshake.c:349-550 | each start, send and delivery keeps this |
| `HandshakeNetwork.FullRunCompletes` | src/core/connection.c:727-788 | the run without losses completes both sides |
| `HandshakeNetwork.CompletesExactlyWhen` | src/core/handshake.c:482-520 | some run completes the client if and only if the server's parameters can be encoded |
| `HandshakeObjects.HandshakeContext.constructor` | src/core/handshake.c:308-323 | a fresh record |
| `HandshakeObjects.HandshakeContext.EncodeHello` | src/core/handshake.c:125-168 | the hello in the send buffer |
| `HandshakeObjects.HandshakeContext.BeginClient` | src/core/handshake.c:349-377 | the client's start: the hello is in the send buffer and is the transcript; keys stay sound |
| `HandshakeObjects.HandshakeContext.BeginServer` | src/core/handshake.c:381-404 | the server's start: its initial keys are the client's, crossed; keys stay sound |
| `HandshakeObjects.HandshakeContext.TakeHelloParams` | src/core/handshake.c:438-443 | the parameters of a hello |
| `HandshakeObjects.HandshakeContext.Append` | src/core/handshake.c:445-449 | the transcript, refused when full |
| `HandshakeObjects.HandshakeContext.Answer` | src/core/handshake.c:451-480 | reply, transcript and keys |
| `HandshakeObjects.HandshakeContext.OnClientHello` | src/core/handshake.c:408-480 | the server's step, error paths included |
| `HandshakeObjects.HandshakeContext.OnServerHello` | src/core/handshake.c:482-520 | the client's step, error paths included |
| `HandshakeObjects.HandshakeContext.Receive` | src/core/handshake.c:522-542 | any message is refused with the phase unchanged, or leaves exactly the keys of the new transcript; keys once there are never replaced |
| `HandshakeObjects.HandshakeContext.OnDone` | src/core/handshake.c:544-550 | completes only a client that holds the keys of its transcript |
| `HandshakeObjects.HandshakeContext.Fill` | src/core/handshake.c:564-580 | the next piece of the hello and its offset |
| `HandshakeObjects.FindCipher` | src/core/handshake.c:424-435 | the first offered cipher that is supported |

## Left out

- Sockets, event-loop backends, threads, TCP/UDP/WebSocket transports, bindings, public API, logging, metrics: I/O plumbing.
- Cryptographic primitives: functions that always succeed, with the laws that X25519 commutes and that a packet opens only under the keys that sealed it; `nxp_aead_*`, HKDF and SHA-256 failures are not modelled.
- Handshakes.KeysBind: for primitives without collisions, as symbolic cryptography has them; SHA-256 and HKDF only make collisions infeasible.
- Pipe.EverythingArrives: states that a run exists, for a network that loses nothing; with losses the loss detection of `Recovery` has to step in, and the two are not joined.
- Allocation failure, and memory reclaimed by `free`.
- 0-RTT starts, session tickets, retry tokens, connection migration, heartbeat timers, session export, the connection rate limiter, proof of work and the memory allocators have no model: they are separate from the engine modelled here, and the handshake states that only 0-RTT uses are left out with them.
- Retry long headers and STREAM frames without a length as inverses: the code does not make them so, and the round-trip conditions say it.
- Packet-number length at the connection level: the call site passes the largest received number.
- The whole of `nxp_conn_send` and `nxp_conn_recv` besides the packing loop, the decode loop and handshake packets.
- HandshakeNetwork.Agreement: a 1-RTT packet that reaches a client before its keys is dropped; the code would parse it as plaintext.
- HandshakeNetwork.FullRunCompletes: nothing is said about runs with losses, since the code never retransmits a hello.
- SendPath.Connection.PackStreams: without per-stream rate limits; with one whose budget is zero the loop of the code does not end (`src/core/connection.c:1073-1079`).
- SendPath.Connection.StreamSend: the connection state test and the stream lookup before it are not modelled.
- Scheduler.RoundRobin.Next: fairness is stated per call, not across packets, since the application-limited check advances the queue too.
- RobinHood.HashMap.Put: the table's hash is any function of the key, and 32-bit wrap-around of the load test (beyond 42 million entries) is not modelled; `nxp_hash_map_foreach` is left out.
- RobinHood.NextPowerOfTwo: states the result, not the bit smearing that computes it.
- Pipe.StreamIsAPipe: for frames no longer than the receive buffer; a datagram buffer is far smaller, and the copies of the code need it to stay in bounds.
- StreamObjects.StreamObject.Receive: for frames no longer than the receive buffer, for the same reason.
- SendPath.Connection.Open: the stream limit test and the choice of the stream id are not modelled.
- FlowControl.CreditSafeAlways: byte counters are unbounded numbers; wrap-around at 2^64 is not modelled.
- Recovery.ConservedAlways: times, sizes and counters are unbounded numbers, except for the subtraction that takes an RTT sample, which wraps; a run is legal when packet numbers increase and packets are not sent as lost.
- PacketNumbers.ReconstructionIsExact: for frontiers below 2^62 and truncated numbers that fit their length, which is all the header decoders produce.
- Headers.EncodeShortInto: the connection id has the length that the caller passes separately in C.
- Headers.EncodeLongInto: a token pointer that is null with a non-zero length is not modelled.
- EventLoops.EventLoop.FireTimers: for callbacks that leave the queue alone; freeing a timer is its absence from the queue.
- Bbr.InvAlways: products are unbounded numbers; 64-bit wrap-around of rate times time is not modelled.
- Pacing.DelayIsTight: the product of rate and scale in the delay is an unbounded number; it wraps in C only for rates above 10^16.
- SpscRing.EveryInterleaving: sequentially consistent steps with stale loads of the other side's position; torn or reordered byte copies are not modelled.
- Frames.RoundTrip: of frames with the sizes that their C records fix (the ACK range array, 8-byte path data, 16-byte reset tokens).
- FrameDecoder.ProcessPayload: the dispatch on the frames is not modelled, except where other modules name it.
