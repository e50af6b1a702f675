# Verified model of the transport-stream analyser and pacer

A Dafny model of the stateful core of an MPEG transport-stream analyser and pacer written in C, with proofs about whole runs.

Concurrent code is a state machine: every shared access of a thread is one step, a run is any sequence of steps, and the theorems hold for every run from the initial state under sequential consistency. Code that updates an object in place is a class whose methods are proved against functions on values, and the laws are proved about those functions. Clocks, sockets and timing decisions are inputs, so a theorem covers all of their values. Counters are mathematical integers unless a width matters: the 64-bit wrap of the queue's room test, the 32-bit results of the bit reader, the 16-bit picture size and the 32-bit bucket counter are written out.

| files | part of the system |
|---|---|
| Mpmc, MpmcProgress, MpmcOvershoot, MpmcQueue | lock-free queue: interleaved, what a call left alone must do, runs that reach its bounds, and as an object used one call at a time |
| PacketPool, PacketLoss, PoolObject | reference-counted packet pool on that queue: interleaved, which pools can lose a packet, and as an object |
| SpscQueue, Connection, ConnectionProgress, Server, ServerProgress | packet ring, one connection, and worker scheduling over all of them: what every step keeps, and what a thread left alone must do |
| Tstd, TstdFlow, TstdObject | T-STD buffers (section 2.4.2 of ISO/IEC 13818-1) |
| PesScan | start-code scan over a scattered PES payload |
| BitString, BitReader, Sps, SpsSniffer | cached bit reader, Exp-Golomb codes, H.264 parameter sets |
| Crc32, CrcRemainder | section checksum, bitwise and table-driven, and as a polynomial remainder |
| PacerRing, PacerRingProgress, PacerClock, PacerLaws, PacerObject | pacer: shared transmit ring, and the departure schedule |
| Histogram, HistogramObject | sliding-window bitrate |
| Seqlock | shared-memory publication |
| PtsRecovery, PcrUnwrap, Inspector | time-stamp rollover and the PCR inspector |
| Alerts, AlertsObject | alert states and notice suppression |
| Bags, Modular | multisets of contributions, remainders |

Some promises of the code turned out to hold only under a condition. Each has a concrete run or input where it fails and an exact condition for when it holds:

- The free queue can refuse an index, which is then lost for good (`PacketPool.LostForever`), exactly when pops overtake the head that the push has loaded (`PacketPool.RefusedIffOvertaken`); so a pool can lose a packet if and only if it has at least two packets and two threads (`PacketLoss.LosesIff`, with the losing run in `PacketLoss.LossHappens`).
- Where the PES scan stops depends on how the payload is split into packets (`PesScan.SplitMatters`), exactly for a start code in the last three bytes (`PesScan.Accumulator.Scan`). Such a start code has no data, so what the scan inspects does not depend on the split.
- The cached bit reader cannot serve every width (`BitReader.WideReadLost`); it goes like a plain reader exactly when every operation is served (`BitReader.RunsAgreeIff`, `BitReader.ServedAt`).
- The reported height of a cropped interlaced 4:0:0 or 4:4:4 picture is wrong (`Sps.InterlacedCropMiscounted`, `Sps.SpsRoundTrip`); and profile 135 is not known (`Sps.UnknownProfile`, `Sps.ProfileReadIff`).
- PTS recovery loses a step back before the first epoch, and the wrap after the value 2^33 - 1 (`PtsRecovery.EarlierEpochLost`, `PtsRecovery.LargestStampLost`, `PtsRecovery.RecoveredIff`).
- PCR unwrapping starts over at a wrap of half the range or more (`PcrUnwrap.HalfRangeLost`, `PcrUnwrap.TicksIff`).
- The bitrate estimate counts packets from before a new base (`PacerLaws.BaseMiscounts`, `PacerLaws.EstimateMeasures`).
- The histogram counts a packet in the wrong bucket when the number of elapsed buckets wraps in 32 bits into the window (`Histogram.GapMissed`, `Histogram.BucketsIff`).

Where a comment and the code disagree, the model follows the code: the PCR inspector locks after 10 PCRs, where a comment says 30.

## Model

| member | source | states |
|---|---|---|
| Mpmc.Conservation | src/mpmc_queue.c:39-81 | in every interleaving of any number of pushers and poppers, the accepted items are exactly those popped, in slots, or with a pusher that has a ticket; tail never passes head; tickets balance slots, pushers and poppers |
| Mpmc.WaitingPopperHasPusher | src/mpmc_queue.c:71-75 | a popper whose slot is empty always has an in-flight pusher with a ticket for that slot |
| Mpmc.BlockedPusherHasPopper | src/mpmc_queue.c:49-57 | a pusher whose slot is occupied has a popper with a ticket for it, unless more tickets are out than slots |
| Mpmc.OvershootBound | src/mpmc_queue.c:42-49 | the loose room test lets tickets exceed the capacity, but by less than the number of threads |
| MpmcOvershoot.BoundReached | src/mpmc_queue.c:42-49 | for every capacity and number of threads some run has capacity + threads - 1 tickets out, the most there can be |
| MpmcOvershoot.BlockedAlone | src/mpmc_queue.c:49-57 | with two threads some run leaves a pusher facing an occupied slot while nobody pops |
| Mpmc.StepInv | src/mpmc_queue.c:39-81 | every atomic step keeps the ledger of items, the balance of each slot and the ticket bounds |
| MpmcProgress.FailsOnlyWhenEmpty | src/mpmc_queue.c:64-79 | in every run a pop gives up if and only if the tail it loaded is the head, and then the queue is empty; a lost race for the tail is retried |
| MpmcProgress.PopperAlone | src/mpmc_queue.c:60-81 | from every reachable state a popper left alone takes exactly the item at the tail within five steps, however stale its loads |
| MpmcProgress.PusherAlone | src/mpmc_queue.c:39-58 | from every reachable state a pusher left alone is refused exactly when the queue is full, and otherwise, its slot free, puts its item at the head |
| MpmcQueue.RoundUpCapacity | src/mpmc_queue.c:5-11 | the capacity becomes the least power of two that is large enough, and 0 past 2^63 |
| MpmcQueue.Queue.constructor | src/mpmc_queue.c:13-30 | a new queue is empty and every slot free |
| MpmcQueue.Queue.Push | src/mpmc_queue.c:39-58 | called alone: appends, and refuses exactly when full |
| MpmcQueue.Queue.Pop | src/mpmc_queue.c:60-81 | called alone: takes the oldest item, and fails exactly when empty |
| PacketPool.ExactlyOnePlace | src/tsa_packet_pool.c:25-49 | in every interleaving each index is exactly one of: in the free queue, in a thread's hands inside it, referenced, or lost; and ref_count is the number of references held |
| PacketPool.AcquireExclusive | src/tsa_packet_pool.c:25-34 | an index being handed out is unreferenced, not queued, and in no other thread's hands |
| PacketPool.RefusedIffOvertaken | src/tsa_packet_pool.c:42-49 | the free queue refuses an index if and only if the tail has passed the head the push loaded |
| PacketLoss.LosesIff | src/tsa_packet_pool.c:25-49 | some run of a fresh pool loses an index if and only if it has at least two packets and two threads |
| PacketLoss.LossHappens | src/tsa_packet_pool.c:42-49 | the losing run: one thread gives a packet back while another passes the others round until the tail is past the loaded head |
| PacketPool.LostForever | src/tsa_packet_pool.c:25-49 | a lost index is never referenced or handed out again in any continuation |
| PacketPool.FreshInv | src/tsa_packet_pool.c:6-16 | the state after creation satisfies the invariant of queue and pool |
| PoolObject.Pool.constructor | src/tsa_packet_pool.c:6-16 | all indices free, in order, none referenced |
| PoolObject.Pool.Acquire | src/tsa_packet_pool.c:25-34 | hands out the longest-free index with count 1; fails exactly when none is free |
| PoolObject.Pool.AddRef | src/tsa_packet_pool.c:36-40 | adds one reference and touches nothing else |
| PoolObject.Pool.Unref | src/tsa_packet_pool.c:42-49 | the last reference returns the index to the free list, which never refuses; every index stays either free or referenced |
| SpscQueue.Create | src/spsc_queue.c:6-21 | no queue of size zero; otherwise an empty one with one slot to spare |
| SpscQueue.Queue.Push | src/spsc_queue.c:29-43 | appends to the contents, and refuses exactly when one slot is left |
| SpscQueue.Queue.Pop | src/spsc_queue.c:45-58 | removes the oldest element, and fails exactly when empty |
| SpscQueue.Queue.Count | src/spsc_queue.c:60-69 | that many slots after the tail is the head, around the wrap |
| SpscQueue.Queue.IsFull | src/spsc_queue.c:71-76 | true exactly when the contents fill all slots but one |
| SpscQueue.Queue.IsEmpty | src/spsc_queue.c:78-83 | true exactly when there are no contents |
| Connection.NoInterference | src/spsc_queue.c:29-58 | a step of the producer or of the token holder never invalidates what the other has loaded |
| Connection.IoKeepsRing | src/tsa_server_pro.c:305-316 | every access of the I/O thread keeps the ring equal to the packets published and not retired |
| Connection.WorkerKeepsRing | src/tsa_server_pro.c:187-224 | every access of the token holder does too, and hands packets to the analyser in order |
| ConnectionProgress.WorkerDrains | src/tsa_server_pro.c:187-213 | a worker left alone reports the drops, analyses all that is queued in order, and releases the connection with an empty ring |
| ConnectionProgress.SliceServesOne | src/tsa_server_pro.c:197-213 | with the slice over at once exactly the oldest queued packet is analysed |
| ConnectionProgress.ReleaseRearms | src/tsa_server_pro.c:214-224 | released with packets behind, the connection is scheduled again; released empty, it stays unscheduled |
| ConnectionProgress.Receives | src/tsa_server_pro.c:305-316 | a packet is counted as dropped if and only if the ring is full, else exactly it is published, and a connection that was empty goes on to be scheduled |
| Server.TokenIffScheduled | src/tsa_server_pro.c:178-224 | in every interleaving of I/O thread, workers and sweepers a connection has at most one token, and one exactly while `scheduled` is set |
| Server.SingleConsumer | src/tsa_server_pro.c:187-213 | no two threads consume one ring or drive one analyser at once |
| Server.TicketBound | src/tsa_server_pro.c:305-316 | outstanding ready-queue tickets never exceed the number of connections |
| Server.RefusedIffOvertaken | src/tsa_server_pro.c:217-221 | with room for all connections a scheduling push is refused if and only if pops overtake the head it loaded |
| Server.RingIsFifo | src/spsc_queue.c:29-58 | under interleaving each ring is a bounded FIFO: analysed packets are a prefix of those sent, at most one is between, the rest is queued in order |
| Server.PacketAccounting | src/tsa_server_pro.c:188-204 | received = analysed + queued + pending drops + reported drops + what threads carry, for every connection at every moment |
| Server.StepInv | src/tsa_server_pro.c:725-733 | every step of any thread, the sweeper included, keeps tokens, rings and accounts |
| ServerProgress.WorkerTakesUp | src/tsa_server_pro.c:178-187 | from every reachable state a worker turning to the ready queue and left alone takes up exactly the connection at its tail, which is scheduled |
| ServerProgress.WorkerFinishes | src/tsa_server_pro.c:187-213 | from every reachable state a worker with an open connection, left alone, ends with everything sent analysed, the ring empty and the drops reported |
| ServerProgress.WorkerServesOne | src/tsa_server_pro.c:197-213 | from every reachable state, with the slice over at once, exactly the next packet is analysed |
| ServerProgress.ReleaseReschedules | src/tsa_server_pro.c:214-224 | from every reachable state a connection released with packets behind ends scheduled and its token on the way into the ready queue; one released empty ends unscheduled |
| ServerProgress.PushSettles | src/tsa_server_pro.c:217-221 | on the way into the ready queue: refused exactly when it is full; else, the slot free, the token is queued and the connection stays scheduled |
| ServerProgress.UndoTakesBack | src/tsa_server_pro.c:217-221 | a refused thread clears the flag again |
| ServerProgress.ReceiveSettles | src/tsa_server_pro.c:305-316 | from every reachable state the I/O thread left alone with a packet counts a drop if and only if the ring is full, else sends exactly that packet, and leaves a connection that was empty scheduled |
| ServerProgress.SweepSchedules | src/tsa_server_pro.c:725-733 | from every reachable state the sweeper passes a closed connection by and leaves an overdue open one scheduled |
| ServerProgress.ClosedIsLeft | src/tsa_server_pro.c:187 | from every reachable state a worker gives a closed connection up at once, with nothing analysed |
| Tstd.Conservation | src/tsa_engine_essence.c:64-99 | after any run: video bits arrived = TB + MB + EB + drained; audio TB + EB never exceeds arrived minus drained; fills are never negative; EB never exceeds its size |
| Tstd.TransportBufferPeak | src/tsa_engine_essence.c:47-66 | TB is the maximum over k of the bits arrived from packet k on less the bits that could leak after it |
| Tstd.OverflowIff | src/tsa_engine_essence.c:171-175 | the overflow event fires if and only if some suffix of the arrivals exceeds the TB size plus its leakage |
| Tstd.LeakSplit | src/tsa_engine_essence.c:64 | splitting an interval changes the unclamped leak by at most one Q64 unit |
| Tstd.Due | src/tsa.c:551-558 | the access units served are the longest prefix of the queue with DTS at most STC |
| Tstd.DrainTurn | src/tsa.c:551-558 | clamping EB after every access unit comes to clamping once after all |
| TstdFlow.LeakExact | src/tsa_engine_essence.c:64 | a leak is rate times interval in units of 2^-64 bit, rounded down |
| TstdFlow.NothingHeldBack | src/tsa_engine_essence.c:64-99 | TB passes on all its rate carries or runs empty; video MB passes on all its rate carries unless it runs empty or EB fills up; audio EB takes all of it unless it fills up |
| TstdFlow.MultiplexPeakFresh | src/tsa_engine_essence.c:72-93 | over any run without back-pressure MB is the maximum over k of what TB passed on from packet k on less what the MB rate could carry |
| TstdFlow.MultiplexPeak | src/tsa_engine_essence.c:72-93 | the same from any state |
| TstdFlow.ClockIsLatest | src/tsa_engine_essence.c:42-48 | every leak interval starts where the last one ended, over any run: the leak clock is the latest packet time |
| TstdFlow.TransportRate | src/tsa_engine_essence.c:54-62 | TB leaks at 1.01 times the first known of five rates |
| TstdFlow.MultiplexRate | src/tsa_engine_essence.c:79-82 | MB leaks at the first known of four rates |
| TstdFlow.DrainsWhatIsDue | src/tsa.c:548-559 | EB gives up the bits of exactly the due units at the front, or all it has |
| TstdObject.EsTrack.LeakUntil | src/tsa_engine_essence.c:40-99 | the in-place leak does what the value model does, for video and audio, full EB or not |
| TstdObject.EsTrack.OnPacket | src/tsa_engine_essence.c:169-175 | leak, then 188 bytes arrive; reports overflow exactly when TB exceeds its size |
| TstdObject.EsTrack.Enqueue | src/tsa_es.c:410-417 | appends an access unit to the ring unless 31 wait already |
| TstdObject.EsTrack.DrainUntil | src/tsa.c:548-559 | removes exactly the due prefix and leaves max(0, EB - its total) |
| TstdObject.EsTrack.Discontinue | src/tsa_engine_essence.c:157-166 | empties buffers and queue |
| PesScan.NalusExact | src/tsa_es.c:258-286 | the references list exactly the offsets of start codes and of NAL units in the contiguous payload, each once, ascending |
| PesScan.Accumulator.Scan | src/tsa_es.c:258-371 | the scan stops at exactly the start codes of the concatenation that are followed by a byte, each once and in order, and at one in the last three bytes if and only if the byte before it is in the same packet, not zero and not the end of another start code; it inspects exactly the NAL units of the concatenation, each as far as its packet goes |
| PesScan.SplitMatters | src/tsa_es.c:261-276 | the same four bytes make the scan stop in one packet and not in two |
| PesScan.Accumulator.GetPtr | src/tsa_es.c:58-70 | the rest of the packet holding an offset of the concatenation; none exactly past its end |
| PesScan.Accumulator.CopyData | src/tsa_es.c:73-84 | equals slicing the concatenation |
| PesScan.Accumulator.CheckStartCode | src/tsa_es.c:87-91 | sees 00 00 01 across packet borders exactly when the concatenation has it |
| PesScan.Accumulator.Append | src/tsa_es.c:468-475 | extends the concatenation, up to the reference limit |
| PesScan.Accumulator.Clear | src/tsa_es.c:374-388 | leaves an empty payload |
| Crc32.BitwiseCrc | src/tsa_utils.c:118-129 | the nested loop computes the checksum of the message bits |
| Crc32.InitTable | tools/tsa_generator.c:30-38 | entry i is the register after shifting byte i through it |
| Crc32.TableCrc | tools/tsa_generator.c:39-45 | one lookup per byte gives the same checksum, for every byte string |
| Crc32.TableTurn | tools/tsa_generator.c:42 | eight bitwise turns are one table turn |
| CrcRemainder.CrcIsRemainder | src/tsa_utils.c:118-129 | for every byte string a word is the checksum if and only if it is the remainder over GF(2) of the message times x^32, first 32 bits complemented, by the generator written with its exponents (Annex A of ISO/IEC 13818-1) |
| Crc32.ChecksIffOwnCrc | src/tsa_utils.c:131-133 | a section with four more bytes checks to 0 if and only if they are its own checksum, big-endian |
| Crc32.BurstDetected | src/tsa_utils.c:118-129 | equal-length sections that differ only within 32 consecutive bits never share a checksum |
| BitReader.Replay | include/tsa_bitstream.h:16-67 | any run of peeks, skips, reads and Exp-Golomb decodes of any width through the 64-bit cache returns and consumes what a plain bit-string reader does, if and only if every operation is served |
| BitReader.RunsAgreeIff | include/tsa_bitstream.h:31-48 | the same as a law about runs on bit strings |
| BitReader.ServedIff | include/tsa_bitstream.h:31-48 | one read, skip or peek agrees with the plain one exactly when the cache holds its bits, or there are no more |
| BitReader.ServedAt | include/tsa_bitstream.h:16-21 | after c bits the cache serves n more if and only if at most 64 are left or n + c % 8 <= 64 |
| BitReader.WideReadLost | include/tsa_bitstream.h:36-48 | after 7 of 128 bits a read of 58 returns 0 and consumes nothing, and a skip of 58 skips 57 |
| BitReader.Reader.Refill | include/tsa_bitstream.h:16-21 | keeps the unread bits and fills the cache unless the input is used up |
| BitReader.Reader.PeekBits | include/tsa_bitstream.h:31-34 | the next n unread bits exactly when the cache holds them, else 0 |
| BitReader.Reader.SkipBits | include/tsa_bitstream.h:36-40 | drops n unread bits exactly when the cache holds them or all that is left, else only the cached ones |
| BitReader.Reader.ReadBits | include/tsa_bitstream.h:42-48 | the next n bits, consumed, exactly when the cache holds them; otherwise 0 and nothing consumed |
| BitReader.Reader.ReadUeBits | include/tsa_bitstream.h:50-58 | decodes ue(v) from the unread bits |
| BitReader.Reader.ReadSeBits | include/tsa_bitstream.h:60-67 | decodes se(v) from the unread bits |
| BitReader.UeRoundTrip | include/tsa_bitstream.h:50-58 | decoding undoes encoding and consumes exactly the 2k + 1 bits of the code, for prefixes of up to 30 zeros |
| BitReader.SeRoundTrip | include/tsa_bitstream.h:60-67 | the same for signed values |
| Sps.SpsRoundTrip | src/nalu_sniffer.c:7-100 | writing any in-range parameter set of any profile but 135 and parsing it gives back profile, level, chroma format and width; and the height if and only if the picture is progressive, 4:2:0, 4:2:2 or not cropped vertically |
| Sps.InterlacedCropMiscounted | src/nalu_sniffer.c:88-98 | a 1920 x 1080 interlaced 4:4:4 parameter set that is reported as 1920 x 1084 |
| Sps.ProfileReadIff | src/nalu_sniffer.c:18-21 | the parser reads every parameter set of a profile rightly if and only if the profile is not 135, the one of the syntax's thirteen it does not know |
| Sps.UnknownProfile | src/nalu_sniffer.c:18-21 | any parameter set of profile 135 is reported as 4:2:0, and there is a 4:4:4 one |
| Sps.GetLists | src/nalu_sniffer.c:30-44 | the scaling-list loops consume exactly what was written, with early ends and absent lists |
| Sps.GetPoc | src/nalu_sniffer.c:51-63 | each picture-order kind is skipped exactly |
| SpsSniffer.SniffSps | src/nalu_sniffer.c:7-100 | the parser over the cached reader does what the plain parser does, gives back what any in-range parameter set but of profile 135 was written from, and leaves the record alone below ten bytes |
| SpsSniffer.ReadScalingList | src/nalu_sniffer.c:33-42 | the delta loop skips one list |
| SpsSniffer.ReadPicOrder | src/nalu_sniffer.c:51-63 | reads past the picture-order fields |
| SpsSniffer.ReadFrame | src/nalu_sniffer.c:65-99 | frame size with cropping in 16 bits |
| PacerRing.Occupancy | src/tsp.c:185-229 | in every interleaving of producer and sender at most RING_BUFFER_SIZE - 19 packets are unsent |
| PacerRing.UnsentUntouched | src/tsp.c:135-141 | no step changes the slot of an unsent packet |
| PacerRing.SentInOrder | src/tsp.c:91-116 | what was sent is a prefix of what was queued, and no batch leaves before the stamp of its first packet |
| PacerRing.InputsInOrder | src/tsp.c:185-249 | the queued stream without its stuffed packets, all null packets, is the accepted inputs in order |
| PacerRingProgress.SenderAlone | src/tsp.c:91-116 | from every reachable state a sender left alone with a full batch queued sends exactly the next batch if the first stamp has come, and nothing if not |
| PacerRingProgress.ProducerAlone | src/tsp.c:185-188 | from every reachable state an idle producer takes a packet exactly when at least 256 slots are free, and queues it unchanged with its stamp |
| PacerRingProgress.StuffAlone | src/tsp.c:224-228 | after a stuffed packet the producer may go on stuffing exactly while more than 20 slots are free |
| PacerClock.PcrSpacing | src/tsp.c:206-233 | PCR packets stamped from one base are spaced as their PCRs to within 1 ns, with no drift |
| PacerClock.Stuffing | src/tsp.c:220-233 | stuffed nulls are one packet time apart, strictly before the PCR packet, and leave at most one packet time unless the ring filled |
| PacerClock.EvenlySpaced | src/tsp.c:239-246 | in BASIC and CBR mode k consecutive stamps span at least k - 1 packet times and none lags its call's clock by more than 500 ms |
| PacerLaws.PacketTime | src/tsp.c:240 | a packet time is 1504 bits at the bitrate, in nanoseconds rounded down |
| PacerLaws.PlainExact | src/tsp.c:239-246 | in every run and mode a packet not paced by its PCR is stamped exactly one packet time after the stamp before it, or with its call's clock, the latter exactly when that is more than 500 ms past |
| PacerLaws.ExactPace | src/tsp.c:239-246 | in BASIC and CBR mode stamps i to j without a catch-up span exactly j - i packet times |
| PacerLaws.PacedByPcrIff | src/tsp.c:194-205 | in every run a packet is paced by its PCR exactly when the mode follows PCRs, it has one, and its PID is the configured one or no other was followed |
| PacerLaws.NewBaseIff | src/tsp.c:206-210 | in every run such a packet starts a new base exactly when there is none, the sender lost it, or its PCR is behind the last; the base is 10 ms after the later of stamp and clock |
| PacerLaws.EstimateMeasures | src/tsp.c:214-218 | after every run the estimate measures, or moves a sixteenth towards, the rate of the packets since the last PCR plus those carried over a new base |
| PacerLaws.BaseMiscounts | src/tsp.c:206-218 | a packet before the first PCR and a PCR 1 ms later: twice the rate is measured |
| PacerClock.ResyncForward | src/tsp.c:36-44 | a new base starts at least 10 ms after the last stamp and after the clock |
| PacerClock.EstimateFollows | src/tsp.c:214-218 | the bitrate estimate moves a sixteenth of the way to the rate measured since the last PCR |
| PacerClock.SinglePid | src/tsp.c:194-205 | all PCR packets that set the clock are on one PID, the configured one if any |
| PacerClock.NsExact | include/tsa_bitstream.h:101-104 | ticks to nanoseconds loses less than 1 ns |
| PacerObject.Scheduler.EnqueueAll | src/tsp.c:181-250 | accepts packets until one finds fewer than 256 slots free, and schedules them as the value model does, for every progress of the sender during the call |
| PacerObject.Scheduler.Stuff | src/tsp.c:224-228 | the stuffing loop pushes exactly the nulls of the model, up to the one after which at most 20 slots stay free |
| PacerObject.Scheduler.OnClock | src/tsp.c:206-237 | a PCR packet resynchronises or is stamped from the base |
| PacerObject.Scheduler.OffClock | src/tsp.c:239-246 | any other packet follows one packet time later, or now |
| PacerObject.Scheduler.SyncWallclock | src/tsp.c:36-44 | ties the PCR to a wall clock after both the schedule and now |
| Histogram.BucketsMatchLog | src/tsa_histogram.c:42-80 | after any timely run the bucket k places back holds exactly the bits logged in its 10 ms, also after a gap longer than the window |
| Histogram.BucketsIff | src/tsa_histogram.c:42-80 | after a timely run one more packet leaves every bucket equal to the log if and only if the 32-bit count of elapsed buckets is exact or no shorter than the window |
| Histogram.GapMissed | src/tsa_histogram.c:61-77 | two packets 2^32 buckets apart are counted in one bucket |
| Histogram.KeepsUpIff | src/tsa_histogram.c:61-77 | the current bucket contains now after an update if and only if the 32-bit count of buckets did not wrap into the window |
| Histogram.MetricsMeaning | src/tsa_histogram.c:22-40 | p99 is the second largest rate: at most one exceeds it, at least two reach it; minimum and maximum are attained and enclose it |
| Histogram.RateMeaning | src/tsa_histogram.c:22-40 | a rate is a hundred times the bits of a 10 ms bucket |
| Histogram.RollMetrics | src/tsa_histogram.c:54-80 | after every roll the metrics describe the rolled buckets |
| Histogram.RollBack | src/tsa_histogram.c:70-74 | rolling m buckets clears m and shifts the others |
| Histogram.SortSorts | src/tsa_histogram.c:35 | the sorted rates are ascending and the same rates |
| HistogramObject.Meter.Tick | src/tsa_histogram.c:54-80 | the in-place roll, clear and metrics do what the value model does |
| HistogramObject.Meter.AddPacket | src/tsa_histogram.c:42-52 | starts the window on the first packet, rolls, and counts into the current bucket |
| HistogramObject.Meter.UpdateMetrics | src/tsa_histogram.c:22-40 | the loop computes minimum, maximum and p99 of all buckets |
| HistogramObject.Drive | src/tsa_histogram.c:42-80 | the object driven through any timely run ends with buckets equal to the log |
| Seqlock.AcceptedIsPublished | src/tsa_server_pro.c:650-712 | in every interleaving each copy the viewer accepts is one published block, whole, and it never shows an older or the same one again |
| Seqlock.QuietCopyAccepted | src/tsa_top.c:102-111 | a viewer left alone with a new block accepts exactly that block |
| PtsRecovery.RecoveredIff | src/tsa.c:199-216 | for true steps below 2^32 a run returns the true times from the first epoch if and only if they never precede that epoch and never leave it straight after 2^33 - 1 |
| PtsRecovery.EarlierEpochLost | src/tsa.c:210-213 | stepping back before the first epoch returns values one epoch too high, then and after |
| PtsRecovery.LargestStampLost | src/tsa.c:201-205 | after 2^33 - 1 the wrap is missed |
| PtsRecovery.Recoverer.Recover | src/tsa.c:199-216 | one call in place |
| PtsRecovery.RecoverAll | src/tsa.c:199-216 | a whole run through the object, with the same condition |
| PcrUnwrap.TicksIff | src/tsa_pcr_clock.c:26-58 | a PCR moving forward by less than its range unwraps to the true ticks if and only if each step is below half the range or stays within one turn |
| PcrUnwrap.HalfRangeLost | src/tsa_pcr_clock.c:32-35 | a wrap of half the range is taken for a step back |
| PcrUnwrap.UnwrapAll | src/tsa_pcr_clock.c:43-80 | the clock object over a whole run, with the same condition |
| PcrUnwrap.PcrClock.UpdateWith | src/tsa_pcr_clock.c:43-80 | one PCR in place |
| PcrUnwrap.AxisTrails | src/tsa_pcr_track.c:90-141 | the nanosecond axis trails the exact time since its epoch by less than 1 ns per PCR seen, over any run, with resets |
| PcrUnwrap.AxisResetIff | src/tsa_pcr_track.c:131-141 | the axis starts over exactly on a step of more than five seconds |
| PcrUnwrap.Track.OnCall | src/tsa_pcr_track.c:112-119 | the time axis of one call in place, with or without a PCR |
| Inspector.OneErrorPerTen | src/tsa_clock.c:30-116 | over any run 10 times the errors plus min(pcr_count, 10) is at most the PCRs seen |
| Inspector.ErrorBudget | src/tsa_clock.c:30-116 | the same for any stretch of a run, and LOCKED implies pcr_count at least 10 |
| Inspector.TightFromStart | src/tsa_clock.c:30-116 | for every k some run of 10k + 1 PCRs has k errors |
| Inspector.LocksOnlyWhenSteady | src/tsa_clock.c:54-68 | it locks only on ten PCRs in a row with no discontinuity, step back or step over 100 ms |
| Inspector.SteadyLocks | src/tsa_clock.c:54-116 | a steady stream of any length costs no error and is locked exactly from its tenth PCR on |
| Inspector.ErrorIff | src/tsa_clock.c:70-116 | a locked inspector counts one error, and drops the lock, exactly on a PCR at most 5 s on that comes more than 50 ms of PCR time or, live, 100 ms of arrival time after the last, once per last PCR |
| Inspector.UpdateValid | src/tsa_clock.c:70-116 | an error is counted only while locked, on a violation of at most 5 s |
| Inspector.Clock.OnPacket | src/tsa_clock.c:30-116 | one packet in place |
| Inspector.Clock.Clear | src/tsa_clock.c:17-28 | forgets everything but the error count |
| Alerts.FiringAndResolving | src/tsa_alert.c:82-120 | with a clock that does not go back, firing and resolving alternate for each alert, needs_resolve_msg is set exactly while firing, and a resolve comes more than 5 s after every accepted error |
| Alerts.StillFiring | src/tsa_alert.c:192-222 | an alert still firing after a check had an error accepted within 5 s |
| Alerts.NoticesSpacedOut | src/tsa_alert.c:16-57 | two notices for one (id, pid) less than a window apart: a colliding key took the slot in between |
| Alerts.CausesFireAlone | src/tsa_alert.c:59-80 | in every run an alert that loss of sync or continuity errors explain starts firing only while that cause is not firing |
| Alerts.AcceptedIff | src/tsa_alert.c:59-120 | in any state an error is accepted, and its alert fires or goes on firing, if and only if no cause of it is firing; otherwise nothing changes but the clock |
| Alerts.HeldBackIff | src/tsa_alert.c:16-57 | in every run the notice of a newly firing alert is held back if and only if one for the same key went out less than a window ago and no other key has taken the slot since |
| Alerts.CheckReleases | src/tsa_alert.c:164-190 | after a check exactly the cache entries whose window is not over are active |
| AlertsObject.Board.ShouldSuppress | src/tsa_alert.c:16-57 | holds a notice back exactly when it adds none, and updates the slot as the model does |
| AlertsObject.Board.UpdateAlert | src/tsa_alert.c:82-120 | one error in place; a notice goes out exactly when one is recorded |
| AlertsObject.Board.CheckResolutions | src/tsa_alert.c:164-222 | the aggregation and resolution loops over all entries and alerts |

## Left out

- Sockets, SRT, HTTP, PCAP, Lua, the text user interface, JSON and metrics output, logging: input and output only.
- Floating point: regression, alpha-beta filter, drift, jitter, EMA bitrates of the PCR track, health score, rate limiter.
- Liveness under interference: progress is stated for a thread left alone, from every reachable state; no fairness is assumed.
- Weak memory ordering: the model is sequentially consistent. First-in first-out order of the MPMC queue under concurrency does not hold and is not claimed.
- Immediate wake-up of a worker: the `was_empty` test can miss one and the sweeper repairs it; no bound on the delay is stated.
- Packet forwarding, snapshot commits and the time-slice clock in the worker: they do not touch the scheduling state; the end of a slice is an arbitrary choice.
- Tstd.Conservation: integers are unbounded; it is the C computation as long as rate times interval stays below 2^63. The stream type is fixed between resets.
- Tstd: the predictive underflow and VBV estimates after the leak, and the underflow checks around the drain.
- PesScan: what is done with an inspected NAL unit; its data view ends with the packet it starts in, as in the source.
- PesScan.Accumulator.Clear: payloads are a list of slices; that the packets go back to the pool, found from a raw packet address, is not modelled.
- BitReader.Reader.ReadBits: a read or peek of exactly 64 bits with a full cache, where the C mask shift is undefined; the model returns the low 32 bits.
- BitReader.UeRoundTrip: prefixes of 31 or 32 zeros, where the C shift overflows.
- Sps: emulation prevention bytes, VUI, the H.265 parser, slice headers and SEI.
- PacerClock: 64-bit overflow of the bitrate estimate; a PCR flag in a packet without sync byte 0x47; and a sender that drops the base between the producer's two reads of it (it may drop it between any two packets).
- PcrUnwrap: PCR values of 2^33 x 300 or more, which only an extension above 299 can produce.
- PcrUnwrap.Track.OnCall: arrival checks, error counting, bitrate settlement and the sample window of the same function are not modelled; AxisTrails covers initialisation and resets.
- Alerts: message texts, user masks and the timeouts that raise PAT, PMT, SDT, NIT and caption alerts, which enter as errors; a clock that goes back.
- Seqlock: one viewer; viewers write nothing shared. The content of the block is arbitrary words.
- PTS recovery's second writer (the ES track storing the last PTS itself): the recovery is modelled with its own state only.
- Packet feeding and resynchronisation, PSI tables, HLS, configuration, plugins and the second shaper library.
