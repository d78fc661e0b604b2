# PulseLog in Dafny

A model of the core of PulseLog, a partitioned, replicated, append-only log
broker, and proofs about it. `dafny verify dfyconfig.toml` checks everything.

Concurrent code is a step system: every atomic access, message or lock-protected
call is a step, and the theorems speak about every reachable state. Objects that
update their fields are classes whose `Valid()` each method keeps. Loops are
methods proved against specification functions.

| file | models |
|---|---|
| `PartitionReplica.dfy`, `Replication.dfy`, `FollowerHistory.dfy`, `Sweep.dfy` | the leader's follower and waiter bookkeeping; leader, followers and network over every run; what that bookkeeping means in terms of the run's history; the flusher's sweep |
| `Flush.dfy` | one appender against one flusher, access by access |
| `MpmcQueue.dfy`, `EventLoop.dfy` | the ticket queue; the task queue and wakeup protocol built on it |
| `Record.dfy`, `Segments.dfy`, `Recovery.dfy`, `PartitionLog.dfy`, `Fetch.dfy` | the record format; a segment with its sparse index; crash recovery; the segmented log; serving a fetch |
| `Frame.dfy`, `Connection.dfy` | the wire frame and decoder; a connection's output queue and read buffer |
| `Crc32c.dfy`, `CrcPolynomial.dfy` | slicing-by-8 CRC-32C; the checksum as a polynomial remainder |
| `Histogram.dfy`, `Bytes.dfy`, `Wrappers.dfy` | the latency histogram; little-endian integers; options and results |
| `Assignor.dfy`, `GroupCoordinator.dfy`, `OffsetStore.dfy` | partition assignment; group membership and the commit fence; the offset journal |

Properties that fail for some inputs are stated at such an input and with the exact condition:

- `SingleCellOverrun`, `CapacityTwo`: a ring rounded up to one cell accepts a second value before the first is taken. The bound on outstanding values holds exactly for two cells or more.
- `AccurateIff`, `CloseIff`: the histogram's bucket loop stops at 2^62, and values from there on are reported too low. The error bound holds exactly below 2^62.
- `MebibyteValue`, `LargeRecordStalls`, `IntactStallsIff`: recovery reads a 1 MiB window and never grows it, so it never finishes on a record larger than that although records may be 16 MiB.
- `StaleEntry`, `CutBeforeIndex`, `LandingIff`, `Recover`: a truncation cuts the log file before the index. After a crash between the two, recovery from the index starts past the end of the file and adopts an end position and offsets that no record backs. Recovery from the index finds the valid run exactly when the last index entry lies on it.
- `LeftoverEntry`, `Recover`: index entries beyond the recovered run are removed exactly when bytes are cut off as well.
- `OversizedValue`, `SecondRecordUnreachable`, `PositionFor`: the scan of a lookup gives up on a record of more than 16 MiB in total, while the format allows four bytes more. A lookup succeeds exactly when no such record lies between its index entry and its target.
- `TruncationFails`, `TruncateTo`: when that lookup fails, the segments after the cut are already deleted and the log end still counts their records.
- `StrandedRun`, `QuiescentSweep`: a follower evicted while caught up is never probed again, so a waiter can stay pending. At rest the sweep completes a waiter exactly when leader and in-sync followers make a quorum.
- `LostTail`, `BehindRetention`, `NeverResumes`, `SentIsAppended`: a follower that lost records it had reported, or whose log ends before the leader's first record, is never sent what it lacks, and its log never grows again. docs/REPLICATION.md says the leader resumes from the reported offset, or from the log start. A batch that is sent is appended exactly when the follower's log ends at the greater of its recorded end and the leader's log start, and then `CatchUp` brings it level.
- `CounterStaysUp`, `QuietFlush`: an append between the flusher's two reads is flushed and not subtracted, and further flushes find nothing to do and leave the counter. A flush clears the counters exactly when there is something to flush or nothing is counted.
- `TwoFramesOneEvent`, `OnReadable`: complete frames beyond the per-event limit stay in the buffer, also when no more bytes will come. None stays exactly when the event held no more than the limit.
- `MaybeRoll`, `RollSegment`: rolling an empty segment would repeat its base. `MaybeRoll` does it exactly when the active segment is empty and the batch has more than 4 GiB, which no frame can carry.
- `NegativePartition`, `ReplayIff`: a bare commit to a negative partition, or with a string of 64 KiB or more, is journalled and not replayed. Commits decoded from requests are never of that kind, and for them `RequestsReplay` needs no condition.

## Model

| member | source | states |
|---|---|---|
| Replication.QuorumDurability | src/broker/partition_replica.cc:206-256 | over every run, once a quorum waiter is answered OK each record up to its offset is on media, equal to the leader's, on a majority of replicas, then and in every later state |
| Replication.MinorityLoss | include/pulselog/metadata/cluster_metadata.h:51 | a quorum of holders keeps a holder after losing any minority of replicas |
| Replication.LogMatching | src/broker/request_handler.cc:853-894 | in every reachable state, under delayed, repeated, reordered or lost messages and follower crashes, each follower's log is a prefix of the leader's |
| Replication.HighWaterMarkSafety | src/broker/partition_replica.cc:70-100 | the mark never falls nor passes the log end; when a step raises it, every follower then in sync has reported that far and, unless it lost records, holds the leader's records below it |
| Replication.RunInv | src/replication/replicator.cc:144-293 | the invariant behind these: every message and report is a truth about the past, every answered waiter is on a majority |
| Replication.RunGrows | src/storage/partition_log.cc:283-329 | along a run the leader's log, its flushed part, the mark and the answered waiters only grow |
| Replication.CountIsSound | src/broker/partition_replica.cc:206-256 | the followers counted for a waiter never exceed those that have really flushed past it |
| FollowerHistory.RecordIsHistory | src/broker/partition_replica.cc:115-173 | in every reachable state a follower is in sync if and only if it has been heard of since its last eviction, and its recorded log end and flushed offset are the greatest it ever reported, or zero |
| FollowerHistory.AnsweredExactly | src/broker/partition_replica.cc:206-256 | at every report, eviction, append or new waiter, a quorum waiter stays pending if and only if leader and followers confirmed by the history are no majority, and otherwise is answered there |
| FollowerHistory.MarkFollows | src/broker/partition_replica.cc:70-100 | at every report, eviction or append the mark is at least the greatest offset that every follower heard of since its eviction has reported, and has not moved otherwise |
| FollowerHistory.OnlyQuorumWaits | src/broker/partition_replica.cc:220-242 | no leader-acknowledged or unacknowledged request is ever left waiting |
| FollowerHistory.CatchUp | src/replication/replicator.cc:144-293 | one exchange over any batch leaves a follower that stands where the leader thinks with exactly the leader's records up to there, and the leader knowing it |
| FollowerHistory.SentIsAppended | src/broker/request_handler.cc:871-894 | a sent batch is appended if and only if the follower's log ends at its recorded end or, if later, at the leader's log start |
| FollowerHistory.NeverResumes | src/replication/replicator.cc:169-178 | a follower whose log ends below that point, with no batch for it under way, never grows again in any run |
| FollowerHistory.LostTail | src/replication/replicator.cc:246-257 | a run in which a crash loses a reported record and the follower is in that position |
| FollowerHistory.BehindRetention | src/replication/replicator.cc:169-178 | a run in which retention puts a follower in that position |
| PartitionReplica.WatermarkUnique | src/broker/partition_replica.cc:70-100 | the mark is determined: the greatest offset not past the log end nor any in-sync follower |
| PartitionReplica.WhereSplits | src/broker/partition_replica.cc:245-254 | partitioning the waiters loses and repeats none |
| PartitionReplica.WhereMeans | src/broker/partition_replica.cc:245-254 | each side of the partition holds exactly the waiters that pass, or fail, the test |
| PartitionReplica.WhereAppend | src/broker/partition_replica.cc:245-254 | each side keeps the order of the waiters |
| PartitionReplica.CompletedExactly | src/broker/partition_replica.cc:220-254 | without acknowledgement always, for the leader exactly when its log holds the record, for a quorum exactly when those that flushed past it are a majority; nobody is lost |
| PartitionReplica.QuorumIsLeast | include/pulselog/metadata/cluster_metadata.h:49-51 | a quorum is a majority, and one replica less is none |
| PartitionReplica.FollowersMarkStays | src/broker/partition_replica.cc:72-76 | a replica that does not lead keeps its mark |
| PartitionReplica.Replica.constructor | src/broker/partition_replica.cc:16-37 | a new replica tracks every follower from zero and has no waiters |
| PartitionReplica.Replica.RecomputeHighWaterMark | src/broker/partition_replica.cc:70-100 | the loop computes the watermark and never lowers the mark |
| PartitionReplica.Replica.IsSatisfied | src/broker/partition_replica.cc:220-242 | by mode: always, once in the leader's log, or once leader and in-sync followers that flushed past the offset make a quorum |
| PartitionReplica.Replica.Partition | src/broker/partition_replica.cc:245-254 | the waiters split, in order, into those satisfied and those kept |
| PartitionReplica.Replica.ExtractSatisfied | src/broker/partition_replica.cc:206-256 | exactly the satisfied waiters leave and each is answered once |
| PartitionReplica.Replica.OnLeaderAppend | src/broker/partition_replica.cc:102-113 | the mark is recomputed, then the satisfied waiters leave |
| PartitionReplica.Replica.OnFollowerProgress | src/broker/partition_replica.cc:115-150 | positions only rise, the follower is in sync again, and the waiters that now qualify leave |
| PartitionReplica.Replica.MarkFollowerOutOfSync | src/broker/partition_replica.cc:152-173 | only that follower's flag falls; the mark and the waiters follow |
| PartitionReplica.Replica.AddWaiter | src/broker/partition_replica.cc:258-270 | the waiter is pending or answered at once, never both |
| PartitionReplica.Replica.CompleteSatisfiedWaiters | src/broker/partition_replica.cc:272-283 | exactly the satisfied waiters leave |
| PartitionReplica.Replica.ExpireWaiters | src/broker/partition_replica.cc:285-328 | exactly the waiters whose deadline has come are answered with a timeout, the others keep their order |
| PartitionReplica.Replica.FailAllWaiters | src/broker/partition_replica.cc:330-340 | every pending waiter is answered with a failure and none is left |
| Sweep.SweepPartition | src/broker/partition_manager.cc:184-215 | one partition's round: flushed or idle, exactly the waiters the log then does not satisfy are left; a failed flush changes nothing |
| Sweep.SweptLeaves | src/broker/partition_manager.cc:184-215 | the same, for any book of followers and waiters |
| Sweep.FlushDuePartitions | src/broker/partition_manager.cc:180-219 | every partition gets its round whatever happens to the others; the result counts the flushes, or is the first error in order |
| Sweep.DueIff | src/storage/partition_log.cc:454-470 | unflushed bytes become due at some time if and only if appends do not sync and a limit is met or flushing is periodic |
| Sweep.DueAtInterval | src/storage/partition_log.cc:454-470 | below the limits a flush is due from one interval after the last one on, and not before |
| Sweep.QuietMeansDurable | src/replication/replicator.cc:181-211 | when no sender has anything to send, every follower is recorded as caught up and durable |
| Sweep.QuiescentSweep | src/broker/partition_manager.cc:180-219 | at rest, the sweep leaves no pending quorum waiter if and only if leader and in-sync followers are a majority |
| Sweep.NoStrandedWaiter | src/replication/replicator.cc:181-211 | with every follower in sync a pending quorum waiter always has unflushed bytes, due for a periodic flush once the interval has passed, or a message to come, or the next sweep |
| Sweep.StrandedRun | src/broker/partition_replica.cc:152-173 | a run from empty logs to a state in which an evicted follower holds the record on media, nothing is left to do and the waiter stays |
| Flush.FlushedIsDurable | src/storage/partition_log.cc:472-519 | every record below flushed_offset lies below its segment's synced position, on media |
| Flush.NothingForgotten | src/storage/partition_log.cc:217-226 | the counters are never negative and cover all records between flushed_offset and the log end, less one append in flight |
| Flush.ZeroMeansFlushed | src/storage/partition_log.cc:454-470 | zero unflushed bytes with no append in flight means the whole log is flushed |
| Flush.QuietFlush | src/storage/partition_log.cc:472-519 | a flush with no append beside it syncs every segment, flushes the log and clears the counters, if and only if there was something to flush or nothing counted |
| Flush.CounterStaysUp | src/storage/partition_log.cc:485-494 | a run after which everything is flushed and the byte counter is not zero |
| Flush.RunInv | src/storage/segment.cc:483-495 | the invariant over every interleaving of appends, rolls and flushes |
| MpmcQueue.RoundUpPow2 | include/pulselog/concurrency/mpmc_queue.h:135-139 | the smallest power of two not below the request, and below twice it |
| MpmcQueue.TicketOrder | include/pulselog/concurrency/mpmc_queue.h:39-103 | in every reachable state dequeue_pos <= enqueue_pos <= dequeue_pos + capacity and the value popped with a ticket is the one pushed with it |
| MpmcQueue.NothingLost | include/pulselog/concurrency/mpmc_queue.h:39-103 | once all calls have returned, popped values and the ring together are exactly the pushed values |
| MpmcQueue.OneOwner | include/pulselog/concurrency/mpmc_queue.h:76-77 | at most one thread is inside a cell |
| MpmcQueue.PushFailure | include/pulselog/concurrency/mpmc_queue.h:70-71 | TryPush returns false only when the queue is full or the cell's last consumer is still inside |
| MpmcQueue.PopFailure | include/pulselog/concurrency/mpmc_queue.h:93-94 | TryPop returns false only when the queue is empty or the head's producer has not published |
| MpmcQueue.PopSucceeds | include/pulselog/concurrency/mpmc_queue.h:81-103 | with no other call under way TryPop takes the head of a nonempty queue |
| MpmcQueue.PopFindsNothing | include/pulselog/concurrency/mpmc_queue.h:81-103 | with no other call under way TryPop on an empty queue returns false and changes nothing |
| MpmcQueue.NextKeeps | include/pulselog/concurrency/mpmc_queue.h:55-103 | every atomic access of TryPush and TryPop keeps the ticket invariant |
| MpmcQueue.SingleCellOverrun | include/pulselog/concurrency/mpmc_queue.h:55-79 | a run that puts two values into a ring of one cell |
| MpmcQueue.CapacityTwo | include/pulselog/concurrency/mpmc_queue.h:39-44 | the bound holds over all runs if and only if the ring has at least two cells |
| EventLoop.NoLostWakeup | src/net/event_loop.cc:134-193 | the loop never polls with a task queued unless the descriptor is readable or a poster is between its push and its write |
| EventLoop.OneWakeup | src/net/event_loop.cc:144-180 | the flag is set exactly while one wakeup is being written, in the descriptor, or being cleared; never two |
| EventLoop.QuietDrain | src/net/event_loop.cc:182-193 | with no poster under way the loop alone reaches an empty queue with every task taken |
| EventLoop.RunInv | src/net/event_loop.cc:227-275 | queued tasks are always announced, about to be, or within the current drain's budget |
| EventLoop.NextKeeps | src/net/event_loop.cc:134-193 | every step of posters, wakers and loop keeps that |
| Crc32c.FirstEntry | src/base/crc32c.cc:29-36 | the branch-free bit loop is eight register shifts |
| Crc32c.MakeTables | src/base/crc32c.cc:27-45 | entry i of table k is byte i pushed through k + 1 byte times |
| Crc32c.Crc32cSoftware | src/base/crc32c.cc:125-146 | the slicing-by-8 loop equals the bit-at-a-time reflected register for every string and seed |
| CrcPolynomial.ChecksumIsRemainder | src/base/crc32c.cc:19-21 | for every string and seed the complemented checksum is the remainder of message times x^32 plus complemented seed modulo the generator of section 12.1 of RFC 3720, bits taken low first |
| CrcPolynomial.OneRemainder | src/base/crc32c.cc:19-21 | division by the generator has one remainder of degree below 32 |
| CrcPolynomial.ShiftDivides | src/base/crc32c.cc:29-36 | a register shift multiplies by x and takes the generator off once if x^32 appeared |
| CrcPolynomial.ZerosVector | include/pulselog/base/crc32c.h:1-30 | the vector of appendix B.4 of RFC 3720: 32 zero bytes give 0x8A9136AA |
| Crc32c.Chaining | src/base/crc32c.cc:125-146 | continuing through the seed equals one pass over the concatenation |
| Crc32c.BurstDetected | src/base/crc32c.cc:125-146 | strings that differ within one stretch of at most four bytes never share a checksum |
| Histogram.PrecisionBits | src/metrics/histogram.cc:17-22 | the least number of bits for twice ten to the digits |
| Histogram.CountBuckets | src/metrics/histogram.cc:35-42 | the buckets reach the range, or stop at 2^62, and no bucket is wasted |
| Histogram.MakeLayout | src/metrics/histogram.cc:26-54 | any requested range and digits give a well-formed layout after clamping |
| Histogram.IndexInRange | src/metrics/histogram.cc:56-72 | every value has a slot in the table |
| Histogram.IndexMonotone | src/metrics/histogram.cc:56-72 | larger values never get an earlier slot |
| Histogram.RawIndexInRange | src/metrics/histogram.cc:56-72 | the slot is inside before clamping exactly for values below the last bucket's end |
| Histogram.CloseIff | src/metrics/histogram.cc:74-86 | the reported value is at least v and exceeds it by less than v over ten to the digits, if and only if v is below 2^62 |
| Histogram.AccurateIff | src/metrics/histogram.cc:35-42 | the bound holds for the whole range if and only if it ends below 2^62 |
| Histogram.RankSlot | src/metrics/histogram.cc:134-147 | the running sum passes rank t at the slot of the t-th smallest value |
| Histogram.StopSlot | src/metrics/histogram.cc:134-147 | the slot the loop stops at is that of the t-th value of any sorted arrangement |
| Histogram.Histogram.constructor | src/metrics/histogram.cc:26-54 | an empty histogram |
| Histogram.Histogram.RecordMany | src/metrics/histogram.cc:92-118 | the recorded values grow by count copies of the value, or of the nearer end of the range; counts, minimum, maximum, sum and overflow agree with them |
| Histogram.Histogram.Mean | src/metrics/histogram.cc:160-164 | the mean times the count is the sum of the recorded values, zero without any |
| Histogram.Histogram.ValueAtRank | src/metrics/histogram.cc:120-149 | against sorting: the reported value is within the error bound of the value of that rank exactly when that value is below 2^62; the fall-through return is never reached |
| Record.WriteVarUInt | src/protocol/record.cc:29-37 | the loop writes the base-128 digits |
| Record.ReadVarUInt | src/protocol/record.cc:40-55 | the loop reads at most ten bytes, keeps 64 bits and reports malformed input |
| Record.VarRoundTrip | src/protocol/record.cc:20-55 | every 64-bit length reads back, whatever follows |
| Record.VarMeans | src/protocol/record.cc:40-55 | a varint of up to ten bytes, minimal or not, reads as its seven-bit digits, low first; anything else is malformed |
| Record.RecordLayout | include/pulselog/protocol/record.h:11-23 | every field of an encoded record is where the format has it |
| Bytes.LastByteWeighsMost | include/pulselog/base/endian.h:41-57 | stored integers are little-endian |
| Bytes.TwosComplement | include/pulselog/base/endian.h:61-80 | signed fields are the same number modulo 2^64, negative from 2^63 on |
| Record.AppendRecord | src/protocol/record.cc:72-108 | the buffer grows by the record's encoding |
| Record.RewriteRecordHeader | src/protocol/record.cc:116-124 | in place: only offset, timestamp and checksum of that record change |
| Record.RewriteKeeps | src/protocol/record.cc:110-124 | any parseable record, rewritten, has a valid checksum and the same attributes, key and value |
| Record.ParseRecord | src/protocol/record.cc:135-199 | the cursor code agrees with the parse function at every position |
| Record.ParseEncode | src/protocol/record.cc:72-199 | an encoded record parses back, whatever follows, if and only if it is within the size limit |
| Record.ParseTooLong | src/protocol/record.cc:145-147 | past the limit it is reported as corrupt |
| Record.TornRecord | src/protocol/record.cc:137-152 | a proper prefix of a record is reported as short, never corrupt |
| Record.ParseWindow | src/protocol/record.cc:181-191 | the verdict on a record that is present in full does not depend on what follows it |
| Record.DamagedRecord | src/protocol/record.cc:155-161 | any stretch of up to four altered bytes after the checksum is refused |
| Record.RunRoundTrip | src/protocol/record.cc:201-214 | a run of encoded records reads back in order |
| Record.TornRun | src/protocol/record.cc:201-214 | a run cut anywhere reads as the whole records before the cut, and is short unless cut between records |
| Record.RecordIterator.constructor | include/pulselog/protocol/record.h:128-148 | an iterator at the front |
| Record.RecordIterator.Next | src/protocol/record.cc:201-214 | yields the next record of the run, or stops with the run's own status |
| Segments.CountUpTo | src/storage/offset_index.cc:93-101 | the binary search splits the entries at the target |
| Segments.LookupFloor | src/storage/offset_index.cc:88-102 | the last entry at or before the target, or none |
| Segments.AppendEncoded | src/storage/segment.cc:212-265 | the segment holds the old records and the batch; an entry is added exactly when the interval has passed or there was none |
| Segments.AppendKeepsDense | src/storage/segment.cc:212-237 | an append keeps the distance from an index entry to any record below one interval plus one batch |
| Segments.CutKeepsDense | src/storage/offset_index.cc:104-115 | truncation keeps that bound |
| Segments.PositionFor | src/storage/segment.cc:283-370 | ends, and returns the sum of the sizes of all earlier records if and only if no record between the entry and the target exceeds what a block can grow to, which is never less than the record size limit |
| Segments.ScanBlock | src/storage/segment.cc:335-348 | one block is walked by whole records and stops only at the target or at a record that does not fit |
| Segments.Read | src/storage/segment.cc:372-451 | at least one whole record for a positive budget; further ones within budget and one chunk each; nothing more qualified |
| Segments.OneReadTakes | src/storage/segment.cc:409-439 | records of at most one mebibyte that fit the budget are read to the end at once, and a larger one after the first stops the read |
| Segments.ReadRun | src/storage/segment.cc:394-447 | the read loop, chunk by chunk |
| Segments.TakeChunk | src/storage/segment.cc:425-439 | the walk inside one chunk |
| Segments.TruncateFrom | src/storage/segment.cc:453-481 | exactly the records before the offset stay, with their index entries |
| Recovery.Scan | src/storage/segment.cc:102-161 | never ends if and only if the run meets a record that declares more than the window with more than a window left; otherwise ends at the end of the longest valid run; starts past the file stay there |
| Recovery.ScanWindow | src/storage/segment.cc:116-148 | one window advances by whole valid records |
| Recovery.WindowVerdict | src/storage/segment.cc:117-134 | a verdict reached inside a window is the verdict on the file |
| Recovery.RunIsValid | src/storage/segment.cc:116-148 | the run holds checksum-valid, consecutively numbered records and is the file's bytes up to its end |
| Recovery.RunIsLongest | src/storage/segment.cc:116-148 | any other valid run at the front of the file is a prefix of it |
| Recovery.RunFromBoundary | src/storage/segment.cc:91-100 | scanning from an index entry on the run ends where a full scan ends |
| Recovery.Recover | src/storage/segment.cc:85-210 | for any bytes and increasing index: never ends exactly when the scan from its starting point meets an oversized record; otherwise ends at the run from there, or at the starting point when that is past the file; with true entries it is cut to the longest valid run if and only if it scanned everything or the last entry is on that run, and then no entry is left beyond exactly when bytes were cut or there was none |
| Recovery.LandingIff | src/storage/segment.cc:91-100 | with true entries, recovery from the index ends where the file's valid run ends if and only if the last entry is a boundary of that run |
| Recovery.CutBeforeIndex | src/storage/segment.cc:469-470 | for every segment and cut: after the file alone is truncated the entries left are true, and when the last is past the cut, recovery adopts an end beyond the file and offsets beyond its records |
| Recovery.StaleEntry | src/storage/segment.cc:195-196 | an empty file with one entry left: recovery from the index ends at byte 100 and offset 1 |
| Recovery.LeftoverEntry | src/storage/segment.cc:167-200 | an empty file with an entry for its first record: recovery is complete and the entry stays |
| Recovery.RecoverAgain | src/storage/segment.cc:85-210 | a second recovery finds the same run and changes nothing, from a last entry that is still on it; it ends whenever the scan from its starting point ends in the original file |
| Recovery.IntactStallsIff | src/storage/segment.cc:150-159 | on an undamaged file the scan never ends if and only if some record exceeds the window |
| Recovery.LargeRecordStalls | src/storage/segment.cc:109-159 | every record of the format that encodes to more than the window, alone in its file, keeps the scan from ending |
| Recovery.MebibyteValue | src/storage/segment.cc:109-159 | a record with a value of one mebibyte is such a record |
| Recovery.SmallFileEnds | src/storage/segment.cc:109-161 | a file of at most one mebibyte is always scanned to the end |
| Recovery.SecondRecordUnreachable | src/storage/segment.cc:350-359 | a segment of two valid records whose second cannot be looked up, because the first exceeds the largest block |
| Recovery.OversizedValue | src/protocol/record.cc:145-147 | a record that the format allows and that is that long |
| Recovery.TornTail | src/storage/segment.cc:85-210 | with any torn tail, exactly the whole records before the tear survive |
| PartitionLog.StampBatch | src/storage/partition_log.cc:241-264 | the pass re-stamps every record in place, or reports the first that does not parse |
| PartitionLog.StampedValid | src/storage/partition_log.cc:241-264 | a stamped batch is checksum-valid and numbered from its base, and differs from what was sent only in offsets and missing timestamps |
| PartitionLog.StampedRecords | src/storage/partition_log.cc:241-264 | any encoded batch becomes the same records, numbered from the base, a positive timestamp kept and any other set to the append time |
| PartitionLog.CheckBatch | src/storage/partition_log.cc:290-307 | accepts if and only if the bytes are a run of checksum-valid records that continues the log, and counts them |
| PartitionLog.CheckedValid | src/storage/partition_log.cc:290-307 | an accepted batch is valid as it stands |
| PartitionLog.CheckedComplete | src/storage/partition_log.cc:290-307 | every such run is accepted, record by record |
| PartitionLog.CheckedIff | src/storage/partition_log.cc:290-307 | what is accepted is exactly such runs |
| PartitionLog.BasesIncrease | src/storage/partition_log.cc:179-215 | segment bases strictly increase |
| PartitionLog.BaseCounts | src/storage/partition_log.cc:378-389 | each base and end counts the records before it |
| PartitionLog.JoinValid | src/storage/partition_log.cc:228-329 | every record of the log is checksum-valid and carries its own offset |
| PartitionLog.PartitionLog.constructor | src/storage/partition_log.cc:68-76 | an empty log |
| PartitionLog.PartitionLog.ScanBound | src/storage/segment.cc:212-237 | in every reachable log the bytes between an index entry and any record it serves stay below one interval plus the largest batch ever appended |
| PartitionLog.PartitionLog.FlushedIsSynced | src/storage/partition_log.cc:472-519 | in every reachable log each record below the flushed offset ends at or before its segment's synced position |
| PartitionLog.PartitionLog.SegmentSizes | src/storage/partition_log.cc:161-177 | in every reachable log a segment over segment_bytes holds records of one batch only |
| PartitionLog.PartitionLog.TotalIsBytes | src/storage/partition_log.cc:563-566 | the size retention adds up is that of the log's records |
| PartitionLog.PartitionLog.Flush | src/storage/partition_log.cc:472-519 | every segment is synced to its end and the whole log is flushed; nothing is touched when it already was |
| PartitionLog.PartitionLog.Close | src/storage/partition_log.cc:626-637 | once, every segment is synced; later appends are refused |
| PartitionLog.PartitionLog.RollSegment | src/storage/partition_log.cc:179-215 | the active segment is synced and an empty one opened at the log end; the records stay; the log stays well formed if and only if the active segment was not empty |
| PartitionLog.PartitionLog.MaybeRoll | src/storage/partition_log.cc:161-177 | rolls exactly when size, age or the 32-bit limit asks; the batch then fits the segment's size and 32-bit positions, or begins a segment; the log stays well formed unless the active segment is empty and the batch over 4 GiB |
| PartitionLog.PartitionLog.AppendToActive | src/storage/partition_log.cc:271-280 | the log grows by exactly the batch, its index stays dense and flushed records stay synced |
| PartitionLog.PartitionLog.AppendAssigningOffsets | src/storage/partition_log.cc:228-281 | the log grows by the stamped batch from the old end, flushed inline if so configured, or by nothing with the error of the first failing check |
| PartitionLog.PartitionLog.AppendWithOffsets | src/storage/partition_log.cc:283-329 | any valid run that continues the log, with its own count, is appended whole to an open log with room, flushed inline if so configured; nothing else is, and the error is that of the first failing check |
| PartitionLog.PartitionLog.SegmentFor | src/storage/partition_log.cc:378-389 | finds the segment that holds the offset |
| PartitionLog.PartitionLog.Read | src/storage/partition_log.cc:391-452 | the shortest run of whole records from the offset that reaches the byte budget, or all to the log end; out of range exactly outside the log; corrupt if and only if a record at which the read must look up its position is behind an oversized one, never with records within the size limit |
| PartitionLog.PartitionLog.ReadSegment | src/storage/partition_log.cc:416-422 | one segment's contribution, or an error exactly when its first record cannot be found |
| PartitionLog.ReadContinues | src/storage/partition_log.cc:416-450 | segment reads join into one run that no shorter run could replace |
| PartitionLog.ReadFinds | src/storage/partition_log.cc:416-450 | the lookups of one log read are at its first record, at records over one chunk and at the record that exceeds the budget, and nowhere else in a segment |
| PartitionLog.NotFoundLarge | src/storage/segment.cc:350-359 | a failed lookup means some record of the log exceeds the largest block |
| PartitionLog.PartitionLog.TruncateTo | src/storage/partition_log.cc:521-553 | the log becomes its records below the offset, across segments, and nothing past it stays flushed; fails if and only if the record at the offset cannot be found, and then later segments are gone, the log end is stale, and the log is whole only if they were empty |
| PartitionLog.TruncationFails | src/storage/partition_log.cc:533-541 | a well-formed log of two segments for which truncation to offset 1 fails with the second segment gone |
| PartitionLog.PartitionLog.EnforceRetention | src/storage/partition_log.cc:555-591 | drops whole segments from the front while they are older than retention_ms or the rest exceeds retention_bytes, and stops at the first for which neither holds, never dropping the active one |
| Fetch.Trim | src/broker/request_handler.cc:731-745 | the byte length of the first records of a run |
| Fetch.VisibleRun | src/broker/request_handler.cc:733-745 | a run cut to the visible records is the run of the visible log |
| Fetch.Serve | src/broker/request_handler.cc:670-748 | "latest" answers an empty response at the visible end, "earliest" begins at the log start, any other request at itself; whole records from there, up to the high-water mark for replicated reads; positions outside the log are reported, and inside it a fetch fails if and only if it must read and the log read fails |
| Fetch.FetchesJoin | src/broker/request_handler.cc:714-748 | fetches that each begin where the one before ended return exactly the log's records from the first base on, none skipped, none repeated |
| Fetch.FetchesReach | src/broker/request_handler.cc:714-748 | with a byte budget and marks of at least m they reach m, one record or more a fetch; under mark m they stop there |
| Fetch.AnswersWithin | src/broker/request_handler.cc:714-748 | a fetch on a log whose front is gone answers as on the whole log |
| Frame.HeaderRoundTrip | src/protocol/frame.cc:25-88 | any header decodes to itself, or to the error of the first failing check: version, opcode, length |
| Frame.HeaderLayout | include/pulselog/protocol/frame.h:8-19 | every field of an encoded header is where the format has it, the magic byte for byte |
| Frame.FrameLayout | src/protocol/frame.cc:90-108 | a frame is sent with this build's magic and version, its own opcode, request ID and flags, and its payload behind the header |
| Frame.KnownOpcodes | src/protocol/opcode.cc:47-72 | the opcodes a frame may carry |
| Frame.FrameRoundTrip | src/protocol/frame.cc:90-142 | a frame decodes to itself, whatever follows, if and only if its opcode is known and its payload within the limit |
| Frame.FramePrefix | src/protocol/frame.cc:110-121 | a proper prefix asks for more and never fails |
| Frame.NextFrameStable | src/protocol/frame.cc:110-142 | more input never changes a verdict |
| Frame.StreamPrefix | src/protocol/frame.cc:110-142 | any cut of a stream decodes without error to exactly the frames before it |
| Frame.DecodeResumes | src/protocol/frame.cc:110-142 | frames taken off early are those of the whole stream |
| Frame.DamagedHeader | src/protocol/frame.cc:45-52 | any stretch of up to four altered header bytes after the magic is refused |
| Frame.DamagedPayload | src/protocol/frame.cc:123-132 | the same for the payload |
| Connection.Consume | src/net/connection.cc:200-215 | written bytes come off the front of the queue, whole chunks and then part of one |
| Connection.Connection.constructor | src/net/connection.cc:15-50 | nothing queued, nothing paused |
| Connection.Connection.SendFrame | src/net/connection.cc:120-148 | accepted exactly when open and within the ceiling; written and queued bytes are always the encoding of the accepted frames |
| Connection.Connection.FlushOutput | src/net/connection.cc:169-226 | under every pattern of partial writes: output_bytes is the unsent remainder, bytes are left only behind a socket that stopped, and then the write event is wanted |
| Connection.Connection.UpdatePollRegistration | src/net/connection.cc:228-253 | reading is paused from the high mark and resumed at the low one, nothing toggles in between, and the poller is asked for exactly the wanted events |
| Connection.Connection.CloseWhenDrained | src/net/connection.cc:255-261 | closes at once if and only if nothing is queued; otherwise stays open, marked to close when drained |
| Connection.Reader.constructor | include/pulselog/protocol/frame.h:106-130 | an empty buffer |
| Connection.Reader.OnReadable | src/net/connection.cc:54-106 | delivered frames are what the received bytes decode to, for every chunking; none is left waiting if and only if the event held at most the limit, which a closing handler lowers; closes exactly on a framing error, a closing handler or an empty end of stream, and otherwise drains at the end of the stream |
| Connection.Reader.DeliverFrames | src/net/connection.cc:76-93 | the decode loop takes complete frames off the front until the limit, a handler that closes, an error or the end of the complete ones |
| Connection.TwoFramesOneEvent | src/net/connection.cc:76-93 | with a limit of one and two frames received, the second stays in the buffer |
| Connection.StreamDelivers | src/net/connection.cc:169-226 | end to end: a prefix of the accepted frames in order, no error, and all of them once all bytes arrived |
| Assignor.SortUnique | src/consumer/assignor.cc:10-25 | the strictly sorted list with the same elements |
| Assignor.SortedIsUnique | src/consumer/assignor.cc:8-9 | that list depends only on the set |
| Assignor.StringLessMeans | src/consumer/assignor.cc:10-25 | names are ordered by the first character in which they differ, or by which ends first |
| Assignor.SortedPartitions | src/consumer/assignor.cc:18-25 | sorted partitions are in order of topic, and of number inside a topic |
| Assignor.AssignRoundRobin | src/consumer/assignor.cc:60-72 | member m gets every n-th sorted partition; every distinct partition is with exactly one member, once |
| Assignor.AssignRange | src/consumer/assignor.cc:29-58 | member m gets its block of every topic; every distinct partition is with exactly one member, once |
| Assignor.RoundRobinSizes | src/consumer/assignor.cc:68-70 | totals differ by at most one |
| Assignor.StridedMeans | src/consumer/assignor.cc:68-70 | the k-th partition of member m is number m + k n of the sorted list |
| Assignor.BlockMeans | src/consumer/assignor.cc:43-56 | blocks follow each other in member order, and the first members take one more while the remainder lasts |
| Assignor.RangeContiguous | src/consumer/assignor.cc:43-56 | of each topic a member gets one contiguous block of the sorted partitions, and block sizes differ by at most one |
| Assignor.EveryPartitionOwned | src/consumer/assignor.cc:29-72 | both strategies give each distinct partition to exactly one member, once, and nothing else |
| Assignor.OnlySetsMatter | src/consumer/assignor.cc:8-9 | equal sets of members and partitions get equal assignments |
| GroupCoordinator.MemberIdInjective | src/consumer/group_coordinator.cc:37-42 | IDs from different counter values differ |
| GroupCoordinator.AssignTo | src/consumer/group_coordinator.cc:66-68 | every partition goes to exactly one member, once, nothing else is handed out, and the shares are those of the group's strategy |
| GroupCoordinator.Rebalance | src/consumer/group_coordinator.cc:44-83 | the generation rises by one, exactly the partitions of the subscribed topics are handed out, each to one member by the group's strategy, and the lowest ID leads |
| GroupCoordinator.FenceHolds | src/consumer/group_coordinator.cc:200-245 | letting a commit through keeps one committer per group, generation and partition over the whole history |
| GroupCoordinator.GroupChanges | src/consumer/group_coordinator.cc:44-132 | changing a group keeps the history's promises as long as assignments change only with the generation |
| GroupCoordinator.LeaveKeeps | src/consumer/group_coordinator.cc:175-198 | members that leave are gone for good |
| GroupCoordinator.FreshId | src/consumer/group_coordinator.cc:106-110 | a new ID was never a member and never left |
| GroupCoordinator.GroupCoordinator.constructor | src/consumer/group_coordinator.cc:26-31 | no groups and no history |
| GroupCoordinator.GroupCoordinator.Fencing | src/consumer/group_coordinator.cc:200-245 | over every run: one committer per partition and generation, and whoever left is no member and commits in no current generation |
| GroupCoordinator.GroupCoordinator.AllOwned | src/consumer/group_coordinator.cc:44-83 | over every run: a group with members has exactly the partitions of its last lookup handed out, by its strategy, and its lowest ID leads |
| GroupCoordinator.GroupCoordinator.Join | src/consumer/group_coordinator.cc:85-132 | an unknown ID gets a fresh one; exactly on a new member or changed subscription the generation rises, the partitions are distributed afresh and the lowest ID leads; otherwise assignments and leader stay; other groups and other members' sessions stay |
| GroupCoordinator.GroupCoordinator.Heartbeat | src/consumer/group_coordinator.cc:134-173 | the errors in order; success sets one member's clock and nothing else |
| GroupCoordinator.GroupCoordinator.Leave | src/consumer/group_coordinator.cc:175-198 | the member is gone, the generation rises, the rest share the partitions afresh and the lowest ID leads |
| GroupCoordinator.GroupCoordinator.CommitFence | src/consumer/group_coordinator.cc:200-245 | passes exactly for a current member, the current generation and an assigned partition |
| GroupCoordinator.GroupCoordinator.ExpireSessions | src/consumer/group_coordinator.cc:279-302 | out goes exactly who last joined or sent a heartbeat longer ago than its timeout; a group that lost any moves on one generation with its partitions distributed afresh; the rest keep their sessions; the count is right |
| OffsetStore.KeyRoundTrip | src/consumer/offset_store.cc:15-31 | encodable keys read back |
| OffsetStore.ValueReads | src/consumer/offset_store.cc:33-46 | a value reads back if its metadata fits the length field, and otherwise not at all |
| OffsetStore.DecodesEncodable | src/consumer/offset_store.cc:22-46 | nothing outside the encoding is ever decoded |
| OffsetStore.JournalLayout | src/consumer/offset_store.cc:15-46 | the bytes of a key and a value, field by field, on an example |
| OffsetStore.Tombstones | src/consumer/offset_store.cc:109-118 | a record with bit 2 of its attributes set removes its key, one without sets it if its value can be read |
| OffsetStore.ApplyRun | src/consumer/offset_store.cc:99-120 | one read's records are applied in order |
| OffsetStore.Replay | src/consumer/offset_store.cc:88-128 | the whole journal is applied in order, a read at a time |
| OffsetStore.ReplayIff | src/consumer/offset_store.cc:88-161 | replaying the journal of any commits rebuilds the live map if and only if every live entry is encodable |
| OffsetStore.NegativePartition | src/consumer/offset_store.cc:22-31 | a bare commit to partition -1 is journalled and not replayed |
| OffsetStore.RequestRoundTrip | src/protocol/messages_group.cc:134-157 | a commit request whose strings fit sixteen-bit lengths and whose partition is not negative decodes to itself |
| OffsetStore.DecodesSendable | include/pulselog/protocol/codec.h:196-210 | no other request is ever decoded |
| OffsetStore.RequestsReplay | src/consumer/group_coordinator.cc:247-258 | for commits decoded from requests, replaying the journal or any prefix of it rebuilds the map, without any condition |
| OffsetStore.ReplayPrefix | src/consumer/offset_store.cc:88-161 | after losing any suffix, replay gives the map as it stood after that many commits if and only if that map is encodable |
| OffsetStore.OffsetStore.constructor | src/consumer/offset_store.cc:50-51 | an empty store over an empty journal |
| OffsetStore.OffsetStore.Commit | src/consumer/offset_store.cc:130-161 | journal and map take the commit together, or neither when the journal is closed, its disk full or the record over the size limit |
| OffsetStore.OffsetStore.Reopens | src/consumer/offset_store.cc:60-86 | reopening gives back the map if and only if every entry is encodable |

## Left out

- Sockets, pollers, files, fsync and directories: a file is a byte string, a socket takes any positive part of a write, a read delivers any chunk. I/O errors inside the storage code are not modelled; write errors of a connection are.
- Weak memory ordering: every atomic access is one sequentially consistent step.
- Wrap-around of 64-bit tickets, offsets, counters and generations, and overflow of `cursor + length` for varint lengths near 2^64.
- Leader restart, change of leadership and assignment of replicas: one leader runs for ever. A follower's own high-water mark is not modelled.
- Admission of a quorum produce before the append: a waiter may be added at any time, which allows more runs.
- Sweep.FlushDuePartitions: what Flush() does to each log is given; how it does it is in `Flush.dfy` and `PartitionLog.dfy`.
- Time index, OffsetForTimestamp, record_count_ and max_timestamp_, the reason strings and metrics.
- Preallocation: only as bytes behind the end position; a preallocated tail counts as any other tail that is not a record.
- Segments: a segment is a value that its operations return changed, not an object; aliasing between readers and the writer is not captured.
- Segments.PositionFor: the guards against damage inside the segment's own valid bytes are left out, since a segment that holds its records never reaches them; the same goes for Read.
- PartitionLog.PartitionLog.MaybeRoll: the age test is given, not computed from a clock.
- PartitionLog.PartitionLog.AppendAssigningOffsets: whether the disk is full is given, and syncing does not fail. The unflushed counters are in `Flush.dfy`, without truncation, which resets them.
- PartitionLog: AppendVectoredWithOffsets and loading the segments of a directory. Segments' largest timestamps are given to retention.
- Connection.Reader.OnReadable: read errors, the activity clock and shrinking the buffer are left out, and so is SendRaw.
- Histogram.Histogram.ValueAtRank: takes the rank the percentile rounds to. Sums and means are real numbers, without rounding; merging and concurrent recording are left out.
- Crc32c: the hardware paths.
- GroupCoordinator.GroupCoordinator.CommitFence: states the fence; the order in which commits reach the offset store afterwards is not fixed by it. Commits without a member ID are not fenced, by design.
- GroupCoordinator: the partition lookup is a function given to each call.
- OffsetStore.OffsetStore.Commit: encoded records are below 4 GiB; tombstones are replayed but never written.
- Clients, command line, configuration, topology, logging, compaction and message codecs other than those above.
