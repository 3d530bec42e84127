# A verified model of the broker

The broker keeps each partition of a topic as a segmented, append-only log,
replicates it from a leader to followers, elects one controller that assigns
partitions to brokers, and coordinates consumer groups that share a topic's
partitions. This project models those four parts in Dafny and proves what they
are there for.

`dafny verify dfyconfig.toml` checks everything.

| part | files | main results |
|---|---|---|
| storage | `Types`, `Codec`, `Crc`, `CrcWords`, `Records`, `Scanning`, `SparseIndex`, `LogRead`, `Segments`, `Sorting`, `Partitions` | the table CRC is the bitwise one, has the published check value and detects bursts; records round-trip; recovery keeps exactly the whole records; an indexed read is the naive read; a partition restarts as a prefix of its log |
| controller | `Election`, `ElectionProtocol`, `ElectionRuns`, `Assignments`, `AssignmentFile`, `AssignmentStore`, `AssignmentProtocol`, `Strings`, `Runs` | election safety over all runs; more than half of the brokers elect, whatever the others do; when a heartbeat's term was won; assignments stay sound over all runs; placement is as asked and balanced; the assignment file round-trips |
| replication | `Isr`, `IsrManager`, `Replication`, `Reconciliation` | follower logs are prefixes and the high watermark is covered; when the high watermark falls; acks=all is honest, and when it is answered; a follower catches up; a clean failover keeps the committed prefix |
| groups | `RangeAssignment`, `Groups`, `GroupProtocol` | range assignment is an exact balanced partition; partitions have one owner per generation, and every partition gets one when nobody fails; members stay while they beat and go when silent |
| messages | `Wire`, `Requests` | the nested-list messages round-trip exactly within their length prefixes, in a stated layout |

How it is built:

- An object that the program updates in place is a class whose methods do what
  the program's blocks do (loops included). Each method is proved against a
  function of the old state, and the properties are lemmas about that function.
- A protocol is a state, a datatype of steps and a function `Next`; a step that
  is not possible changes nothing, and `Runs.Run` takes any sequence of steps, so
  a lemma about it speaks of every interleaving. One step is one block holding
  one lock; a block that takes a second lock twice, such as the recomputation of
  the in-sync set, is two steps. Messages are never removed from the network, so they may be late,
  repeated, reordered or lost. Clock readings are arbitrary arguments of the steps.
- Integers are unbounded, with the widths written out: `u32` term and
  generation counters wrap, clock differences wrap in 64 bits, length prefixes
  keep the low bytes of an over-long length, and the read loop counts bytes in
  32 bits. Strings on the wire are byte sequences.
- Where a claim is false of the code, the code is kept, a lemma gives a concrete
  run or input, and the claim is proved under the condition that fails there,
  as an if-and-only-if where it says when a single step or state is at fault.

Where the code and its own comments or documentation differ, the code is modelled:

- `src/broker/broker.cpp:490-498` calls the jump of a promoted follower's high
  watermark to its log end complete. `Replication.StaleIsrCanLose` shows a
  committed record that the promoted follower does not have;
  `Replication.CleanFailover` says when the comment is right.
- `src/storage/partition.h:41-45` promises reads capped at maxBytes. The 32-bit
  byte count (`src/storage/partition.cpp:152-170`) can wrap
  (`LogRead.ReadCanOvershoot`); the promise holds exactly when it does not
  (`Partitions.Partition.Read`).
- acks=all is described as waiting until the in-sync replicas have caught up
  (`src/broker/broker.cpp:168-173`). With two producers at once the wait can end
  early (`Replication.ConcurrentAcksCanLie`); what an answer is worth in any
  state is `Replication.AcksAllHonestExactly`.
- A leader reads its role and, in a later block, the term it heartbeats under
  (`src/cluster/controller.cpp:352-358`, `501-508`), so it can heartbeat under a
  term it never won (`ElectionRuns.HeartbeatUnderForeignTerm`).
  `ElectionRuns.BeatTermIsWonExactly` says when the term is its own.

## Model

| member | source | states |
|---|---|---|
| Crc.StepsLinear | src/common/crc32.cpp:13-23 | any number of shift-xor steps distributes over xor, the fact behind the table form |
| Crc.LowByteDecides | src/common/crc32.cpp:17-20 | eight steps on a register are eight steps on its low byte, xored with the rest shifted down |
| Crc.MakeTable | src/common/crc32.cpp:13-23 | the nested loops fill entry i with eight bitwise steps on i |
| Crc.TableCrc32 | src/common/crc32.cpp:29-35 | for every byte string the table loop computes the bit-at-a-time CRC of section 8 of RFC 1952 |
| Crc.CrcDetectsBurst | src/common/crc32.cpp:29-35 | changing any run of up to four consecutive bytes of any string changes its CRC |
| CrcWords.XorOfWords | src/common/crc32.cpp:17-33 | exclusive or on the digits of two numbers is that of the 32-bit words that hold them |
| CrcWords.ShiftIsStep | src/common/crc32.cpp:17-20 | one step of the definition is one shift of the 32-bit register, xored with 0xEDB88320 when a one is shifted out |
| CrcWords.CheckValue | src/common/crc32.cpp:11-35 | the CRC of the text 123456789 is the published 0xCBF43926 |
| Codec.IntRoundTrip | src/common/codec.cpp:6-85 | a big-endian integer that fits its width is read back as written |
| Codec.ValueRoundTrip | src/common/codec.cpp:6-85 | any bytes, read as a big-endian integer and written, are those bytes again |
| Codec.SizedRoundTrip | src/common/codec.cpp:38-46 | a string or blob followed by anything is read back, and what follows is left, exactly when its length fits its prefix |
| Codec.ParsedSizedBound | src/common/codec.cpp:90-104 | whatever the bytes, a string or blob that was read fits its prefix and lies inside the bytes |
| Codec.ParsesSizedExactly | src/common/codec.cpp:90-104 | a string or blob is read exactly when its length and all the bytes that announces are there, and is those bytes |
| Codec.Buffer.PutU64 | src/common/codec.cpp:20-24 | the shift loop appends the eight big-endian bytes |
| Codec.Buffer.PutSizedString | src/common/codec.cpp:38-41 | the string goes behind the low two bytes of its length |
| Codec.Buffer.PutSizedBlob | src/common/codec.cpp:43-46 | the blob goes behind the low four bytes of its length |
| Codec.Reader.GetU32 | src/common/codec.cpp:67-75 | the value and the new position, or failure when fewer than four bytes are left |
| Codec.Reader.GetU64 | src/common/codec.cpp:77-85 | the loop over eight bytes reads the big-endian value, or fails when fewer are left |
| Codec.Reader.GetString | src/common/codec.cpp:90-96 | the string behind its length, or failure when the length or the bytes are cut short |
| Codec.Reader.GetBlob | src/common/codec.cpp:98-104 | the blob behind its length, or failure when the length or the bytes are cut short |
| Records.EncodeRecord | src/storage/record.cpp:9-24 | appends length, CRC and body in the layout of a frame |
| Records.DecodeRecord | src/storage/record.cpp:26-45 | the record at the cursor, or failure for a short frame, a wrong CRC or an unreadable body |
| Records.RecordRoundTrip | src/storage/record.cpp:9-45 | decoding an encoded record followed by any tail gives it back and leaves the tail, exactly when its length fits the length field |
| Records.FrameLayout | src/storage/record.cpp:9-24 | the bytes of a frame: length of the rest, CRC of the bytes after it, offset, timestamp, key and value behind their lengths |
| Records.ParsesExactly | src/storage/record.cpp:26-45 | which bytes hold a record: an announced length of at least four that is there, the CRC of what follows it, and room for all fields; bytes left over in the body do not matter |
| Records.BodyParsesExactly | src/storage/record.cpp:38-45 | which bodies are readable, and where each field of the record is taken from |
| Records.ParsedRecordFits | src/storage/record.cpp:26-45 | whatever the bytes, a decoded record fits the length field and its frame lies inside the bytes |
| Records.ParseDependsOnFrameOnly | src/storage/record.cpp:26-45 | decoding depends on the frame's own bytes only: more bytes after it change nothing, fewer than it give failure |
| Records.DamagedRecordRejected | src/storage/record.cpp:26-37 | a frame whose body was changed within four consecutive bytes fails to decode, whatever follows |
| Scanning.ScanIsLongestRun | src/storage/segment.cpp:73-91 | on arbitrary bytes the scan is the longest run of decodable frames: a list of frames is such a run exactly when it is a prefix of the scan |
| Scanning.ScanIdempotent | src/storage/segment.cpp:60-94 | scanning what a scan kept gives the same frames |
| Scanning.CleanCountIsLargest | src/storage/segment.cpp:73-91 | CleanCount is the largest number of records whose frames fit into the given bytes |
| Scanning.ScanTorn | src/storage/segment.cpp:60-94 | a clean file cut at any byte scans to exactly the records wholly before the cut |
| Scanning.ScanDamaged | src/storage/segment.cpp:73-91 | the scan stops exactly at a record damaged by a burst, with all earlier records intact |
| SparseIndex.IndexMeaning | src/storage/segment.cpp:111-126 | the cadence of appends gives entries that point at the records they name, ascend strictly in both components, and start with the first record |
| SparseIndex.SeekBound | src/storage/segment.cpp:144-152 | the position found for any record is the boundary of that record or of an earlier one less than the index interval of bytes before it |
| SparseIndex.IndexIsSparse | src/storage/segment.cpp:111-126 | entries lie at least the index interval of bytes apart, and the running count is the distance from the last one to the end |
| SparseIndex.SparseCount | src/storage/segment.cpp:111-126 | so there are at most 1 + size / interval entries |
| SparseIndex.StampedMeans | src/storage/partition.cpp:78-96 | record i of a stamped batch has offset base + i, the given timestamp and its own key and value |
| SparseIndex.FloorCountSplits | src/storage/segment.cpp:144-152 | in ascending entries, the floor of a record number splits them into those at or below it and those above |
| SparseIndex.IndexFileRoundTrip | src/storage/segment.cpp:49-58 | reading the index file gives back the entries that were written to it |
| SparseIndex.IndexLayout | src/storage/segment.cpp:49-58 | twelve bytes for each entry: relative offset, then position |
| Segments.Segment.CreateEmpty | src/storage/segment.cpp:41-47 | a new segment holds no records and can be appended to |
| Segments.Segment.Append | src/storage/segment.cpp:111-126 | after any frames, written here or recovered, the records' frames are added and index, index file and byte count are those that all the frames lead to; entries stay at least the index interval apart |
| Segments.Segment.CadencedIsSparse | src/storage/segment.cpp:111-126 | in any segment that can be appended to, recovered from any bytes or not, entries lie at least the interval apart and the count is the distance from the last to the file's end |
| Segments.Segment.ActiveIsCadenced | src/storage/segment.cpp:111-126 | a segment that holds just recs and can be appended to is one whose bytes are their frames and whose counts those frames lead to |
| Segments.Segment.RecoveredIsCadenced | src/storage/segment.cpp:60-94 | a segment recovered from any bytes can be appended to |
| Segments.Segment.AppendIndexEntry | src/storage/segment.cpp:49-58 | the entry goes to the index and, when asked, to the index file |
| Segments.Segment.ScanAndRecover | src/storage/segment.cpp:60-94 | on arbitrary bytes: the file is cut after its longest decodable run, and index, index file and byte count are those appending that run would give, entries at least the interval apart; the result is the last offset or -1 |
| Segments.Segment.TornRecovery | src/storage/segment.cpp:60-94 | recovering a file cut at any byte equals a fresh segment to which just the whole records were appended |
| Segments.Segment.RecoveryIdempotent | src/storage/segment.cpp:60-94 | recovering again finds the same records and changes nothing |
| Segments.Segment.LoadIndex | src/storage/segment.cpp:96-109 | the loop reads every whole entry of the index file |
| Segments.Segment.LoadedHolds | src/storage/segment.cpp:96-109 | a segment reloaded from the files of one that held recs holds recs |
| Segments.Segment.ReadFrom | src/storage/segment.cpp:128-142 | every record a scan finds from a byte position on |
| Segments.Segment.ReadFromBoundary | src/storage/segment.cpp:128-142 | reading from the boundary of record k gives the records from k on |
| Segments.Segment.FindStartPosition | src/storage/segment.cpp:144-152 | the search returns the position of the floor entry |
| Segments.Segment.SeekIsBoundary | src/storage/segment.cpp:144-152 | in any held segment the position found is the boundary of a record at or before the one asked for |
| Segments.Segment.SeekIsClose | src/storage/segment.cpp:144-152 | in any held segment the position found for a record is its own boundary or one less than the index interval of bytes before it |
| Segments.Segment.IndexAscends | src/storage/segment.cpp:49-58 | the entries of any held segment ascend strictly in both components |
| Partitions.Partition.RollSegment | src/storage/partition.cpp:69-76 | an empty segment with an index interval of 4096 bytes is added at the end of the stored log |
| Partitions.Partition.Append | src/storage/partition.cpp:78-96 | the log and the last file, a new one exactly if the old had reached its limit, grow by the batch stamped with the next offsets and the timestamp; the base offset is returned and the high watermark is the new end; unless the batch has 2^32 bytes or offsets reach 2^63 the representation invariant holds |
| Partitions.Partition.AppendReplicated | src/storage/partition.cpp:98-108 | the log grows by the records as they are; the high watermark stays; the invariant holds when they continue the log, in less than 2^32 bytes |
| Partitions.Partition.SegmentForOffset | src/storage/partition.cpp:110-121 | the segment covering the offset, the first one for offsets before it, none without segments |
| Partitions.Partition.ReadClamped | src/storage/partition.cpp:133-175 | segment floor, index floor, decoding and filtering together equal one loop over the whole log |
| Partitions.Partition.Read | src/storage/partition.cpp:123-126 | a read is the longest prefix of the records in [start, high watermark) that fits maxBytes, or a lone larger one, exactly when the 32-bit byte count does not wrap where that answer ends |
| Partitions.Partition.ReadUpToLeo | src/storage/partition.cpp:128-131 | the same up to the end of the log |
| LogRead.CollectIsNaiveRead | src/storage/partition.cpp:133-175 | the read loop equals the naive read from any earlier place in the log, exactly when its byte count does not wrap |
| LogRead.AnswerExactly | src/storage/partition.cpp:123-175 | when no frame can wrap the count: nothing without a record at or after the start below the clamp; otherwise the records from the start on without a gap, as many as fit the byte limit together, but at least one |
| LogRead.AnswerIsPiece | src/storage/partition.cpp:128-175 | even when the count wraps, a follower's read is a gapless piece of the log starting at its offset |
| LogRead.AnswerMovesOn | src/storage/partition.h:41-45 | whatever the byte limit, a read at an offset below the clamp and the log end is not empty, so that no reader stalls |
| LogRead.ReadCanOvershoot | src/storage/partition.cpp:152-170 | a log of two records of 2^31 bytes and more whose read returns both under a limit of 2^32 - 1 bytes, where the naive answer is the first alone |
| Partitions.Partition.Recover | src/storage/partition.cpp:33-67 | from any directory: segments in order of base offset, closed ones loaded, the last one scanned, next offset and high watermark set; from the files of a partition whose last file was cut anywhere: a valid partition whose log is the old one's clean prefix |
| Partitions.Partition.CrashLeavesTornDisk | src/storage/partition.cpp:33-67 | whatever was appended and rolled, the files with the last log cut anywhere are such files; uncut, nothing is lost |
| Partitions.Partition.RestartValid | src/storage/partition.cpp:33-67 | a reopened partition satisfies the full representation invariant, so appends and reads go on as before |
| Partitions.SurvivorsAreWhole | src/storage/partition.cpp:33-67 | what survives of the last segment is exactly the records whose frames lie wholly in the bytes left |
| Partitions.Restart | src/storage/partition.cpp:33-67 | a new object on the files a valid partition left, the last one cut anywhere, is valid and holds that partition's first n records: of the last segment exactly those wholly before the cut, all when nothing was cut |
| Partitions.LiveOn | src/storage/partition.cpp:33-131 | a batch, a crash that cuts the last file anywhere, a restart, another batch and a read: the log is a prefix of the old one and then the new batch, and the read answers from it |
| Sorting.SortByCorrect | src/storage/partition.cpp:42 | a sort by any total order is ascending and a permutation |
| Sorting.SortedIsUnique | src/storage/partition.cpp:42 | there is one way only to list the same elements once each in order, so the sort used does not matter |
| Election.RequestVoteKeepsVote | src/cluster/controller.cpp:146-161 | a vote is granted exactly for a higher term, or for the own term with no vote given or the same one; the answer carries the larger term; memory and file stay equal, a vote within a term never changes, nobody becomes leader, and a granted vote is on file |
| Election.HeartbeatKeepsVote | src/cluster/controller.cpp:163-181 | a heartbeat is accepted exactly when its term is not below the own one, and then makes a follower of its sender in that term; a refused one changes nothing; votes within a term stay |
| Election.ReplyDecides | src/cluster/controller.cpp:328-336 | a reply with a higher term makes a follower of that term, on file and without a vote; a vote counts exactly when granted for the asked term with no higher term seen |
| Election.ElectionStarts | src/cluster/controller.cpp:294-306 | the next term in 32 bits, candidate, the own vote on file |
| Election.MoreThanHalfWins | src/cluster/controller.cpp:340-348 | a candidate still in the asked term becomes leader exactly when twice its votes exceed the number of brokers |
| Election.ClusterController.constructor | src/cluster/controller.cpp:37-77 | a broker starts as a follower that knows no leader, with the term and vote of its file |
| Election.ClusterController.DoStepDown | src/cluster/controller.cpp:115-123 | a follower; of a higher term with no vote, saved, when the term given is higher, else in its own term with nothing else changed |
| Election.ClusterController.HandleRequestVote | src/cluster/controller.cpp:146-161 | the new state and the reply are the function OnRequestVote of the old state |
| Election.ClusterController.HandleControllerHeartbeat | src/cluster/controller.cpp:163-181 | the new state and the reply are the function OnHeartbeat of the old state |
| Election.ClusterController.StartElection | src/cluster/controller.cpp:294-306 | candidate of the next term, with its own vote on file |
| Election.ClusterController.TakeVoteReply | src/cluster/controller.cpp:328-336 | a higher term steps down; a granted reply of the asked term adds one vote |
| Election.ClusterController.EndElection | src/cluster/controller.cpp:340-348 | leader exactly when still candidate of the asked term with more than half of the brokers' votes |
| Election.ClusterController.TakeHeartbeatReply | src/cluster/controller.cpp:379-383 | a higher term steps down |
| ElectionProtocol.StepOk | src/cluster/controller.cpp:294-387 | every step of every broker keeps the election invariant and everything recorded: terms, votes, elections |
| ElectionProtocol.CountedAreBackers | src/cluster/controller.cpp:314-337 | the votes a candidate counts are at most the brokers whose recorded vote for that term is the candidate |
| ElectionProtocol.PastIsKept | src/cluster/controller.cpp:63-77 | between any two moments of a run without a wrap, crashes included, no term goes back and no recorded vote changes |
| ElectionProtocol.VoteIsWriteOnce | src/cluster/controller.cpp:63-66 | the same for runs of any length without a wrap |
| ElectionProtocol.RecordedVoteWasOnDisk | src/cluster/controller.cpp:146-161 | each recorded vote was at some moment the content of that broker's raft_state |
| ElectionProtocol.ElectionSafetyInShortRuns | src/cluster/controller.cpp:294-350 | in every run with fewer steps than there are terms above those on file: two executions of become_leader for one term are by one broker, each backed by a strict majority whose raft_state named it for that term before |
| ElectionProtocol.OneLeaderInShortRuns | src/cluster/controller.cpp:125-129 | in every such run no two brokers hold the leader role in the same term at once |
| ElectionProtocol.VoteIsWriteOnceInShortRuns | src/cluster/controller.cpp:63-66 | in every such run terms on file never go back and a vote on file is what the file shows whenever it shows that term again |
| ElectionProtocol.ShortRunsDoNotWrap | src/cluster/controller.cpp:300 | in every such run no term counter wraps, because a step raises the highest term by at most one |
| ElectionProtocol.WrappedMeans | src/cluster/controller.cpp:300 | a counter has wrapped exactly when some step started an election at the last term |
| ElectionProtocol.ElectionSafety | src/cluster/controller.cpp:294-350 | the same for runs of any length in which no counter wraps |
| ElectionProtocol.OneLeaderAtATime | src/cluster/controller.cpp:125-129 | in runs of any length without a wrap no two brokers hold the leader role in the same term at once |
| ElectionRuns.ElectedMeansWon | src/cluster/controller.cpp:125-129 | in runs without a wrap the recorded elections are exactly the executions of become_leader so far |
| ElectionRuns.Victory | src/cluster/controller.cpp:294-350 | at any moment of any run, an idle broker wins an election with any set of peers that would vote for it, if these and itself are more than half of the brokers, although every call to the others fails |
| ElectionRuns.BeatTermIsWonExactly | src/cluster/controller.cpp:352-358 | the heartbeats of a broker that read the leader role at one step and its term at a later one carry a term that broker won exactly when its term did not change in between |
| ElectionRuns.SteadyBeatsAreWon | src/cluster/controller.cpp:501-508 | in a run where that holds of every beat, every heartbeat ever sent carries a term its sender won |
| ElectionRuns.WrapBreaksSafety | src/cluster/controller.cpp:300 | from every start, whatever is on file, and for every term but 0: a run in which two brokers of the caller's choice both execute become_leader for that term |
| ElectionRuns.HeartbeatUnderForeignTerm | src/cluster/controller.cpp:352-358 | a run in which a stepped-down leader heartbeats under a term it never won and is believed |
| Assignments.AliveExactly | src/cluster/controller.cpp:188-204 | the alive list is, in the brokers' order and nobody twice, exactly this broker and those heard from at most 600 ms ago, ages in 64 bits |
| Assignments.PlacementSound | src/cluster/controller.cpp:220-230 | a placement lists rf different alive brokers, its leader first, all in sync |
| Assignments.PlacementBalanced | src/cluster/controller.cpp:206-237 | over all partitions of a topic two alive brokers' leader counts differ by at most one and their replica counts by at most the effective replication factor |
| Assignments.TopicIsAsAsked | src/cluster/controller.cpp:206-237 | every partition of a new topic has one replica if none is asked for, all alive brokers if more are, else as many as asked: consecutive alive brokers, starting one further for each partition, the first leading, all in sync |
| Assignments.TopicIsInTable | src/cluster/controller.cpp:226-233 | applied to a table, a new topic's entries are its partitions there, and no other partition changes |
| Assignments.EveryoneHasAReplica | src/cluster/controller.cpp:213-229 | asked for at least as many replicas as there are alive brokers, a partition has all of them |
| Assignments.AppliedExactly | src/cluster/controller.cpp:265-271 | a partition gets its last entry, or stays as it is without one |
| Assignments.FailoverChooses | src/cluster/controller.cpp:448-492 | exactly when a partition changes leader, and that the least candidate leads, replicas stay, and the new in-sync set is the alive rest of the old one or the new leader alone |
| Assignments.FailoverSound | src/cluster/controller.cpp:448-492 | a failover keeps an assignment sound |
| Assignments.FailoverPass | src/cluster/controller.cpp:440-499 | a failover pass keeps the set of partitions, gives each its outcome by who is alive, and sends exactly the changed ones as they now are, each once, by topic and then by number |
| AssignmentStore.AssignmentTable.AliveBrokerIds | src/cluster/controller.cpp:188-204 | the loop returns exactly the brokers heard of within 600 ms, and itself |
| AssignmentStore.AssignmentTable.CreateTopic | src/cluster/controller.cpp:206-237 | nothing unless controller; else every partition gets the number of replicas asked for, as far as there are alive brokers, in consecutive brokers and all in sync, in the table, in the file and in the entries sent; every other partition stays |
| AssignmentStore.AssignmentTable.ApplyLeaderAndIsr | src/cluster/controller.cpp:265-271 | the table after applying the entries in order, and the file rewritten |
| AssignmentStore.AssignmentTable.UpdateIsr | src/cluster/controller.cpp:273-292 | the in-sync set of a known partition is replaced, on the controller only, saved and sent on |
| AssignmentStore.AssignmentTable.CheckPartitionFailover | src/cluster/controller.cpp:440-499 | every partition is as the failover decision for it says, the entries sent are those that changed, in key order, and the file is rewritten when there are any |
| AssignmentStore.Restart | src/cluster/controller.cpp:37-48 | a process that starts over with the saved file of a writable table has that table again |
| AssignmentProtocol.StepOk | src/cluster/controller.cpp:206-292 | every step of every broker, reconciling from an old copy of its table included, keeps all assignments, broadcasts, reports and leading states sound and never changes the replicas a partition was created with, unless it creates a topic again or makes a broker reread a file with a topic that is no word |
| AssignmentProtocol.SoundTableReloads | src/cluster/controller.cpp:79-109 | sound assignments come back from the file after a crash unchanged exactly when every topic is a non-empty word without white space |
| AssignmentProtocol.RecomputeOk | src/replication/isr_manager.cpp:94-133 | a leader's report is never empty, has no duplicates and names replicas only |
| AssignmentProtocol.AssignmentsStaySound | src/cluster/controller.cpp:440-499 | at any two moments of any run without those two kinds of step, all that any broker or broadcast says of a partition agrees on its replicas; its leader is a replica and its in-sync set a non-empty duplicate-free part of them |
| AssignmentProtocol.WordAssignmentsStaySound | src/cluster/controller.cpp:440-499 | the same for every run whose topics are words and created once |
| AssignmentProtocol.OddTopicIsMisread | src/cluster/controller.cpp:90-109 | a topic with white space: after one creation and one crash a broker knows a partition without replicas that nobody created |
| AssignmentProtocol.RecreatedTopicIsUnsound | src/cluster/controller.cpp:273-292 | a topic created twice: a report under way for the old replicas gives the new assignment an in-sync set outside its replicas |
| AssignmentFile.PersistAssignments | src/cluster/controller.cpp:79-88 | writes the lines of all assignments in key order |
| AssignmentFile.LineLayout | src/cluster/controller.cpp:79-88 | the line of a partition, character by character: topic, number, leader, and each list as its length and its members, with single blanks |
| Assignments.KeysInOrderIsExact | src/cluster/controller.cpp:79-88 | that order has every key once, by topic and then by partition number |
| AssignmentFile.LoadAssignments | src/cluster/controller.cpp:90-109 | reads the lines back, later ones winning |
| AssignmentFile.FileRoundTrip | src/cluster/controller.cpp:79-109 | loading what was persisted gives the same map exactly when every topic is a non-empty word without white space and no list has 2^32 members |
| Strings.DecimalRoundTrip | src/cluster/controller.cpp:79-88 | a number written in decimal reads back as itself |
| Strings.StringLeMeans | src/cluster/controller.cpp:79-88 | in the order of keys the first different character decides, and a beginning comes before the whole |
| Isr.RecomputeMeans | src/replication/isr_manager.cpp:94-133 | the in-sync set is exactly the replicas that lag neither in time nor in messages, ascending and duplicate-free; the high watermark is the greatest offset the leader's log and every member's progress reach |
| Isr.InSyncExactly | src/replication/isr_manager.cpp:99-114 | a replica is in sync exactly when it is the leader, or fetched at most 1000 ms ago, is not past the log end and at most 1000 records behind it; one that never fetched is out |
| Isr.MarkAtEnd | src/replication/isr_manager.cpp:116-122 | the mark is the log end exactly when every in-sync follower has fetched up to it |
| Isr.SilentReplicasHoldNothing | src/replication/isr_manager.cpp:94-133 | when every follower is new or silent for more than 1000 ms the mark is the log end |
| IsrManager.PartitionState.SetLeading | src/replication/isr_manager.cpp:37-44 | replicas are replaced, a non-empty in-sync set is kept |
| IsrManager.PartitionState.CollectInSync | src/replication/isr_manager.cpp:99-114 | the loop over the replicas keeps those in sync |
| IsrManager.PartitionState.FoldProgress | src/replication/isr_manager.cpp:116-120 | the loop folds the least progress of the members |
| IsrManager.PartitionState.Recompute | src/replication/isr_manager.cpp:94-133 | new in-sync set and high watermark as stated, the set reported when it changed, and the mark below the log end and every in-sync progress |
| IsrManager.PartitionState.OnReplicaFetch | src/replication/isr_manager.cpp:51-64 | progress and fetch time are noted, then everything is recomputed |
| IsrManager.PartitionState.Produce | src/broker/broker.cpp:161-166 | after an append of any batch and its recomputation the log has the stamped batch, the high watermark is the recomputed one and a changed in-sync set is reported; the partition stays valid unless the batch has 2^32 bytes or offsets reach 2^63 |
| IsrManager.PartitionState.Replicate | src/broker/broker.cpp:454-459 | the records are read before the progress is noted, and a changed in-sync set is reported |
| IsrManager.PartitionState.AnswerProduce | src/broker/broker.cpp:174-184 | an acks=all produce of records times out exactly when the high watermark is not past its batch; answered while the mark is covered, every in-sync follower has fetched past the batch |
| IsrManager.WaitForMark | src/replication/isr_manager.cpp:83-92 | waiting while fetches and sweeps recompute the mark ends past the offset exactly when the mark is past it at some moment of the wait |
| IsrManager.LeaderProduce | src/broker/broker.cpp:161-188 | a produce at the leader appends the stamped batch; with acks=all it times out exactly when the mark passes the batch at no moment of the wait, and answered without error every in-sync follower has fetched past the batch |
| IsrManager.HandleProduce | src/broker/broker.cpp:138-188 | an unknown topic and another leader are refused with nothing changed; else the reply is that of the leader's produce |
| IsrManager.TimesOutExactly | src/broker/broker.cpp:173-184 | an acks=all produce of records times out exactly when at its recomputation and after every arrival of the wait some in-sync follower has not fetched past its batch |
| IsrManager.FetchedProduceIsAnswered | src/broker/broker.cpp:173-188 | a produce is answered in time when every follower's last fetch of the wait is past its batch |
| IsrManager.PartitionState.Lead | src/broker/broker.cpp:485-502 | only a partition not led before jumps to its log end |
| Replication.StepOk | src/broker/broker.cpp:161-188 | every step of producers, followers, fetch serving and recomputation keeps the replication invariant |
| Replication.MarkWrittenOk | src/replication/isr_manager.cpp:94-133 | writing the recomputed mark restores the bound on the high watermark that an append broke, even when an append fell between reading the log end and writing the mark |
| Replication.ApplyOk | src/replication/follower.cpp:47-69 | applying an answer keeps a follower's log a prefix of the leader's |
| Replication.ReplicationSafety | src/replication/isr_manager.cpp:51-133 | at every moment of a tenure: follower logs are prefixes of the leader's, recorded progress is at most the follower's end, the high watermark is inside the leader's log and, unless a produce is between append and recomputation, inside every in-sync log |
| Replication.MarkFallsExactly | src/replication/isr_manager.cpp:94-133 | a step lowers the high watermark exactly when it writes a mark computed for a log end below it, or with an in-sync replica whose progress is below it |
| Replication.MarkFallsInRuns | src/replication/isr_manager.cpp:94-133 | the same for any step of any run from the start of a tenure |
| Replication.MarkNeverFalls | src/replication/isr_manager.cpp:94-133 | in a run in which no write of the mark meets that condition the high watermark never goes back |
| Replication.SweepAnswersExactly | src/replication/isr_manager.cpp:66-92 | at any moment of any tenure a sweep lets a waiting acks=all produce be answered exactly when every follower in sync at that time has fetched past the batch |
| Replication.DeadFollowersDoNotBlock | src/replication/isr_manager.cpp:94-133 | at any moment of any tenure: with every follower silent for more than 1000 ms or new, a sweep lets any waiting acks=all produce be answered |
| Replication.AcksAllHonest | src/broker/broker.cpp:161-188 | when an acks=all produce may be answered without error and no produce is between append and recomputation, every in-sync replica holds the stamped batch at base, base + 1, ... |
| Replication.HeldExactly | src/broker/broker.cpp:161-188 | in any state of a tenure a batch that stands in the leader's log stands in every in-sync replica exactly when all their logs reach past it |
| Replication.AcksAllHonestExactly | src/broker/broker.cpp:161-188 | whenever an acks=all produce may be answered without error, other produces under way or not, the in-sync set holds its stamped batch exactly when every in-sync follower's log reaches past it |
| Replication.SerialAcksHonest | src/broker/broker.cpp:161-188 | with produces one after the other this needs no further condition |
| Replication.CleanFailover | src/cluster/controller.cpp:448-492 | when the controller's in-sync set is part of the leader's last one and unclean election is off, the chosen broker holds every record below the old high watermark, and its own mark after the jump is not below it |
| Replication.InSyncPromotionKeeps | src/broker/broker.cpp:485-501 | any member of the leader's last in-sync set may be promoted: it holds every record below the old high watermark |
| Replication.PromotionKeepsExactly | src/broker/broker.cpp:485-501 | at any moment a follower holds every record below the high watermark exactly when its own log end, the mark it would serve, is not below it |
| Replication.HighWatermarkCanFall | src/replication/isr_manager.cpp:116-122 | a run in which a rejoining replica lowers the high watermark |
| Replication.ConcurrentAcksCanLie | src/storage/partition.cpp:94 | a run with two producers in which an acks=all produce may be answered although an in-sync follower has nothing |
| Replication.StaleIsrCanLose | src/cluster/controller.cpp:454-466 | a run in which a stale in-sync set at the controller makes a failover lose a committed record |
| Reconciliation.FollowerFetcher.FetchTurn | src/replication/follower.cpp:47-69 | one turn against the leader: the follower asks for what follows its log, the leader notes exactly that progress, and the follower's log stays a prefix of the leader's, loses nothing and grows by the answer unless that is lost; when nothing is lost and answers fit a frame, it backs off exactly when it has the whole log |
| Reconciliation.FollowerFetcher.CatchUp | src/replication/follower.cpp:47-69 | turns without a lost answer end with the leader's whole log at the follower and the leader knowing so |
| Reconciliation.FollowerFetcher.HandleAnswer | src/replication/follower.cpp:59-69 | an error or an empty answer backs off and changes nothing; other answers are appended as the protocol says, and the partition stays valid when they continue it |
| Reconciliation.Broker.Reconcile | src/broker/broker.cpp:468-527 | for each partition by itself: what is led, followed, tracked and raised to its log end is what the assignments say |
| Reconciliation.ReconciledExactly | src/broker/broker.cpp:485-527 | one partition through a reconciliation in plain terms: led anew, it jumps to its log end with all replicas in sync; led before, it keeps mark and in-sync set; a replica is pulled from its leader and keeps its mark; nothing else is followed |
| Reconciliation.ReconcilingTwice | src/broker/broker.cpp:485-501 | reconciling again with the same assignments touches no high watermark and changes no role |
| RangeAssignment.ComputeRangeAssignment | cli/mk-consume.cpp:114-131 | the nested loops compute the range assignment of the sorted members when these are fewer than 2^32, and divide by zero exactly when their number is a positive multiple of 2^32 |
| RangeAssignment.RangeIsExact | cli/mk-consume.cpp:114-131 | for distinct members exactly they get lists, the lists in member order are 0, 1, ..., count - 1, and lengths differ by at most one |
| RangeAssignment.RangeSizes | cli/mk-consume.cpp:114-131 | member i in name order gets count / n partitions, and one more exactly when i < count % n |
| RangeAssignment.RangeIsExclusive | cli/mk-consume.cpp:114-131 | no partition is in two members' lists |
| Groups.MemberNamesDiffer | src/group/coordinator.cpp:38-41 | member ids of one incarnation never repeat |
| Groups.MemberListIsExact | src/group/coordinator.cpp:82 | the member list of a reply is exactly the members, each once, in the order of their names |
| Groups.WindowExactly | src/group/coordinator.cpp:48-64 | whoever opens a window starts it empty and for 1000 ms; later joins keep its deadline and members; nobody returns from an open one before the deadline |
| Groups.JoinExactly | src/group/coordinator.cpp:65-83 | the end of a window starts the next generation without an assignment; whoever returns is told all its members once in name order, the first of which leads |
| Groups.SyncEnterExactly | src/group/coordinator.cpp:86-118 | refused for another generation or a non-member; shares are stored, each member's last one, and answered with the sender's own; no shares wait |
| Groups.SyncReturnExactly | src/group/coordinator.cpp:103-118 | after the wait: the member's list if this generation's assignment is posted, a rebalance for another generation, else a time-out |
| Groups.BeatExactly | src/group/coordinator.cpp:120-145 | a heartbeat is refused for a non-member, another generation and a due rebalance, changing nothing; else it dates its member anew, keeps exactly the others heard of within their own timeout, and makes a rebalance due exactly when somebody is evicted |
| Groups.BeatKeepsAlive | src/group/coordinator.cpp:120-145 | an accepted heartbeat protects its member from every other one up to the member's timeout later |
| Groups.SilentMemberIsEvicted | src/group/coordinator.cpp:120-145 | a member silent for longer than its timeout is gone after any other's accepted heartbeat, then unknown, and the survivors are told to rebalance |
| Groups.LeaveExactly | src/group/coordinator.cpp:147-154 | a leave removes just its member and makes every other one rejoin |
| Groups.GroupState.BeginJoin | src/group/coordinator.cpp:48-62 | opens an empty window or enters the open one |
| Groups.GroupState.EndJoin | src/group/coordinator.cpp:65-83 | any waiter that finds a window open finalizes it; the reply is read in the same block |
| Groups.GroupState.BeginSync | src/group/coordinator.cpp:86-103 | refuses another generation or a non-member, posts a non-empty assignment, else waits |
| Groups.GroupState.EndSync | src/group/coordinator.cpp:103-117 | times out, reports a rebalance, or returns the member's list of the posted assignment |
| Groups.GroupState.Heartbeat | src/group/coordinator.cpp:120-145 | renews its member and evicts exactly the other silent ones |
| Groups.GroupState.LeaveGroup | src/group/coordinator.cpp:147-154 | removes a member and forces a rebalance, or does nothing |
| GroupProtocol.PostIsComputed | cli/mk-consume.cpp:208-231 | what the coordinator stores is what the leader computed |
| GroupProtocol.PostOnce | src/group/coordinator.cpp:86-103 | an accepted assignment is the first of its generation |
| GroupProtocol.StepOk | src/group/coordinator.cpp:48-154 | every block and message, late finalizing waiters, evictions and leaves included, keeps the group invariant |
| GroupProtocol.BeatingMemberStays | src/group/coordinator.cpp:120-145 | over runs of any steps: from its accepted heartbeat on a member stays, dated by its latest accepted one, as long as it does not leave, no new window opens and other members' accepted heartbeats come within its timeout of its own latest |
| GroupProtocol.SilentMemberGoes | src/group/coordinator.cpp:120-145 | over runs of any steps: after another's accepted heartbeat past its timeout a silent member is gone, and until a window ends it is not back and nobody's heartbeat is accepted |
| GroupProtocol.EveryoneGetsItsShare | cli/mk-consume.cpp:208-241 | from any state without an open window, unless the clock is about to wrap, any number of clients can join in one window, return with the next generation and sync; then they are the members, and their lists in name order are 0, 1, ..., count - 1 |
| GroupProtocol.ExclusiveOwnershipInShortRuns | cli/mk-consume.cpp:208-241 | in every run of fewer than 2^32 steps: two members that sync successfully for one generation hold disjoint lists, both slices of one range assignment |
| GroupProtocol.OnePostInShortRuns | src/group/coordinator.cpp:86-103 | in every such run no generation gets a second assignment |
| GroupProtocol.ShortRunsDoNotWrap | src/group/coordinator.cpp:67-69 | in every such run the generation counter does not wrap |
| GroupProtocol.WrappedMeans | src/group/coordinator.cpp:67-69 | the counter has wrapped exactly when some step finalized a window at the last generation |
| GroupProtocol.ExclusiveOwnership | cli/mk-consume.cpp:208-241 | disjoint slices of the one assignment posted, for runs of any length in which the counter does not wrap |
| GroupProtocol.OnePostPerGeneration | src/group/coordinator.cpp:86-103 | no second assignment, for runs of any length in which the counter does not wrap |
| GroupProtocol.LateWaiterFinalizes | src/group/coordinator.cpp:64-76 | a run in which a late waiter finalizes a window it is not a member of |
| Wire.WireRoundTrip | src/protocol/requests.cpp:14-31 | any message built from integers, strings, records, lists and sequences of these is read back, with any tail left, exactly when its integers, lengths and counts are in bounds |
| Wire.ParsedInBounds | src/protocol/requests.cpp:22-31 | whatever the bytes, a message that was read is in bounds and lies inside the bytes |
| Wire.ParsedIsPut | src/protocol/requests.cpp:22-31 | any bytes from which a message without records is read are those it would be written as: nothing else is accepted |
| Requests.EncodeProduce | src/protocol/requests.cpp:14-20 | the encoder and its loop write the message's layout |
| Requests.DecodeProduce | src/protocol/requests.cpp:22-31 | the decoder and its loop read that layout or fail |
| Requests.ProduceRoundTrip | src/protocol/requests.cpp:14-31 | what any such decoder returns for an encoded request and a tail is the request exactly when topic, count and records fit |
| Requests.ProduceLayout | src/protocol/requests.cpp:14-20 | the bytes of the message: topic, partition, acks, the number of records and their frames |
| Requests.EncodeFetched | src/protocol/requests.cpp:67-74 | the encoder and its loop write the message's layout |
| Requests.DecodeFetched | src/protocol/requests.cpp:76-86 | the decoder and its loop read that layout or fail |
| Requests.FetchedRoundTrip | src/protocol/requests.cpp:67-86 | the same for fetch responses, error code included |
| Requests.FetchedLayout | src/protocol/requests.cpp:67-74 | the bytes: error code in sixteen bits, high watermark, leader host and port, the number of records and their frames |
| Requests.EncodeSync | src/protocol/requests.cpp:240-250 | the encoder and its nested loops write the message's layout |
| Requests.DecodeSync | src/protocol/requests.cpp:252-268 | the decoder and its nested loops read that layout or fail |
| Requests.SyncRoundTrip | src/protocol/requests.cpp:240-268 | the same for SyncGroup requests, lists of lists included |
| Requests.SyncLayout | src/protocol/requests.cpp:240-250 | the bytes: group, member, generation, and the counted shares, each a member and its counted partitions |
| Requests.EncodeLeaderAndIsr | src/protocol/requests.cpp:457-468 | the encoder and its nested loops write the message's layout |
| Requests.DecodeLeaderAndIsr | src/protocol/requests.cpp:470-488 | the decoder and its nested loops read that layout or fail |
| Requests.LeaderAndIsrRoundTrip | src/protocol/requests.cpp:457-488 | the same for LEADER_AND_ISR requests |
| Requests.LeaderAndIsrLayout | src/protocol/requests.cpp:457-468 | the bytes: the counted entries, each topic, partition, leader, and the counted replicas and in-sync set |

## Left out

- ElectionProtocol.ElectionSafety: holds while no step starts an election at term 2^32 - 1 (ElectionProtocol.WrappedMeans), because otherwise it is false from every start (ElectionRuns.WrapBreaksSafety); the condition is sufficient, and not every wrap does harm.
- Replication.AcksAllHonest: needs that no produce is between its append and its recomputation when the wait ends, because otherwise it is false (Replication.ConcurrentAcksCanLie); Replication.AcksAllHonestExactly says when the answer is honest all the same.
- Replication.CleanFailover: needs an up-to-date in-sync set at the controller and no produce in that moment, because otherwise it is false (Replication.StaleIsrCanLose); Replication.PromotionKeepsExactly says which promotions lose nothing.
- GroupProtocol.ExclusiveOwnership: holds while no step finalizes a window at generation 2^32 - 1; a run that shows harm would need 2^32 join windows.
- Partitions.Partition.Append: promises the representation invariant for batches of less than 2^32 bytes and logs of fewer than 2^63 records only; beyond them offsets and positions no longer fit their fields.
- RangeAssignment.ComputeRangeAssignment: says nothing of the lists for more than 2^32 members.
- Reconciliation.FollowerFetcher.CatchUp: asks for logs whose answers fit a frame's four-byte length, and for a leader that appends nothing meanwhile.
- IsrManager.HandleProduce: one produce at a time, at a broker that goes on leading the partition; Replication has the runs with several producers.
- AssignmentFile.LoadAssignments: is stated for files of whole lines; for a malformed file it gives nothing, where the program keeps the lines before the fault and may go on with a half-read line whose second count was never set.
- AssignmentProtocol.AssignmentsStaySound: leaves out runs that create a topic again and crashes of a broker with a topic that is no word, because there it is false (AssignmentProtocol.OddTopicIsMisread, AssignmentProtocol.RecreatedTopicIsUnsound).
- Reconciliation.Broker.Reconcile: keeps log end and high watermark of each partition as a pair of numbers, not as the partition object, and identifies a leader's address with its broker id.
- Files are byte sequences: no operating system crash, no missing sync, no partial write of raft_state, cluster_assignments or an index file; a crash cuts the end of the last log file only.
- Replication covers one tenure from empty logs up to the first failover. A follower that loses the end of its log in a crash, a second failover, the handover between two fetchers of one partition and data loss by unclean election are not covered; the code has no epochs and no truncation there.
- One incarnation of the group coordinator: member numbers restart at zero after a restart. Member numbers are unbounded, not 64 bits wide.
- Committed offsets: a commit overwrites, so there is nothing to keep.
- Sockets, frames, the thread for each connection and reconnecting calls: replaced by messages that may be lost or repeated. Reserving memory for a count a message claims is not modelled.
- Real clocks, random election timeouts and sleeps: a timeout may happen at any moment and clock readings are arbitrary.
- Broker heartbeats are an input: which brokers count as alive is an argument of the failover and placement steps.
- Standalone mode, metadata requests, the partitioning hash, single-field messages and the command line tools apart from the group leader's range assignment: they add nothing hard.
