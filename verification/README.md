# Replication, apply and routing in pika, verified in Dafny

pika is a Redis-compatible server. This project models the parts of it that decide
whether data survives and agrees between nodes, and proves what they guarantee:

- **The binlog.** `BinlogFormat` and `BinlogHistory` describe the bytes: items split into
  records over 64 KB blocks, trailers, padding, files. `BinlogWriter.Binlog` is the
  producer, `BinlogReader.Reader` the consumer, `BinlogRoundTrip` puts the two together,
  and `BinlogLockstep` shows when two logs agree on physical offsets.
- **Replication.** `ReplicatedLog`, `FollowerNode`, `Shipping`, `SyncWindow` and
  `CommitIndex` model what leader and follower do with log entries; `Cluster` runs them
  as one state machine over a network that loses, repeats and reorders messages, and
  `Reactivation` says what happens when a follower is activated while tasks wait for it,
  and `Progress` that a proposal can always be committed.
- **Resuming after a break.** `IndexSearch` finds entries by logical index, and `FileStart`
  reads what a file begins with;
  `Negotiation` is the exchange in which a follower cuts its log back to the leader's.
- **Apply.** `MemLog` and `ApplyOrder` follow entries from the log to the workers, across
  cut-backs and restarts; `ParallelApply` shows that key-hashed workers do what one would.
- **What is logged.** `ItemCodec`, `Resp` and `Rewrite`: the item header, the command
  text, and the rewriting of relative expiry times.
- **Requests.** `SplitMerge` divides multi-key commands among partitions, `ReplyBatch`
  decides who writes the replies of a pipeline, `Crc32` assigns keys to partitions, and
  `Interleave64`, `GeohashWord`, `Geohash` and `GeohashScan` cover geohashes (`Bits` and
  `WordBits` hold what they share about binary numbers).

Code that updates state in place is a class or a method with its loops, proved against
functions on values; concurrent code is a state machine whose steps are the critical
sections or single accesses to shared memory. Bytes are integers below 256, offsets are unbounded
naturals, and integer widths are written out where they matter. Clocks, hash functions,
thread schedules and what a read at an arbitrary offset yields are parameters.

Several properties one might expect do not hold as the code stands. Each has a lemma with
the exact condition:

- `BinlogLockstep.PaddingExact`: restarting a log at an offset 1 to 7 bytes into a block
  does not reproduce that offset. Offsets a producer reaches are never such.
- `SyncWindow.TotalStaysExact` and `SyncWindow.AcknowledgedTwice`: the byte total of the window is off once an
  acknowledgement covers an item of positive size that was acknowledged before.
- `FollowerNode.FirstSegmentUnchecked`: a follower whose last index is zero skips the
  check of the preceding offset, so it takes any first segment.
- `FollowerNode.BatchSafeIffFits` and `FollowerNode.DeliverSafeIffFits`: inside a batch an
  entry with the index of the last one is appended again, because only smaller indices
  are dropped. A message is safe exactly when each of its records is old or the next one,
  which the leader can tell before it sends the message. `Cluster.ReplicationExact` is the
  same for whole runs: followers hold prefixes exactly as long as what they take in fits.
- `Reactivation.SecondActivationRepeats`: a follower that is activated again while tasks
  wait for it may get such a message, and from every state in which a connected follower
  is behind there is a run in which it does. `Cluster.AllSentFit` shows that a leader
  whose messages all fit is safe, and `Reactivation.ClearRunFits` that they all do if no
  task waits at an activation.
- `ApplyOrder.RestartComplete` and `ApplyOrder.RestartLoses`: with no applied index yet, a restart does not load the
  memory log, so entries already logged are never handed over.
- `ApplyOrder.CutBackComplete` and `ApplyOrder.CutBackLoses`: cutting back to the commit index drops committed entries
  that still wait to be handed over.
- `ReplyBatch.OneWrite`: the replies of a pipeline are sure to be written once and in full
  only if no command is answered twice, and then exactly when no background execution ends
  early.
  A write to several partitions is answered once for each of them, and a command that
  fails after it was handed over is answered at once as well. For every pipeline the
  replies may then be written early (`ReplyBatch.WrittenEarly`, `ReplyBatch.LateFailure`)
  or never (`ReplyBatch.NeverWritten`, `ReplyBatch.LostNeverWritten`).
- `IndexSearch.FindLogicOffsetBySearchingBinlog` and `FileStart.FirstItem`: a file that
  begins with padding cannot be read from its start, so a search that comes to it fails.
- `GeohashScan.ScanFindsCell` and `GeohashScan.CornerListedTwice`: the range scanned for a
  cell is closed, so it holds the lowest corner of the next cell as well.
- `GeohashScan.DecodeEncloses` and `GeohashScan.LastCellWraps`: the box of the last cell at step 32 does not contain its
  points, because the number of its upper edge wraps around.
- `Negotiation.RoundShortens` and `Negotiation.SingleHintRepeats`: with a single hint and
  a different term a rejected follower asks again unchanged.
- `Rewrite.ReplayExpiry` and `Rewrite.NxExpiryMoves`: SET with NX, XX or VX and a relative
  time keeps the relative time in the log.
- `Rewrite.RewriteFixedPoint` and `Rewrite.LargestTimeRefused`: a rewritten SET whose 32-bit expiry is the largest one is
  refused on replay.
- `ItemCodec.DecodeEncode`: an item is read back only if its content length fits 32 bits.

The end-of-block tests of the writer (less than a header left) and of the reader (at most
a header left) differ; the model follows both, and the reader skips the empty header that
the writer leaves in that case. `Get` also reports success after a bad record, as in the
code.

## Model

| member | source | states |
|---|---|---|
| BinlogFormat.LayoutFragments | src/pika_binlog.cc:264-306 | the bytes the producer lays out for an item are its fragments: headers with length and type, and payloads that join to the item |
| BinlogFormat.SmallItem | src/pika_binlog.cc:231-262 | the bytes of an item that fits in its block: length, second, type and content |
| BinlogFormat.EndsInSync | src/pika_binlog.cc:264-306 | the block fill the producer keeps agrees with the producer offset after every item |
| BinlogFormat.PaddingLastRecord | src/pika_binlog.cc:308-352 | padding ends in a bad record that fills the rest |
| BinlogHistory.PositionsIncrease | src/pika_binlog.cc:197-229 | producer positions strictly increase with every put, across files |
| BinlogHistory.HistoryExtend | src/pika_binlog.cc:197-229 | a put keeps every earlier item readable where it was and adds the new one at the end |
| BinlogHistory.BlockLeadsTo | src/pika_binlog_reader.cc:54-98 | from the start of its block, records lead exactly to any position the producer ever had |
| BinlogHistory.PaddingHistory | src/pika_binlog.cc:308-394 | padding leaves a log in which records lead to its end |
| BinlogHistory.HistoryCut | src/pika_binlog.cc:396-425 | cutting the files at a producer position keeps exactly the items before it |
| BinlogWriter.Binlog.constructor | src/pika_binlog.cc:93-109 | a new log is empty, consistent and at position (0, 0) |
| BinlogWriter.Binlog.Reopen | src/pika_binlog.cc:110-136 | a log opened at the position of its manifest holds the same items and is consistent, whatever lies beyond in the file |
| BinlogWriter.Binlog.InitLogFile | src/pika_binlog.cc:155-162 | the block fill is the file length modulo the block size |
| BinlogWriter.Binlog.EmitPhysicalRecord | src/pika_binlog.cc:231-262 | appends header and payload and moves the block fill by their size |
| BinlogWriter.Binlog.Produce | src/pika_binlog.cc:264-306 | appends the layout of the item for the current block fill and returns the offset after it |
| BinlogWriter.Binlog.RollIfFull | src/pika_binlog.cc:205-217 | opens the next file exactly when the current one has grown past the limit |
| BinlogWriter.Binlog.Put | src/pika_binlog.cc:197-229 | the history gains exactly this item, at the position computed from its length, and stays readable |
| BinlogWriter.Binlog.AppendPadding | src/pika_binlog.cc:308-352 | writes the padding for a length and reports the length it reached |
| BinlogWriter.Binlog.SetProducerStatus | src/pika_binlog.cc:354-394 | the log restarts with padding up to the offset, and is consistent exactly when the offset is not 4 to 7 |
| BinlogWriter.Binlog.Truncate | src/pika_binlog.cc:396-425 | at the producer position after k items, exactly those items remain |
| BinlogWriter.Binlog.TruncateTo | src/pika_stable_log.cc:216-241 | later files are removed as well, and the first k items remain |
| BinlogReader.Reader.constructor | src/pika_binlog_reader.cc:22-32 | a new reader has no log and starts at zero |
| BinlogReader.Reader.ReadToTheEnd | src/pika_binlog_reader.cc:46-52 | true exactly at the producer position |
| BinlogReader.Reader.ReadPhysicalRecord | src/pika_binlog_reader.cc:150-192 | skips a block rest, reads one record, and moves the offsets only by what it read |
| BinlogReader.NextRead | src/pika_binlog_reader.cc:150-192 | where the rest of an item waits, a read yields its next bytes, the right type, and leaves the remainder waiting |
| BinlogReader.Reader.Consume | src/pika_binlog_reader.cc:194-234 | puts together exactly the waiting item and stops at its end |
| BinlogReader.Reader.Get | src/pika_binlog_reader.cc:239-279 | returns the next item and the producer position after it, rolling to the next file, or the end of the log; before a bad record it reports success with nothing |
| BinlogReader.Reader.GetNext | src/pika_binlog_reader.cc:100-148 | skips to the end of an item and never past a position records lead to |
| BinlogReader.Reader.Seek | src/pika_binlog_reader.cc:54-98 | lands exactly on any position the producer ever had, ready to read what was put after it |
| BinlogReader.Reader.ReadAll | src/pika_consensus.cc:329-360 | reading to the end yields exactly the remaining items and positions |
| FileStart.PaddingReads | src/pika_binlog_reader.cc:150-192 | the first record of a padded file is a bad one |
| FileStart.FirstItem | src/pika_consensus.cc:684-705 | reading from the start of a file gives the item that starts there, and nothing that decodes where there is padding, no entry or no file |
| BinlogRoundTrip.PutAll | src/pika_binlog.cc:197-229 | items enter the history in order, each ending at the producer position after its put |
| BinlogRoundTrip.ReadFrom | src/pika_binlog_reader.cc:54-98 | seeking to any producer position and reading on gives exactly what was put after it |
| BinlogRoundTrip.RoundTrip | src/pika_binlog_reader.cc:239-279 | for every sequence of non-empty items, what is read is what was put, in order, each at the offset held right after its put |
| BinlogLockstep.PutPositionInjective | src/pika_binlog.cc:197-229 | two puts from one position reach the same position exactly when the items have equal length |
| BinlogLockstep.PaddingExact | src/pika_binlog.cc:354-394 | padding reproduces an offset exactly when it is 0 or at least a header modulo the block size |
| BinlogLockstep.ReachableIsReproducible | src/pika_binlog.cc:264-306 | every offset a producer reaches is one that padding reproduces |
| BinlogLockstep.Lockstep | src/pika_binlog.cc:197-229 | logs from the same position with items of equal lengths stay at equal positions for ever |
| BinlogLockstep.RestartAt | src/pika_binlog.cc:354-394 | a log restarted at any position another one had is consistent and at exactly that position |
| BinlogLockstep.RestartAndFollow | src/pika_binlog.cc:197-229 | two logs, one restarted at any position of the other, that put items of equal lengths end in the same file, at the same offset and place in the block |
| ItemCodec.DecodeEncode | src/pika_binlog_transverter.cc:81-126 | an item decodes to itself exactly when its content length fits 32 bits, and to nothing otherwise |
| ItemCodec.EncodeDecode | src/pika_binlog_transverter.cc:81-126 | whatever decodes is the encoding of what it decodes to |
| ItemCodec.Decode | src/pika_binlog_transverter.cc:102-126 | fields are taken off the front; another type or another length is refused |
| ItemCodec.LowestFirst | src/pika_binlog_transverter.cc:81-100 | numbers are stored with the lowest byte first |
| ReplicatedLog.OffsetUnique | include/pika_define.h:108-206 | log offsets order entries as the log does, and a physical offset names one place |
| ReplicatedLog.ProposeKeepsPlaces | src/pika_consensus.cc:387-418 | a proposed entry has the leader's term, the next index and the content given, and the position its length leads to |
| FollowerNode.FollowerPartition.constructor | src/pika_rm.cc:571-578 | a new follower partition has the given state |
| FollowerNode.FollowerPartition.ProcessLeaderLog | src/pika_consensus.cc:436-454 | appends an entry unless its index is below the last one |
| FollowerNode.FollowerPartition.ProcessLocalUpdate | src/pika_consensus.cc:456-477 | the commit index becomes the greater, by position, of what it was and the smaller of the leader's and the own last offset |
| FollowerNode.FollowerPartition.HandleWriteBinlog | src/pika_repl_bgworker.cc:56-231 | the handler computes the delivery function: it acknowledges exactly a message of no old term that follows the end of the log and can be worked through, and then commits up to the leader's index |
| FollowerNode.FollowerPartition.AppendRecords | src/pika_repl_bgworker.cc:157-207 | the loop over the records stops at the first of another session or state and at the first that cannot be read |
| FollowerNode.DeliverKeepsPrefix | src/pika_repl_bgworker.cc:140-155 | any delivered segment of the leader's log leaves the follower's log a prefix of it, and the acknowledgement ends where the log ends |
| FollowerNode.DeliverCommits | src/pika_repl_bgworker.cc:224-231 | an acknowledged delivery takes the commit index up to the leader's or to the end of the own log, whichever is earlier; any other leaves it |
| FollowerNode.AppendExactly | src/pika_repl_bgworker.cc:157-211 | records are worked through to the end unless one is of another session or unreadable, and the follower then connects anew |
| FollowerNode.DeliverExactly | src/pika_repl_bgworker.cc:126-231 | for every follower and message, whether it is acknowledged, what becomes of the term, and when the follower connects anew |
| FollowerNode.DeliverProgress | src/pika_repl_bgworker.cc:140-231 | a live segment that starts where the follower's log ends is appended entirely and acknowledged from its first entry to its last |
| FollowerNode.PingAnswered | src/pika_repl_bgworker.cc:92-231 | a live message without records changes no log and is answered with zero offsets |
| FollowerNode.AppendOnlyExtends | src/pika_consensus.cc:436-454 | deliveries never remove an entry |
| FollowerNode.BatchSafeIffFits | src/pika_repl_bgworker.cc:157-207 | records taken in one after the other leave a prefix of the leader's log exactly when each is old or the next one |
| FollowerNode.DeliverSafeIffFits | src/pika_repl_bgworker.cc:129-207 | a message of log entries in any order is safe exactly when it is not taken in or its records fit |
| FollowerNode.FittingIsSafe | src/pika_repl_bgworker.cc:129-207 | a message that fits is safe for every follower; one that does not is unsafe for any follower of its session at the offset it follows |
| FollowerNode.SegmentFits | src/pika_rm.cc:152-198 | consecutive entries fit |
| FollowerNode.GarbledFits | src/pika_repl_bgworker.cc:184-206 | what fits still fits for a follower that cannot read one of the records |
| FollowerNode.MixedBatchRepeats | src/pika_consensus.cc:436-454 | a batch with the next entry twice appends it twice |
| FollowerNode.FirstSegmentUnchecked | src/pika_repl_bgworker.cc:140-155 | a follower with last index zero accepts a segment correctly exactly when it starts at the beginning |
| SyncWindow.Window.constructor | include/pika_slave_node.h:32-35 | a new window is empty |
| SyncWindow.Window.Push | src/pika_slave_node.cc:14-17 | adds an item at the end and its size to the total |
| SyncWindow.Window.Update | src/pika_slave_node.cc:19-51 | accepts a range exactly when both ends are found in order, marks it, and reports the end of the acknowledged front |
| SyncWindow.RangeNamed | src/pika_slave_node.cc:19-51 | a range is accepted exactly when its end is in the window and its start at or before that end, and marks from the last such start to the first such end |
| SyncWindow.TotalStaysExact | src/pika_slave_node.cc:19-51 | the total stays the size of what is unacknowledged exactly when the range held no acknowledged item of positive size |
| SyncWindow.AcknowledgedTwice | src/pika_slave_node.cc:19-51 | a range acknowledged twice behind an open item takes its size off the total twice |
| SyncWindow.AcknowledgedHeld | src/pika_slave_node.cc:19-51 | if every range acknowledged so far ended in a held item, the acknowledged front ends in a held item, whatever lies inside the ranges |
| CommitIndex.CalCommittedIndex | src/pika_consensus.cc:183-198 | the greatest offset that at least `level` followers hold, or zero when there are too few |
| CommitIndex.SortOffsets | src/pika_consensus.cc:195-195 | a sorted permutation of the offsets |
| CommitIndex.KthLargest | src/pika_consensus.cc:195-197 | in sorted order the k-th largest is the greatest offset that k have reached |
| Shipping.SlaveSession.constructor | src/pika_slave_node.cc:60-66 | a new slave node is not active and has sent nothing |
| Shipping.SlaveSession.Activate | src/pika_rm.cc:95-121 | the first or a later activation starts reading at the offset the follower reported and keeps window and queue |
| Shipping.SlaveSession.ReadBinlogFileToWq | src/pika_rm.cc:152-198 | reads consecutive entries into the write queue and the window, each with the offset sent before it, until the log or the window ends, and adds their bytes to the total; nothing without a reader |
| Shipping.SlaveSession.Update | src/pika_slave_node.cc:92-109 | an acknowledgement moves the acknowledged offset to the end of the acknowledged front |
| Shipping.TakeBatch | src/pika_rm.cc:745-775 | takes a front of the queue within the count and byte limits |
| Shipping.ConsumeWriteQueue | src/pika_rm.cc:733-796 | batches joined with what stays in the queue are the old queue: nothing lost, repeated or reordered |
| Shipping.BuildBinlogSyncResp | src/pika_repl_server.cc:92-140 | the message carries all chips in order and the offset before the first that is not a keep-alive |
| Shipping.BatchIsSegment | src/pika_repl_server.cc:92-140 | a batch of a session is a segment of the leader's log with the right preceding offset |
| Shipping.LinedFits | src/pika_repl_server.cc:92-140 | a batch without jumps fits, even if its tasks are of several sessions |
| Cluster.StepKeepsInv | src/pika_consensus.cc:387-525 | every step of leader, followers and network, activations at any time and unreadable records included, keeps the invariant, and logs and commit index only grow, unless a follower takes in a message that does not fit |
| Cluster.ReplicationSafe | src/pika_repl_bgworker.cc:140-222 | in every run in which what is taken in fits, a follower's log is a prefix of the leader's, entry for entry and position for position, and never shrinks |
| Cluster.DeliveryExact | src/pika_repl_bgworker.cc:140-222 | in any state of such a run a delivery keeps the prefix exactly when what is taken in fits |
| Cluster.ReplicationExact | src/pika_repl_bgworker.cc:140-222 | in any run followers hold prefixes in every state exactly when every message taken in fits |
| Cluster.AllSentFit | src/pika_repl_server.cc:92-140 | if all messages sent fit, all that is taken in does |
| Cluster.CalculatedIsReplicated | src/pika_consensus.cc:153-198 | a computed index ends a prefix of the log that at least `level` followers hold |
| Cluster.ReceiveCommits | src/pika_consensus.cc:456-477 | a follower that acknowledges a message and then holds the log up to the leader's commit index has committed up to it |
| Cluster.MembershipMeans | src/pika_consensus.cc:118-151 | joining again renews the session and keeps window and acknowledged offset, leaving forgets the follower for later commit indices |
| Cluster.CommitSafe | src/pika_consensus.cc:479-525 | in every run in which what is taken in fits, the commit index never decreases and is always held by at least `level` followers |
| Cluster.FollowerCommitSafe | src/pika_consensus.cc:456-477 | in every run in which what is taken in fits, a follower commits neither past the leader nor past its own log |
| Cluster.CommitsOwnTerm | src/pika_consensus.cc:491-498 | in every run the commit index moves only to an offset whose term was the leader's when it was checked |
| Progress.CatchesUp | src/pika_rm.cc:95-198 | from any state a follower that is behind can be connected, sent all it misses, and acknowledge it, with nothing else disturbed |
| Progress.LeaderCommits | src/pika_consensus.cc:479-525 | an offset of the leader's term that enough followers have acknowledged becomes its commit index |
| Progress.Learns | src/pika_consensus.cc:456-477 | a ping takes the commit index to a follower that has the log |
| Progress.ProposalCommits | src/pika_consensus.cc:387-525 | from every starting state, and for any followers that are up and enough for the consensus level, some run takes a proposal to all of them and commits it at the leader and at each of them |
| Reactivation.ClearRunFits | src/pika_rm.cc:95-121 | in every run in which no task waits at any activation, every message fits |
| Reactivation.ClearRunSafe | src/pika_rm.cc:95-121 | so in those runs replication and commits are safe however often followers are activated |
| Reactivation.SecondActivationRepeats | src/pika_repl_server_conn.cc:456-464 | from every initial state with a connected follower behind the leader a second activation, with a task waiting, leads to a log that is no prefix |
| Reactivation.UnsafeRunExists | src/pika_repl_server_conn.cc:456-464 | there is a run in which a follower's log is no prefix of the leader's, and it has sent a message that does not fit |
| MemLog.FindPlaced | src/pika_consensus.cc:271-281 | the search with its early exit finds an entry exactly when it is still held |
| MemLog.Log.constructor | src/pika_consensus.cc:202-203 | a new memory log is empty |
| MemLog.Log.AppendLog | include/pika_consensus.h:88-92 | adds the entry and makes its offset the last |
| MemLog.Log.FindLogByBinlogOffset | src/pika_consensus.cc:271-281 | the loop computes the search |
| MemLog.Log.PurgeLogs | src/pika_consensus.cc:210-219 | takes the front up to the entry and loses nothing |
| MemLog.Log.TruncateTo | src/pika_consensus.cc:222-231 | keeps the front up to the entry, which becomes the last |
| MemLog.Log.Reset | src/pika_consensus.cc:233-237 | empties the log and sets its last offset |
| MemLog.Log.FindLogItem | src/pika_consensus.cc:249-269 | finds the entry with an index exactly when there is one |
| MemLog.Context.constructor | src/pika_consensus.cc:21-23 | nothing is applied at first |
| MemLog.Context.PrepareUpdateAppliedIndex | src/pika_consensus.cc:66-69 | the entry joins the window |
| MemLog.Context.UpdateAppliedIndex | src/pika_consensus.cc:71-79 | the applied index moves to the end of the finished front |
| MemLog.Applier.HandOver | src/pika_consensus.cc:576-579 | the loop gives every entry to the workers and to the window, in order |
| MemLog.Applier.ScheduleApplyLog | src/pika_consensus.cc:552-580 | hands over exactly the waiting entries up to the committed one, in order, or none |
| ApplyOrder.HandOverTakes | src/pika_consensus.cc:552-580 | a hand-over takes exactly the entries still waiting; a late one takes none |
| ApplyOrder.StepKeepsInv | src/pika_consensus.cc:387-580 | appends, advances, hand-overs, completions, cut-backs and restarts keep the invariant |
| ApplyOrder.AppliesCommittedPrefix | src/pika_consensus.cc:479-580 | in every run what was handed over is a prefix of the log, never past the commit index, and all of it when nothing is pending |
| ApplyOrder.HandedOnce | src/pika_consensus.cc:552-580 | without a restart nothing is handed over twice or reordered |
| ApplyOrder.AppliedIndexSafe | src/pika_consensus.cc:66-79 | in every run everything up to the applied index has finished |
| ApplyOrder.AdvanceMoves | src/pika_consensus.cc:518-525 | an advance takes the commit index at least to the offset given, and a new one waits for its hand-over |
| ApplyOrder.EverythingApplies | src/pika_consensus.cc:500-580 | wherever a run stands, it can go on until the whole log is committed, handed over and finished, with the applied index at its end |
| ApplyOrder.RestartComplete | src/pika_consensus.cc:303-361 | a restart keeps every entry exactly when there is an applied index or no entry |
| ApplyOrder.RestartLoses | src/pika_consensus.cc:303-361 | with one entry and nothing applied a restart leaves nothing to hand over |
| ApplyOrder.CutBackKeeps | src/pika_consensus.cc:656-682 | cutting back leaves the same entries in both logs, with hand-overs outstanding too, unless it is to the commit index and committed entries still wait |
| ApplyOrder.CutBackComplete | src/pika_consensus.cc:664-668 | cutting back to the commit index keeps committed entries exactly when none waits |
| ApplyOrder.CutBackLoses | src/pika_consensus.cc:664-668 | with one committed entry waiting, cutting back to it drops it from memory |
| IndexSearch.GetBinlogOffset | src/pika_consensus.cc:684-705 | the first entry of a file, or failure exactly where there is none or the file begins with padding |
| IndexSearch.FindBinlogFileNum | src/pika_consensus.cc:746-790 | from any start the search ends, with the one file that can hold the index, or not found exactly below the first index; it fails exactly when it comes to padding in the lowest file; indices need only increase |
| IndexSearch.GetBinlogOffsets | src/pika_consensus.cc:711-744 | exactly the entries from the start of a file up to the end position |
| IndexSearch.FindLogicOffsetBySearchingBinlog | src/pika_consensus.cc:792-833 | the entry with the index, or not found when there is none; failure exactly in an empty log or when the search comes to padding |
| IndexSearch.FindLogicOffset | src/pika_consensus.cc:835-849 | the same whatever entry the quick probe hit; a hit needs no search |
| IndexSearch.FindsUnique | src/pika_consensus.cc:835-849 | the log determines the result of a search that does not fail |
| Negotiation.HintRange | src/pika_consensus.cc:851-873 | hints end with the asked entry and include the one before it if there is one |
| Negotiation.GetLogsBefore | src/pika_consensus.cc:851-873 | the hints before an entry, which Negotiation.HintsReach describes |
| Negotiation.HintsReach | src/pika_consensus.cc:851-873 | hints are consecutive offsets up to the asked entry, at most a hundred, and reach back to the start of the file before unless there are a hundred |
| Negotiation.LeaderNegotiate | src/pika_consensus.cc:875-935 | accepts exactly an index between the first and the last it has that is zero or names an entry with that term and position; asks for a full synchronisation, rejects or fails exactly in the other cases |
| Negotiation.ReplyDecides | src/pika_consensus.cc:875-935 | the same of the answer function, for every last offset of a follower |
| Negotiation.Settle | src/pika_consensus.cc:938-997 | for every hint list the result is a prefix of the old log that keeps everything committed |
| Negotiation.SettleEndsAtHint | src/pika_consensus.cc:938-997 | a follower that asks again ends at a hint's index, with its term, or at the first hint |
| Negotiation.FollowerLog.constructor | src/pika_consensus.cc:285-296 | an empty consistent log |
| Negotiation.FollowerLog.TruncateTo | src/pika_consensus.cc:656-682 | both logs are cut to the entry, or neither, and the commit index stays; below the commit index only what is still in memory can be cut |
| Negotiation.FollowerLog.WalkHints | src/pika_consensus.cc:962-996 | the loop over the hints computes the walk |
| Negotiation.FollowerLog.FollowerNegotiate | src/pika_consensus.cc:938-997 | the log becomes the settled one, the reply is its last offset, and what is committed stays |
| Negotiation.RoundKeepsShared | src/pika_consensus.cc:875-997 | a round never removes an entry the leader has too |
| Negotiation.RoundShortens | src/pika_consensus.cc:875-997 | a rejected round that succeeds shortens the log exactly unless its last index is the leader's first, wherever the memory log starts |
| Negotiation.SingleHintRepeats | src/pika_consensus.cc:875-997 | in that case, with another term and the last entry in memory, the same question is asked for ever |
| Negotiation.Negotiate | src/pika_repl_client_conn.cc:276-298 | the whole exchange ends and keeps a prefix with everything committed |
| Negotiation.NegotiationEnds | src/pika_repl_server_conn.cc:197-229 | whatever is handed over between rounds, agreement means the leader holds the last entry at the same offset and no common entry was given up |
| Negotiation.AgreesOnCommonPrefix | src/pika_consensus.cc:875-997 | with matching logs the follower is left with exactly the longest common prefix |
| Negotiation.SettleOutside | src/pika_consensus.cc:938-955 | a follower behind all hints asks again unchanged; without hints, or with hints that end before its commit index, it gives up |
| Negotiation.PrefixAgrees | src/pika_consensus.cc:875-935 | a follower with a prefix of the leader's log agrees in round one exactly when the leader's first index is not past its last and it has an entry or starts at zero |
| Negotiation.NegotiationSucceeds | src/pika_consensus.cc:875-997 | the negotiation ends in agreement whenever the leader still holds what the follower has committed, whatever else the logs hold |
| Negotiation.NegotiationConverges | src/pika_consensus.cc:875-997 | it then leaves the follower exactly the longest common prefix of matching logs |
| ParallelApply.HashIndex | src/pika_repl_client.cc:88-91 | binlog work goes to the lower half of the workers, database work to the upper |
| ParallelApply.ClientProcessor.ScheduleBgThreads | src/pika_client_processor.cc:54-58 | a command joins the queue of the worker that the hash of the given string picks |
| ParallelApply.ReplClient.ScheduleWriteBinlogTask | src/pika_repl_client.cc:69-76 | binlog work joins the queue of the worker its partition picks |
| ParallelApply.ReplClient.ScheduleWriteDBTask | src/pika_repl_client.cc:78-93 | a command joins the queue in the lower half that the hash of its second argument picks |
| ParallelApply.ParallelIsSequential | src/pika_consensus.cc:622-636 | for every interleaving of scheduling and workers, empty queues mean the database of running all scheduled commands in order |
| ParallelApply.ExecMeans | src/pika_repl_bgworker.cc:280-295 | running in order means that the last command sets its second argument from what the ones before left there, and nothing else |
| ParallelApply.WorkersFinish | src/pika_repl_client.cc:69-93 | wherever a run stands, the workers alone can finish it with that database |
| ParallelApply.HalvesApart | src/pika_repl_client.cc:69-91 | in every run no worker has both binlog and database work |
| Resp.AppendAll | src/pika_command.cc:593-606 | the content is the argument count and every argument with its length |
| Resp.ArgsConcat | src/pika_command.cc:593-606 | arguments are written one after the other |
| Resp.OneArgument | src/pika_command.cc:593-606 | the text written for a command of one argument |
| Resp.ParseContent | include/pika_command.h:579-590 | the content reads back as the arguments, whatever characters they hold |
| Resp.PaddingBack | src/pika_binlog_transverter.cc:139-182 | padding content has the size asked for and reads back as the padding command |
| Rewrite.ParseSetOptions | src/pika_kv.cc:22-67 | refuses exactly a list with an unknown option, a missing argument or a time that is no positive number; the last NX, XX or VX is the condition, EX or PX only without one; the last time counts, PX in whole seconds |
| Rewrite.RefusedExactly | src/pika_kv.cc:27-67 | the option function refuses exactly where something malformed follows some options |
| Rewrite.AcceptedExactly | src/pika_kv.cc:27-67 | it accepts exactly lists of options, and means what they say |
| Rewrite.CaseIgnored | src/pika_kv.cc:29-45 | names and options are equal exactly when they differ at most in the case of letters |
| Rewrite.SetTimeLogged | src/pika_kv.cc:105-144 | SET with times only is logged with the absolute time of the last one, milliseconds as whole seconds |
| Rewrite.SetOtherLogged | src/pika_kv.cc:105-144 | SET with a condition, or without options, is logged as given |
| Rewrite.SetexLogged | src/pika_kv.cc:545-665 | SETEX and PSETEX are logged with the absolute time and the value behind it |
| Rewrite.ExpireLogged | src/pika_kv.cc:875-1062 | EXPIRE, PEXPIRE and PEXPIREAT are logged with the absolute time in seconds |
| Rewrite.PxLogged | src/pika_kv.cc:57-59 | SET k v PX 10000 at 100 logs pksetexat k 110 v |
| Rewrite.ContentBack | src/pika_kv.cc:105-144 | what is logged for a command reads back as the logged arguments |
| Rewrite.ReplayParses | src/pika_kv.cc:513-665 | logged arguments are accepted on replay except for the largest 32-bit time |
| Rewrite.ReplaySameWrite | src/pika_kv.cc:105-144 | replay writes the same value to the same key, or lets the same key expire |
| Rewrite.RewriteFixedPoint | src/pika_kv.cc:899-1062 | replaying logged content at any time logs the same content again |
| Rewrite.InitialShaped | src/pika_kv.cc:22-67 | a command that is accepted has the arguments its rewriting uses |
| Rewrite.LargestTimeRefused | src/pika_kv.cc:1353-1359 | SET k v EX 10 at 2147483637 logs what is refused on replay |
| Rewrite.ReplayExpiry | src/pika_kv.cc:105-144 | replay at any time sets the original expiry exactly when the time fits and no relative time stands beside NX, XX or VX |
| Rewrite.NxExpiryMoves | src/pika_kv.cc:105-144 | SET k v NX EX 10 logged at 100 expires at 1010 when replayed at 1000 |
| SplitMerge.MultiCommand.constructor | src/pika_kv.cc:380-389 | a new command has an empty place for every key |
| SplitMerge.MultiCommand.SplitKeys | src/pika_command.cc:516-541 | every key goes to its partition with its place, in order, or a missing partition is reported |
| SplitMerge.MultiCommand.SplitMget | src/pika_kv.cc:410-425 | values go to the places of their keys and nowhere else |
| SplitMerge.MultiCommand.PairsFor | src/pika_kv.cc:712-728 | exactly the pairs of the partition, in order; the key check never fails |
| SplitMerge.MultiCommand.Split | src/pika_kv.cc:188-197 | one partition's part changes only its own store and adds its count |
| SplitMerge.MultiCommand.ProcessMultiPartitionCmd | src/pika_command.cc:501-549 | for every order of partitions the reply and the stores are those of the command on one store: for MSET the last pair of a key in its shard, for DEL and EXISTS the keys and places counted, for MGET every value in its place |
| SplitMerge.DelSplits | src/pika_kv.cc:188-202 | deletion counts of the parts add up, with duplicates counted once |
| SplitMerge.CountSplits | src/pika_kv.cc:860-873 | existence counts of the parts add up |
| SplitMerge.SetSplits | src/pika_kv.cc:712-737 | in the shard of a key the last pair that names it wins, and a key not named keeps its value |
| SplitMerge.UnsplitMeans | src/pika_kv.cc:178-186 | what each command does on one store, key by key and place by place |
| SplitMerge.LastPairWins | src/pika_kv.cc:697-710 | a key set several times holds the value of its last pair |
| SplitMerge.CountIsPlaces | src/pika_kv.cc:849-858 | EXISTS counts the places whose key exists |
| SplitMerge.DelIsKeys | src/pika_kv.cc:178-186 | DEL counts the different keys that existed |
| ReplyBatch.ClientConn.TryWriteResp | src/pika_client_conn.cc:315-328 | only the caller that finds the counter at zero writes, all replies, once, one after the other as ReplyBatch.ReplyAt says |
| ReplyBatch.ReplyAt | src/pika_client_conn.cc:315-328 | in the output every reply starts where the ones before it end |
| ReplyBatch.TryKeeps | src/pika_client_conn.cc:277-280 | whoever finds the counter at zero finds every reply in its place |
| ReplyBatch.OneWrite | src/pika_client_conn.cc:252-328 | in every run in which no command is answered twice, the write holds all replies in order; when every thread is done it has happened exactly if no background execution ended early |
| ReplyBatch.WrittenEarly | src/pika_command.cc:540-546 | in every pipeline of two commands or more, one handed to two partitions may have the replies written before the last command is answered |
| ReplyBatch.NeverWritten | src/pika_client_conn.cc:284-288 | in every pipeline a command handed to two partitions may take the counter past zero unseen, and nothing is written |
| ReplyBatch.LateFailure | src/pika_client_conn.cc:348-351 | a command that fails after it was handed over is counted at once and again, and the replies go out early |
| ReplyBatch.LostNeverWritten | src/pika_client_conn.cc:271-276 | every pipeline whose last background execution ends early may stay without an answer |
| ReplyBatch.CounterExact | src/pika_client_conn.cc:284-351 | in every run the counter is the number of commands less the answers counted, and there is at most one write |
| Crc32.ChunkStep | src/pika_data_distribution.cc:44-51 | dividing several bits at a time is dividing them one by one |
| Crc32.CrcConcat | src/pika_data_distribution.cc:44-51 | the CRC of a concatenation continues the CRC of its first part |
| Crc32.Distribution.constructor | src/pika_data_distribution.cc:22-35 | every table entry is its index divided by the polynomial |
| Crc32.Distribution.Update | src/pika_data_distribution.cc:44-51 | the table-driven loop computes the bit-at-a-time CRC of section 8 of RFC 1952 |
| Crc32.Distribution.Distribute | src/pika_data_distribution.cc:37-42 | the partition is the CRC of the tag, or of the whole key without one, modulo the number of partitions |
| Crc32.Partition | src/pika_data_distribution.cc:18-42 | the same with the IEEE polynomial of the program |
| Crc32.TagDecides | src/pika_data_distribution.cc:53-64 | a key with a tag in braces is hashed by the tag alone |
| Crc32.HashedPart | src/pika_data_distribution.cc:53-64 | every key is hashed by what stands between its first opening brace and the next closing one, and whole if there is no such part |
| Crc32.Untagged | src/pika_data_distribution.cc:55-60 | a key without an opening brace, or whose first one is not closed, is hashed whole |
| Crc32.InvertedRegister | src/pika_data_distribution.cc:44-51 | an empty update changes nothing, and four bytes of ones give a CRC of all ones |
| Crc32.IeeePowers | include/pika_data_distribution.h:12-12 | the constant holds the powers of the CRC-32 polynomial |
| Interleave64.LatitudeBack | src/pika_geohash.cc:52-110 | the first number comes back in the low half |
| Interleave64.LongitudeBack | src/pika_geohash.cc:52-110 | the second number comes back in the high half |
| Interleave64.HashFromLanes | src/pika_geohash.cc:52-110 | every word is the interleaving of its own lanes |
| GeohashWord.InterleaveIsLanes | src/pika_geohash.cc:52-77 | the masks and shifts put the bits of the two numbers side by side |
| GeohashWord.EncodeInterleaves | src/pika_geohash.cc:121-152 | the cell of a point is the interleaving of the 32-bit words of its two fixed-point numbers |
| Geohash.AddValue | src/pika_geohash.cc:233-234 | word addition is addition modulo the word size |
| Geohash.SubValue | src/pika_geohash.cc:235-238 | word subtraction is subtraction modulo the word size |
| Geohash.IncValue | src/pika_geohash.cc:233-234 | a lane counts up modulo two to its length |
| Geohash.DecValue | src/pika_geohash.cc:235-238 | a lane counts down modulo two to its length |
| Geohash.MoveXSteps | src/pika_geohash.cc:224-242 | a move in x adds one to the longitude lane or takes one off, and leaves the latitude |
| Geohash.MoveYSteps | src/pika_geohash.cc:244-261 | a move in y adds one to the latitude lane or takes one off, and leaves the longitude |
| Geohash.MovesCancel | src/pika_geohash.cc:224-261 | opposite moves cancel |
| Geohash.MovesCommute | src/pika_geohash.cc:224-261 | moves in x and y commute |
| Geohash.GeoHashBits.constructor | include/pika_geohash.h:66-69 | a hash has its bits and step |
| Geohash.GeoHashBits.MoveX | src/pika_geohash.cc:224-242 | the statements compute the move in x |
| Geohash.GeoHashBits.MoveY | src/pika_geohash.cc:244-261 | the statements compute the move in y |
| Geohash.GeoHashBits.Neighbor | src/pika_geohash.cc:263-295 | a neighbour is one step away in each lane, modulo the number of cells |
| GeohashScan.CoarseCell | src/pika_geohash.cc:121-152 | the cell at a coarser step is the finer one with its low bits dropped |
| GeohashScan.ScanFindsCell | src/pika_geo.cc:286-302 | a member is in the range scanned for a cell exactly when its point lies in the cell or in the lowest fine cell of the next one |
| GeohashScan.NoneMissed | src/pika_geo.cc:286-302 | scanning a cell finds every member in it |
| GeohashScan.CornerListedTwice | src/pika_geo.cc:286-302 | the member at longitude 0 on the lower edge is found for two cells at step 1 |
| GeohashScan.DecodeEncloses | src/pika_geohash.cc:164-194 | the decoded box of a point's cell contains the point exactly when both fixed-point numbers have a successor in 32 bits |
| GeohashScan.LastCellWraps | src/pika_geohash.cc:164-194 | at step 32 the box decoded for the upper corner of the map does not contain it |
| GeohashScan.BelowLastStep | src/pika_geohash.cc:143-150 | below the last step every fixed-point number has a successor |

## Left out

- Storage engine: stores are maps from keys to values; errors it reports are not modelled.
- Network, protobuf, threads and locks: messages are datatypes, critical sections are steps; connection handling is not modelled.
- The file system: files are byte sequences; a failed write, memory mapping and syncing are not modelled.
- Empty items in the binlog: the reader takes a record of length zero for the end, so the reading properties are stated for non-empty items.
- Cluster.StepKeepsInv: followers start with a non-zero last index, because of FollowerNode.FirstSegmentUnchecked; full database synchronisation of a follower is not a step.
- Cluster.ReplicationSafe: follower restarts, cut-backs and changes of leader are not steps of this machine; they are covered one by one in ApplyOrder and Negotiation.
- FollowerNode.FollowerPartition.HandleWriteBinlog: messages without consensus fields, as sent at consensus level 0, are not modelled.
- BinlogWriter.Binlog.Reopen: the manifest is taken to hold a position the producer had; a manifest that lags behind the files after a crash is not modelled beyond that.
- IndexSearch.FindLogicOffset: the quick probe is taken to give an error or some entry of the log; reading from the middle of an item is not modelled.
- Negotiation.LeaderNegotiate: the lowest file of either log is taken not to begin with padding.
- ItemCodec.Decode: an item shorter than its header decodes to nothing, where the program reads past the end of the buffer.
- ParallelApply.ParallelIsSequential: commands are taken to touch only their dispatch key.
- Resp.ParseContent: the request parser is not part of this model; lengths are read as decimal numbers that may have leading zeros.
- Rewrite.ReplayExpiry: says what expiry a command asks for, not how the storage engine stores it; names are compared without regard to case but not cut at a zero character.
- GeohashScan.ScanFindsCell: coordinates are exact reals; rounding of doubles, distances and the choice of the step are not modelled.
- GeohashScan.DecodeEncloses: a fixed-point number of 33 bits is cut to 32, where C++ leaves the conversion undefined.
- Level 0 replication without consensus, full database synchronisation, slot migration, the proxy, pub/sub, authentication, INFO and CONFIG: text, wiring or unfinished paths with only easy claims.
