# gookv in Dafny

A Dafny 4.11 model of the core of gookv, a distributed transactional key-value store, with proofs of what its protocols
and data structures promise. `dafny verify dfyconfig.toml` checks everything.

The modules follow the program:

- **Transactions.** `Percolator` is the commit protocol as a step system: one transaction handle with its two-phase
  committer, any number of lock resolvers, storage nodes, and messages that may be delayed, repeated or lost.
  `PercolatorSafety` proves atomicity and outcome soundness over all runs of a careful caller in which no prewrite
  reaches a rolled-back primary; `PercolatorAssumptions` that every run is atomic exactly under seven conditions. Six
  of them are on options, callers and status replies (`Config.Careful`). The seventh, that a rollback record refuses a
  later prewrite, is not met by the code; where it is met every run is of the kind above (`CheckedRunIsSafe`), and for
  the code as written `CodeAtomicWithoutLatePrewrite` and `LatePrewriteIsTheOnlyBreak` say what a late prewrite costs.
  `PercolatorProgress` is what the steps achieve: what each request does to each key, that decisions which are
  executed complete a commit or a rollback, that every transaction can commit, and exactly when every run can still be
  resolved. `Committer` is the committer in its imperative form, each call a path of protocol steps that
  `NilInARunMeansCommitted` places in the runs of the whole system; `StorageNode` the all-or-nothing batches of the
  server.
- **Raft log.** `RaftLog` and `PeerStorage` represent one abstract log by engine, cache and indices; `Recovery` and
  `StorageRuns` say exactly when a restart restores it, and that term and vote always come back; `LogWriter` refines
  inline saving by a batching writer; `LogGc` shows that garbage collection loses nothing; `RaftKeys` carries this
  down to the bytes of the keys.
- **Apply and reads.** `ApplyPipeline` refines inline application by a worker pool, `Proposals` says which proposals
  reach the state machine, from the bytes they are proposed as; `ReadIndex` is the safety of linearizable reads on the
  inline path, `AsyncReads` when exactly they are safe with the worker pool.
- **Snapshots.** `SnapshotCodec` and `SnapshotTransfer`.
- **Client.** `RegionCache`, `TxnScan`, `TxnMerge`, `ScanHazard` and `ScanLimit`.
- **Placement driver.** `Tso`, `Balance`, `MoveTracker`, and `MoveHistory` on when a move completes. Balancing comes
  to rest although a region move hands the region's leadership on, which can raise the leader counts' sum of squares.
- **Encodings.** `MemComparable`, `MvccKey`, `LockCodec`, `WriteCodec`, on `Bytes`, `Parsing` and `Varint`;
  `KnownBytes` writes the formats out with their tags and widths.
- `KvEngine` is the storage engine as a contract: an ordered map with atomic batches, range deletion and ordered
  scans.

What is outside the program enters as parameters: network outcomes, clock readings, commit failures of the engine, PD's
answers, the checksum function.

Some promises hold only under a condition. The code is modelled as it is, a failing input is given, and the exact
condition is proved:

- Prewrite (internal/storage/txn/actions.go:65-138) does not look at rollback records, although the comment at line
  318 relies on it. A late prewrite of the primary revives a rolled-back transaction; without one every run is atomic.
  `Try1PC` over several regions, a zero lock TTL, `KvCleanup`, a KeyError in a status reply, a reused handle and a
  Rollback called while Commit runs each break atomicity too.
- The same late prewrite on a secondary that is already rolled back leaves a lock that no rollback and no resolver
  ever removes, since the rollback record makes them do nothing. Every run can be resolved exactly where rollback
  records refuse prewrites.
- A restart brings back a suffix that a shorter batch had overwritten, and it does not restore a log whose recent
  entries have a hole, which a dropped collection followed by an executed one leaves. `CompactTo` can hide the last
  index.
- With the worker pool the applied index passes entries that are not applied yet, and a read served on it is stale,
  exactly when a batch without data arrives while a task with new data is out or queued. On the inline path a snapshot
  that fails to load is only logged, and reads above it miss its data. A replay after a restart can move the applied
  index back exactly when it has more than one entry.
- An entry is told apart from a compaction or a split by its first byte, which for a write is the first byte of its
  proposal ID. A write is lost exactly when that ID lies from 2^56 up to 3 * 2^56.
- The checksum of a snapshot covers every byte of its pairs, but not where a key ends and its value starts.
- A snapshot of a region without end key does not clear the region, so stale keys of the receiver can survive.
- `UnmarshalSnapshotData` slices out of range when the file count itself is cut off.
- Replacing a cached region by a range that does not fit its slot breaks the region cache.
- The scan applies its limit before the buffer's deletes, so it can miss pairs; which buffers, ranges and limits are
  safe for every snapshot is decided in `ScanHazard`. What is left of the limit is sent in 32 bits, so that the scan
  is right for every layout and snapshot exactly up to a limit of 2^32 (`ScanLimit`).
- A block of timestamps packs in order for every state and clock exactly when fewer than 2^18 are asked for. A new PD
  leader is safe exactly when its allocator is not behind the old leader's.

## Model

| member | source | states |
|---|---|---|
| `PercolatorSafety.RunKeepsInv` | pkg/client/committer.go:68-127 | every state of every run of client, resolvers and storage nodes, with requests delayed, repeated or lost, satisfies the protocol invariant, unless a prewrite reached a rolled-back primary |
| `PercolatorSafety.CheckedRunIsSafe` | internal/storage/txn/actions.go:318-330 | where rollback records refuse prewrites, as the comment relies on, no run lets a prewrite reach a rolled-back primary |
| `PercolatorSafety.ClientStepKeepsInv` | pkg/client/committer.go:68-127 | every step of the handle and its committer keeps the invariant |
| `PercolatorSafety.DeliveryKeepsInv` | internal/server/storage.go:249-271 | executing any request ever sent, at any later time, keeps the invariant |
| `PercolatorSafety.ResolverStepKeepsInv` | pkg/client/lock_resolver.go:52-104 | a lock resolver acting on a status reply it once received keeps the invariant |
| `PercolatorSafety.PrewriteAdvances` | internal/storage/txn/actions.go:65-138 | executing a prewrite only adds locks, at worst on a rolled-back secondary, which then can never commit: no committed key and no rolled-back primary changes and its replies are true |
| `PercolatorSafety.CommitAdvances` | internal/storage/txn/actions.go:142-182 | executing a commit gives keys the primary's own commit timestamp and changes no key that is committed or rolled back |
| `PercolatorSafety.RollbackAdvances` | internal/storage/txn/actions.go:185-222 | executing a rollback changes no committed key, and rolls a key back only where the primary can never commit |
| `PercolatorSafety.ResolveAdvances` | internal/storage/txn/actions.go:354-369 | executing a resolver's decision commits at the primary's timestamp or rolls back only where the primary can never commit; what it does to the key is `PercolatorProgress.ResolveSettles` |
| `PercolatorSafety.StatusCheckAdvances` | internal/storage/txn/actions.go:263-330 | a status check reports a commit only if there is one, and no status only once no commit can follow |
| `PercolatorSafety.OutcomeIsForever` | internal/storage/txn/actions.go:142-182 | once the primary is committed at a timestamp, or can never commit, this stays so in every later state of a run |
| `PercolatorSafety.AtomicInEveryState` | pkg/client/committer.go:68-127 | in every state of every run, a committed key implies the primary committed at the same timestamp, and no key is rolled back beside a committed primary |
| `PercolatorSafety.RollbackExcludesCommit` | pkg/client/lock_resolver.go:88-103 | if any key is rolled back anywhere in a run, the primary is committed nowhere in it, before or after |
| `PercolatorSafety.SuccessMeansCommitted` | pkg/client/committer.go:85-121 | Commit has returned nil only where the primary is committed at the timestamp sent to the secondaries |
| `PercolatorSafety.RollbackOnlyWhenHopeless` | pkg/client/txn.go:393-409 | a rollback of the committer or of TxnHandle.Rollback exists only where no past or in-flight primary commit can ever succeed |
| `PercolatorAssumptions.AtomicExactlyWhenSound` | internal/storage/txn/actions.go:263-330 | all runs are atomic if and only if seven conditions on configuration, callers and prewrite hold; each of them is needed |
| `PercolatorAssumptions.LatePrewriteBreaks` | internal/storage/txn/actions.go:65-138 | a run in which a prewrite repeated after the rollback revives the transaction: Prewrite does not look at rollback records |
| `PercolatorAssumptions.Try1PCBreaks` | pkg/client/committer.go:85-121 | a run with Try1PC over keys of two regions, prewritten by separate requests, that commits a secondary under an uncommitted primary |
| `PercolatorAssumptions.CleanupBreaks` | internal/server/storage.go:470-537 | a run in which KvCleanup rolls back a secondary whose primary then commits |
| `PercolatorAssumptions.ZeroTTLBreaks` | pkg/client/committer.go:248-275 | a run in which the committer's own status check takes a live lock with zero TTL for a rolled-back transaction and rolls back under a commit in flight |
| `PercolatorAssumptions.StatusKeyErrorBreaks` | pkg/client/committer.go:248-275 | a run in which a KeyError in the status reply leads to a rollback under a commit in flight |
| `PercolatorAssumptions.HandleReuseBreaks` | pkg/client/txn.go:353-386 | a run in which a second Commit on the same handle races with the rollback of the first |
| `PercolatorAssumptions.OverlappingCallsBreak` | pkg/client/txn.go:353-409 | a run in which a Rollback called while Commit runs passes its flag checks and rolls a secondary back under the primary's commit |
| `PercolatorAssumptions.CodeAtomicWithoutLatePrewrite` | internal/storage/txn/actions.go:65-138 | for Prewrite as written, every run in which no prewrite reaches a rolled-back primary is atomic, a nil of Commit means committed and a rollback sent means the primary is not, late prewrites of secondaries included |
| `PercolatorAssumptions.LatePrewriteIsTheOnlyBreak` | internal/storage/txn/actions.go:65-138 | for Prewrite as written some run is torn, and every torn run of that transaction has a prewrite reach a rolled-back primary |
| `PercolatorProgress.PrewriteLocks` | internal/storage/txn/actions.go:65-138 | an accepted prewrite locks every key it names, changes no other and is acknowledged |
| `PercolatorProgress.RepeatChangesNothing` | internal/storage/txn/actions.go:65-138 | a request that is executed twice in a row leaves all keys as after the first time; a commit is refused the second time |
| `PercolatorProgress.CommitSettles` | internal/storage/txn/actions.go:142-182 | an accepted commit finds every key locked, and leaves it unlocked with that commit record, and no other changed |
| `PercolatorProgress.RollbackSettles` | internal/storage/txn/actions.go:185-222 | a rollback leaves a rollback record on every key it names; the lock is gone exactly where there was no record before |
| `PercolatorProgress.ResolveSettles` | internal/storage/txn/actions.go:354-369 | a resolver's decision touches its key only. A locked key is committed at a positive timestamp and unlocked; for timestamp zero it is rolled back and unlocked, unless it had a record already, which leaves its lock |
| `PercolatorProgress.CleanupSettles` | internal/server/storage.go:470-537 | KvCleanup of a locked key commits it where the primary is committed and rolls it back otherwise |
| `PercolatorProgress.ExpiresExactly` | internal/storage/txn/actions.go:263-330 | a lock is expired for a caller exactly when the physical part of the caller's timestamp is the TTL or more above that of the lock |
| `PercolatorProgress.ResolverCheckSettles` | internal/storage/txn/actions.go:263-330 | a resolver's check leaves a live lock alone and reports its TTL, rolls back an expired one, reports a commit, and leaves a rollback record where it finds nothing |
| `PercolatorProgress.CommitterCheckSettles` | pkg/client/committer.go:248-275 | with a positive TTL the committer's own check changes nothing and reports the primary as it is |
| `PercolatorProgress.CheckDecides` | pkg/client/committer.go:248-275 | the committer then goes on to the secondaries, leaves the status open or rolls back, as the primary was at the check |
| `PercolatorProgress.RunKeepsAcked` | pkg/client/committer.go:68-127 | in every state of every run a commit of the primary has been sent only if the prewrite of every key was acknowledged |
| `PercolatorProgress.CommitIsForever` | internal/storage/txn/actions.go:142-182 | in every run a key once committed stays exactly as it is |
| `PercolatorProgress.DecidedIsCommitted` | internal/storage/txn/actions.go:354-369 | once the primary is committed, any commit request or resolver's decision that is executed for a key leaves it committed at the primary's timestamp in every later state |
| `PercolatorProgress.CommitCompletes` | pkg/client/lock_resolver.go:52-104 | over all runs: once the primary is committed and each key still locked has had a decision executed, every key is committed at the primary's timestamp, without lock or rollback record |
| `PercolatorProgress.RollbackCompletes` | internal/storage/txn/actions.go:185-222 | where rollback records refuse prewrites, a key whose rollback was executed is rolled back and unlocked in every later state |
| `PercolatorProgress.AnyRunCanBeResolved` | pkg/client/lock_resolver.go:52-104 | where they do, from every state of every run resolvers can settle all keys as the primary |
| `PercolatorProgress.LatePrewriteSticks` | internal/storage/txn/actions.go:65-138 | for Prewrite as written, a run in which the repeated prewrite of a rolled-back secondary leaves its lock |
| `PercolatorProgress.StuckForever` | internal/storage/txn/actions.go:185-222 | such a lock stays in every continuation without KvCleanup that leaves the rolled-back primary alone |
| `PercolatorProgress.AlwaysResolvableExactly` | internal/storage/txn/actions.go:318-330 | every run that spares a rolled-back primary can be resolved if and only if rollback records refuse prewrites |
| `PercolatorProgress.EveryTransactionCanCommit` | pkg/client/committer.go:68-127 | for every transaction and every later timestamp there is a run in which Commit returns nil and every key is committed at it |
| `Committer.TwoPhaseCommitter.Prewrite` | pkg/client/committer.go:130-168 | the prewrite requests name the primary group first and the others only after it, up to a failing group, and nothing else is sent; success exactly when every group succeeds; all requests are protocol steps |
| `Committer.TwoPhaseCommitter.PrewriteGroup` | pkg/client/committer.go:170-230 | one group is one prewrite request, acknowledged exactly when it succeeds |
| `Committer.TwoPhaseCommitter.Rollback` | pkg/client/committer.go:423-461 | the rollback requests name the keys of the groups sent before a failing group cancels the rest, or nothing if the regions cannot be located |
| `Committer.ReachIs` | pkg/client/committer.go:423-461 | these are keys of the transaction, and all of them if no group fails |
| `Committer.TwoPhaseCommitter.CommitSecondaries` | pkg/client/committer.go:305-373 | the commit requests together name exactly the keys other than the primary |
| `Committer.TwoPhaseCommitter.SettlePrimary` | pkg/client/committer.go:278-302 | the primary commit is sent unless the transaction is in one phase; a failure is settled by a status check and by nothing else, and the decision matches the reply |
| `Committer.TwoPhaseCommitter.CheckPrimaryStatus` | pkg/client/committer.go:248-275 | the decision for each status: commit the secondaries, leave alone, or roll back |
| `Committer.TwoPhaseCommitter.Execute` | pkg/client/committer.go:68-127 | exactly the requests that answers and decision call for are sent; nil exactly when prewrite, timestamp and primary commit succeeded or the primary is found committed; the call is a path of protocol steps |
| `Committer.RequestsMatchResult` | pkg/client/committer.go:68-127 | nil means every key was prewritten, every secondary told to commit and none to roll back; where the status stays unknown nothing was rolled back and no secondary committed |
| `Committer.DecisionIs` | pkg/client/committer.go:85-121 | for all answers of the network: exactly when the call goes on to the secondaries, leaves the status unknown, or rolls back |
| `Committer.TxnHandle.Commit` | pkg/client/txn.go:353-386 | a finished handle refuses; otherwise the call is a path of protocol steps that ends in the state of the result |
| `Committer.ClientFollows` | pkg/client/committer.go:68-127 | in every run of the whole system the client is where its own steps lead it, whatever nodes and resolvers do between them |
| `Committer.NilInARunMeansCommitted` | pkg/client/txn.go:353-386 | where the path of a Commit call is what the client does in a run of the whole system, so that its answers are replies given there, nil means the primary is committed at the client's timestamp |
| `Committer.TxnHandle.Rollback` | pkg/client/txn.go:393-441 | refused while the commit status is unknown; otherwise its requests are protocol steps until one fails |
| `Committer.TxnHandle.BatchRollback` | pkg/client/txn.go:444-472 | one rollback per region group, up to the first that fails |
| `StorageNode.PrewriteModifies` | internal/server/storage.go:200-244 | the modifications of a batch are those of all its keys, or none with the first error |
| `StorageNode.CommitModifies` | internal/server/storage.go:249-271 | all keys are committed together or an error leaves no modification |
| `StorageNode.BatchRollbackModifies` | internal/server/storage.go:381-400 | all keys are rolled back together or an error leaves no modification |
| `MemComparable.EncodedOrder` | pkg/codec/bytes.go:30-52 | for strings of every length and whatever follows, encodings compare exactly like the strings they encode |
| `MemComparable.EncodedPrefixFree` | pkg/codec/bytes.go:30-52 | no encoding is a prefix of another |
| `MemComparable.DecodesExactlyEncodings` | pkg/codec/bytes.go:68-100 | decoding returns a value and rest if and only if the input is the encoding of that value followed by that rest |
| `MemComparable.DecodesDescExactlyEncodings` | pkg/codec/bytes.go:104-137 | the same for the descending form |
| `MemComparable.EncodedDescOrder` | pkg/codec/bytes.go:56-64 | the descending form is an embedding into the reverse order |
| `MemComparable.EncodedLength` | pkg/codec/bytes.go:23-25 | the length the encoder allocates |
| `MemComparable.EncodeBytes` | pkg/codec/bytes.go:30-52 | the buffer is the destination followed by the encoding |
| `MemComparable.EncodeBytesDesc` | pkg/codec/bytes.go:56-64 | only the appended bytes are inverted |
| `MemComparable.DecodeBytes` | pkg/codec/bytes.go:68-100 | the loop decides every input as the specification does |
| `MemComparable.DecodeBytesDesc` | pkg/codec/bytes.go:104-137 | the descending loop decides every input as the specification does |
| `MvccKey.EncodeKeyOrder` | internal/storage/mvcc/key.go:16-19 | MVCC keys sort by user key ascending, then timestamp strictly descending |
| `MvccKey.EncodeKeyDecodes` | internal/storage/mvcc/key.go:22-55 | key and timestamp are recovered; truncation gives the lock key, which decodes with timestamp zero |
| `MvccKey.VersionsAreContiguous` | internal/storage/mvcc/key.go:16-19 | between a key's newest and oldest version lie exactly the versions of that key |
| `MvccKey.Int64Order` | pkg/codec/number.go:47-49 | signed integers keep their order as bytes |
| `MvccKey.Uint64DescOrder` | pkg/codec/number.go:21-25 | descending integers sort in reverse |
| `RaftKeys.EncodeInjective` | pkg/keys/keys.go:74-111 | different local keys have different bytes |
| `RaftKeys.LogIntervalIsExact` | pkg/keys/keys.go:74-81 | the bytes between two log keys of a region are exactly that region's log keys in the index interval, among all local keys |
| `RaftKeys.LogKeyRangeIsExact` | pkg/keys/keys.go:114-118 | the log key range of a region holds exactly its log keys |
| `RaftKeys.LogKeyOrder` | pkg/keys/keys.go:74-81 | log keys of one region are ordered by index |
| `RaftKeys.DeleteKeyRangeIsByteDelete` | internal/raftstore/raftlog_gc.go:73-86 | deleting an index interval by name is the byte-range delete the engine executes |
| `RaftLog.SaveRepresents` | internal/raftstore/storage.go:215-258 | saving a batch that may overwrite any suffix, with any cache trimming, represents the abstract log with the batch appended |
| `RaftLog.OtherRegionKept` | internal/raftstore/storage.go:215-258 | saving for one region leaves every other region's log as it was |
| `RaftLog.ReadyWritesEntries` | internal/raftstore/storage.go:215-258 | a Ready writes its entries under its region's log keys and nothing else there |
| `RaftLog.ReadyWritesHardState` | internal/raftstore/storage.go:215-258 | a hard state that is not empty is written whole under its region's key, an empty one leaves the old, and no other region's is touched |
| `RaftLog.AppendedCacheAgrees` | internal/raftstore/storage.go:506-531 | after appending and trimming, each cached entry is the log's own |
| `RaftLog.NewestAreCached` | internal/raftstore/storage.go:506-531 | exactly the batch and the cached entries below it are cached afterwards, of these the newest 1024 indices unless the cache was empty |
| `PeerStorage.LimitSize` | internal/raftstore/storage.go:557-569 | the longest prefix within the limit, never empty when there is an entry |
| `PeerStorage.Storage.constructor` | internal/raftstore/storage.go:54-65 | a new storage represents the empty log at the initial index |
| `PeerStorage.Storage.FirstIndex` | internal/raftstore/storage.go:170-174 | the log's own first index |
| `PeerStorage.Storage.LastIndex` | internal/raftstore/storage.go:163-167 | the log's own last index |
| `PeerStorage.Storage.Entries` | internal/raftstore/storage.go:84-121 | the size-limited slice of the abstract log, from cache or engine; an error exactly outside its bounds |
| `PeerStorage.Storage.ReadEntriesFromEngine` | internal/raftstore/storage.go:533-553 | reads the log's slice from the engine |
| `PeerStorage.Storage.TermAt` | internal/raftstore/storage.go:124-160 | the abstract log's own term, also at the truncation point, and an error exactly outside |
| `PeerStorage.Storage.SaveReady` | internal/raftstore/storage.go:215-258 | on success the object represents the log with the batch appended, and a hard state that is not empty is in memory and, whole, in the engine; a failed commit leaves log and engine as they were |
| `PeerStorage.Storage.UpdateCache` | internal/raftstore/storage.go:506-531 | the in-place cache update is the specified append and trim |
| `PeerStorage.Storage.CompactTo` | internal/raftstore/storage.go:435-454 | drops exactly the cached entries below the cut; the last index stays the log's own if and only if the cut keeps a cached entry or the persisted index agrees with the last one |
| `Recovery.RestartRestoresLog` | internal/raftstore/storage.go:333-403 | a restart restores the log if and only if the largest surviving index is the log's last and the cached survivors have no hole |
| `Recovery.StaleEntryReturns` | internal/raftstore/storage.go:333-403 | an entry that survives above the last index becomes the last index after a restart |
| `Recovery.OverwrittenSuffixReturns` | internal/raftstore/storage.go:215-258 | after a batch that ends below the last index no restart restores the log |
| `Recovery.RestartAfterPlainAppends` | internal/raftstore/storage.go:333-403 | without overwritten suffix and holes every non-empty log is restored |
| `Recovery.ScanSurvives` | internal/raftstore/storage.go:333-403 | iterating the log key range lists exactly the surviving entries in index order |
| `Recovery.ReadLog` | internal/raftstore/storage.go:333-403 | the recovery loop collects the survivors and their largest index |
| `Recovery.RecoverFromEngine` | internal/raftstore/storage.go:333-403 | the state recovered from the bytes of the engine is the specified one |
| `Recovery.PersistApplyState` | internal/raftstore/storage.go:457-491 | a restart reads back the apply state that was persisted |
| `Recovery.ProgressRoundTrip` | internal/raftstore/storage.go:457-491 | the apply state survives its encoding |
| `StorageRuns.RestartAfterAnyRun` | internal/raftstore/storage.go:333-403 | after any run of writes, compactions, cuts, applies and collections, dropped, delayed or repeated, a restart restores the log if and only if its last index is the largest that survives, with no hole among the newest; if nothing survives, only the initial index fits. The hard state that comes back is the one memory held |
| `StorageRuns.RestartKeepsState` | internal/raftstore/storage.go:333-403 | after any run, whatever survives of the log, a restarted region has the term, vote and commit index saved last and the apply state memory held |
| `StorageRuns.RestartAfterOrderlyRun` | internal/raftstore/storage.go:333-403 | after any run whose collections leave no gap, whatever its batches overwrite, a restart restores the log if and only if the persisted index is its last one, or the log is still at the initial index with no entry left |
| `StorageRuns.OrderlyRunKeepsSpan` | internal/raftstore/storage.go:215-258 | along such runs the surviving indices stay one interval up to the persisted index, which may lie above the log's last |
| `StorageRuns.CollectKeepsSpanExactly` | internal/raftstore/raftlog_gc.go:73-86 | a collection leaves the survivors of a log that is not empty in one interval if and only if it leaves nothing behind below its own interval |
| `StorageRuns.RunKeepsBounded` | internal/raftstore/storage.go:215-258 | along every run nothing survives above the persisted index, and where that lies above the log's last it survives itself |
| `StorageRuns.RunKeepsLogTyped` | internal/raftstore/storage.go:215-258 | along every run each log key holds the entry of its index |
| `StorageRuns.SurvivorsExist` | internal/raftstore/storage.go:333-403 | from such a store a restart always has a list of surviving entries to recover |
| `StorageRuns.TrimIsContiguousExactly` | internal/raftstore/storage.go:333-403 | the recovered cache has no hole if and only if none of the newest 1024 indices is missing above a surviving one |
| `StorageRuns.DroppedCollectionLeavesHole` | internal/raftstore/peer.go:178-207 | a run in which a dropped collection and an executed one leave a hole: the last index is right, there is something to recover, and yet no restart restores the log |
| `StorageRuns.CutHidesLastIndex` | internal/raftstore/storage.go:435-454 | a run after which CompactTo above the last index reports an index that was overwritten |
| `LogWriter.ProcessBatch` | internal/raftstore/raft_log_writer.go:90-128 | every task of a batch gets the same verdict; all operations are written in task order or none |
| `LogWriter.BatchEngineIsInline` | internal/raftstore/raft_log_writer.go:90-128 | one batch leaves the engine as the inline saves in the same order do |
| `LogWriter.BatchMemoryIsInline` | internal/raftstore/storage.go:622-637 | the later memory update gives each region the memory of its inline save |
| `LogWriter.StepRefines` | internal/raftstore/raft_log_writer.go:90-128 | each step of peers and writer refines the inline saves of the tasks it persists |
| `LogWriter.WriterRefinesInline` | internal/raftstore/storage.go:573-617 | for every interleaving, batching and failure of batches, engine and memories are those of inline SaveReady in the order persisted |
| `LogWriter.QuiescentIsInline` | internal/raftstore/storage.go:622-637 | once no peer waits, memories equal the inline ones |
| `LogWriter.WriterCanSettle` | internal/raftstore/raft_log_writer.go:90-128 | from every state of every run the writer can persist what is queued, and only that, and every peer can go on |
| `LogWriter.StepKeepsQueue` | internal/raftstore/raft_log_writer.go:59-61 | queued tasks belong to different regions, each to a peer still waiting for its verdict, and every waiting peer has one |
| `LogGc.CompactLogRoundTrip` | internal/raftstore/raftlog_gc.go:89-106 | a compact-log request survives its encoding, with any bytes after it |
| `LogGc.CollectIsExact` | internal/raftstore/raftlog_gc.go:73-86 | a collection removes exactly its region's log keys in its index interval |
| `LogGc.CollectKeeps` | internal/raftstore/raftlog_gc.go:73-86 | a collection touches no other key |
| `LogGc.StepKeepsInv` | internal/raftstore/peer.go:178-207 | every step, with the apply state that compactions and applies persist, keeps each region represented, truncated at or below applied, and every queued collection harmless |
| `LogGc.StepKeepsStored` | internal/raftstore/peer.go:178-207 | every step leaves the persisted apply state of every region equal to the one in memory |
| `LogGc.RunKeepsStored` | internal/raftstore/storage.go:457-491 | along every run the persisted apply state of every region is the one in memory |
| `LogGc.StepKeepsHardState` | internal/raftstore/storage.go:215-258 | every step keeps the hard state of every region, in memory and engine, at the one saved last |
| `LogGc.RunKeepsHardState` | internal/raftstore/storage.go:215-258 | along every run, collections included, engine and memory hold the last hard state that was not empty |
| `LogGc.CompactsExactly` | internal/raftstore/raftlog_gc.go:15-38 | a request compacts exactly when its index lies above the truncated one and at or below the applied one and its term is not zero; a no-op exactly when it is not above |
| `LogGc.CompactionFrees` | internal/raftstore/peer.go:178-207 | a compaction that is not dropped schedules a collection, and executing it removes exactly the entries from the old truncated index, or from zero, up to the new one |
| `LogGc.CollectionIsSafe` | internal/raftstore/raftlog_gc.go:15-38 | under any interleaving, repetition, delay or loss of collections every region keeps representing its log and truncation only advances, never past applied |
| `LogGc.NoLiveEntryLost` | internal/raftstore/peer.go:1162-1178 | after any run every entry above the truncated index is still in the engine |
| `ApplyPipeline.FilterData` | internal/raftstore/peer.go:909-979 | the filter loop keeps exactly the data entries in order; which proposals these are is `Proposals.DataExactly` |
| `Proposals.DataExactly` | internal/raftstore/peer.go:909-979 | of all proposals exactly the writes with a command are handed over, unless the first byte of their proposal ID is an admin tag; no compaction, split, empty entry or configuration change is |
| `Proposals.CompactionIsRecognized` | internal/raftstore/raftlog_gc.go:89-106 | a proposed compaction is taken for one, for no split, and reads back as proposed |
| `Proposals.SplitIsRecognized` | internal/raftstore/split_admin.go:14-65 | a proposed split is taken for one and for no compaction |
| `Proposals.FilterGivesCommands` | internal/raftstore/peer.go:856-904 | of a log of such proposals the state machine gets exactly the commands proposed, in order |
| `Proposals.DrainedPipelineAppliesCommands` | internal/raftstore/peer.go:981-1037 | the same over every run of the worker pool, once it is drained |
| `Proposals.IDIsSafeExactly` | internal/raftstore/peer.go:613-640 | all writes of a proposal ID are handed over if and only if it lies outside the range from 2^56 up to 3 * 2^56 |
| `Proposals.CollidingWriteIsLost` | internal/raftstore/peer.go:613-640 | the first ID of that range: the write is taken for a compaction and never handed over |
| `ApplyPipeline.PipelineRefinesInline` | internal/raftstore/peer.go:909-979 | from a bootstrap or a restart, at every point of every run at most one task is in flight and what was handed over is a prefix of the inline sequence, each entry once; the index is at most the inline or the restored one |
| `ApplyPipeline.DrainedPipelineIsInline` | internal/raftstore/peer.go:981-1037 | once drained, the handed-over sequence equals the inline one; the applied index does if and only if nothing was replayed, the replay has reached the restored index, or a batch without data came |
| `ApplyPipeline.CanDrain` | internal/raftstore/peer.go:981-1037 | from every state of every run workers and results can drain the pipeline |
| `ApplyPipeline.AppliedIndexGrows` | internal/raftstore/peer.go:981-1037 | from the point where the log has reached the restored index the applied index never decreases |
| `ApplyPipeline.ReplayMovesIndexBack` | internal/raftstore/peer.go:909-979 | before that point, for any restored index further up, a batch without data moves it back |
| `ApplyPipeline.IndexAlwaysGrowsExactly` | internal/raftstore/peer.go:909-979 | the applied index never decreases in any run from a start if and only if at most one entry is replayed |
| `ApplyPipeline.AppliedIndexIsTrueExactly` | internal/raftstore/peer.go:909-979 | a batch without data moves the applied index to the end of the log; all data up to it has been handed over if and only if no task is out and none is queued |
| `ApplyPipeline.AppliedIndexRunsAhead` | internal/raftstore/peer.go:909-979 | a run in which a configuration change moves the applied index past a data entry that is still with the worker |
| `ApplyPipeline.ApplyPeer.SubmitToApplyWorker` | internal/raftstore/peer.go:909-979 | the method takes the specified step |
| `ApplyPipeline.ApplyPeer.ProcessTask` | internal/raftstore/apply_worker.go:112-156 | a worker hands over all entries of one task and reports its index |
| `ApplyPipeline.ApplyPeer.OnApplyResult` | internal/raftstore/peer.go:981-1037 | the method takes the specified step and submits the next queued task |
| `ReadIndex.InlinePeer.HandleReadIndexRequest` | internal/raftstore/peer.go:1211-1229 | a follower fails the read at once, a leader registers it; nothing finished changes |
| `ReadIndex.InlinePeer.CancelRead` | internal/raftstore/peer.go:401-412 | a cancelled read is dropped and can no longer fire |
| `ReadIndex.InlinePeer.UpdateLeadership` | internal/raftstore/peer.go:684-689 | losing leadership fails every pending read once |
| `ReadIndex.InlinePeer.ApplySnapshot` | internal/raftstore/snapshot.go:427-482 | a newer snapshot moves the applied index, a stale one changes nothing, and one that fails to load leaves the index and skips exactly the data up to it |
| `ReadIndex.InlinePeer.ApplyInline` | internal/raftstore/peer.go:856-904 | the data entries are handed over before the applied index moves to the last entry |
| `ReadIndex.InlinePeer.ProcessReadStates` | internal/raftstore/peer.go:788-801 | a read fires with the index raft confirmed, or waits for that index; others are untouched |
| `ReadIndex.InlinePeer.SweepReads` | internal/raftstore/peer.go:802-810 | exactly the reads whose known index is reached fire |
| `ReadIndex.InlinePeer.HandleReady` | internal/raftstore/peer.go:656-832 | over all Readies, from a bootstrap or a restart: the data of the committed entries is handed over once and in order, no callback fires twice, every successful read is at an index raft confirmed for it and is covered by applied entries or a snapshot except for what failed snapshots skipped, a lost leadership fails all, no read is lost, none that could fire is kept |
| `ReadIndex.InlinePeer.ReadIsTrueExactly` | internal/raftstore/peer.go:722-726 | all data up to the index of a read that succeeded has been applied if and only if no snapshot that failed to load skipped any of it |
| `ReadIndex.FailedSnapshotHidesData` | internal/raftstore/peer.go:722-726 | the calls of a Ready whose snapshot fails to load: a read succeeds without the data it must see |
| `AsyncReads.CalmHistoryIsFresh` | internal/raftstore/peer.go:909-1037 | with the worker pool, over all histories of Readies, workers, results and reads in which a batch without data finds no new data out or queued, every read that succeeded was served after all data up to its index had been applied |
| `AsyncReads.ServesFreshExactly` | internal/raftstore/peer.go:922-938 | at any point of such a history a batch without data serves fresh reads only, whatever is pending and confirmed, if and only if no new data is out or queued |
| `AsyncReads.NothingNewOutIs` | internal/raftstore/peer.go:922-938 | where nothing is replayed that is: no task out and none queued |
| `AsyncReads.StaleRead` | internal/raftstore/peer.go:922-938 | a history in which a configuration change lets a read at a committed entry's index succeed before the entry is applied |
| `AsyncReads.ReadsAreKept` | internal/raftstore/peer.go:788-810 | a read that was asked for stays pending until it is served or dropped, and one that was served stays so |
| `AsyncReads.NoneIsOverdue` | internal/raftstore/peer.go:981-1037 | after every event no pending read has a known index that is reached |
| `AsyncReads.ConfirmedIsServed` | internal/raftstore/peer.go:788-801 | a waiting read that a Ready confirms is served by it if its index is applied, and else waits for that index |
| `AsyncReads.OutIsUnapplied` | internal/raftstore/peer.go:909-979 | data of a task that is out or queued is committed and has not been handed over |
| `AsyncReads.AsyncPeer.HandleReady` | internal/raftstore/peer.go:770-810 | the method takes the specified step: submit, read states, sweep |
| `AsyncReads.AsyncPeer.SubmitToApplyWorker` | internal/raftstore/peer.go:909-979 | a batch without data moves the index and sweeps the pending reads |
| `AsyncReads.AsyncPeer.OnApplyResult` | internal/raftstore/peer.go:981-1037 | a result that moves the index sweeps the pending reads |
| `AsyncReads.AsyncPeer.SweepReads` | internal/raftstore/peer.go:802-810 | exactly the reads whose known index is reached are served |
| `SnapshotCodec.DecodesExactlyEncodings` | internal/raftstore/snapshot.go:136-239 | decoding yields a snapshot if and only if the input starts with its encoding and every length fits its field |
| `SnapshotCodec.RoundTrip` | internal/raftstore/snapshot.go:85-133 | a snapshot survives the wire if and only if every length fits its field |
| `SnapshotCodec.PanicsExactly` | internal/raftstore/snapshot.go:136-239 | the decoder slices out of range exactly on a complete header followed by fewer than four bytes |
| `SnapshotCodec.MarshalSnapshotData` | internal/raftstore/snapshot.go:85-133 | the nested loops write the specified format |
| `SnapshotCodec.UnmarshalSnapshotData` | internal/raftstore/snapshot.go:136-239 | the loops decide every input as the specification does |
| `SnapshotTransfer.ComputeCFChecksum` | internal/raftstore/snapshot.go:242-249 | the checksum of all keys and values in order |
| `SnapshotTransfer.StreamCoversAll` | internal/raftstore/snapshot.go:242-249 | among pairs of the same lengths the checksummed bytes are equal if and only if all keys and values are |
| `SnapshotTransfer.BoundariesAreNotCovered` | internal/raftstore/snapshot.go:242-249 | a byte moved from a value to its key leaves every checksum the same |
| `SnapshotTransfer.AcceptableExactly` | internal/raftstore/snapshot.go:307-346 | a file is taken exactly when the checksum cannot tell its pairs from those it was made for and its family is known or it has no pairs |
| `SnapshotTransfer.GenerateSnapshotData` | internal/raftstore/snapshot.go:253-304 | one file per data column family, with exactly the region's pairs in key order and a matching checksum |
| `SnapshotTransfer.Engine.ApplySnapshotData` | internal/raftstore/snapshot.go:307-346 | succeeds exactly when every checksum is that of the keys and values received and families are known; then clears and writes as specified, else changes nothing |
| `SnapshotTransfer.AppliedAt` | internal/raftstore/snapshot.go:307-346 | each key of each family: the snapshot's value in the region, else the old value unless cleared |
| `SnapshotTransfer.TransferIsExact` | internal/raftstore/snapshot.go:307-346 | the receiver equals the generator inside the region and is unchanged outside if and only if its stale keys are cleared, whatever its own bounds |
| `SnapshotTransfer.AlwaysTransfersExactly` | internal/raftstore/snapshot.go:307-346 | a region's snapshots always transfer if and only if the region has an end key |
| `SnapshotTransfer.StaleSurvives` | internal/raftstore/snapshot.go:307-346 | stores for which a region without end key keeps a stale key |
| `SnapshotTransfer.ShippedSnapshotTransfers` | internal/raftstore/snapshot.go:253-304 | generate, marshal, unmarshal and apply together: what arrives is accepted and transfers exactly |
| `RegionCache.OverlapMeansSharedKey` | pkg/client/region_cache.go:176-186 | the bound comparison holds exactly when two ranges share a key |
| `RegionCache.SearchAfter` | pkg/client/region_cache.go:69-92 | binary search splits the slice at the first start key beyond the key |
| `RegionCache.FindInCache` | pkg/client/region_cache.go:69-92 | binary search returns what a linear scan for a region containing the key returns |
| `RegionCache.ReplaceWellFormedExactly` | pkg/client/region_cache.go:134-141 | replacing a cached ID keeps the slice sorted and disjoint if and only if the new range fits its slot |
| `RegionCache.ShrunkRangeFits` | pkg/client/region_cache.go:134-141 | a range inside the one it replaces always fits |
| `RegionCache.GrownRangeOverlaps` | pkg/client/region_cache.go:134-141 | a concrete replacement by a grown range that leaves two regions for one key |
| `RegionCache.Cache.InsertLocked` | pkg/client/region_cache.go:134-172 | a new ID evicts exactly what it overlaps and keeps the cache valid; a known one keeps it valid exactly when it fits |
| `RegionCache.Cache.RebuildByID` | pkg/client/region_cache.go:189-194 | the index is the exact inverse of the slice |
| `RegionCache.Cache.InvalidateRegion` | pkg/client/region_cache.go:217-229 | exactly the region with that ID goes; the cache stays valid |
| `RegionCache.Cache.UpdateLeader` | pkg/client/region_cache.go:232-243 | only leader and address of that region change |
| `RegionCache.Cache.LocateKey` | pkg/client/region_cache.go:52-65 | a cached region that contains the encoded key is returned without change, otherwise PD's answer is cached; the cache stays valid exactly unless that answer is a cached ID whose range does not fit its slot |
| `RegionCache.InsertedIsFound` | pkg/client/region_cache.go:69-92 | in a valid cache a region is found for each of its keys |
| `TxnScan.FirstIsPrefix` | pkg/client/txn.go:583-714 | the first n pairs of a range are unique: the prefix of its ordered scan |
| `TxnScan.KvScan` | internal/server/storage.go:123-164 | a server's answer: the first pairs of the range up to the limit, all of them for limit zero |
| `TxnScan.LocateEnd` | pkg/client/txn.go:628-642 | the end of the key's region, decoded, lies strictly beyond the key |
| `TxnScan.ScanOneRegion` | pkg/client/txn.go:615-706 | one round asks the key's region with what is left of the limit in 32 bits, goes on at the region's end or stops, and leaves the region behind |
| `TxnScan.ScanRegions` | pkg/client/txn.go:615-706 | for any partition with encoded bounds and every limit the loop ends with what its rounds collect; for limits up to 2^32 these are the first limit pairs of the whole range |
| `TxnScan.ScannedIsFirst` | pkg/client/txn.go:615-706 | for limits up to 2^32 what the regions answer, joined and cut at the limit, is the first limit pairs of the whole range |
| `TxnMerge.MergeResults` | pkg/client/txn.go:544-577 | the merging loop computes the first limit pairs of the merge |
| `TxnMerge.MergeMembers` | pkg/client/txn.go:544-577 | a pair is in the merge exactly when the buffer puts it, or it was fetched and the buffer does not mention its key |
| `TxnMerge.MergeIsOverlay` | pkg/client/txn.go:544-577 | merging two scans is scanning the overlay of buffer over snapshot |
| `TxnMerge.ScanIsExact` | pkg/client/txn.go:708-713 | a single result is right if and only if no unfetched key belongs among the first limit |
| `ScanHazard.ScanIsRightExactly` | pkg/client/txn.go:583-714 | the scan is right for every snapshot if and only if buffer, range and limit put no key at hazard: one that the buffer does not mention, after a buffered delete, with fewer buffered puts than the limit but room for that many keys before it |
| `ScanHazard.RoomExactly` | pkg/client/txn.go:708-713 | a range below a key holds n byte strings if and only if the n-th from its start, which is the start with n - 1 zero bytes appended, lies below the key |
| `ScanHazard.HazardIsReal` | pkg/client/txn.go:708-713 | for every key at hazard, a snapshot on which the scan is wrong |
| `ScanHazard.ScanWithoutDeletes` | pkg/client/txn.go:708-713 | without buffered deletes in range the scan is always right |
| `ScanHazard.ScanBelowLimit` | pkg/client/txn.go:708-713 | a scan that ran out of pairs is right whatever the buffer holds |
| `ScanHazard.DeleteHidesNextPair` | pkg/client/txn.go:708-713 | a buffered delete and a limit of one: the scan returns nothing although a pair is visible |
| `ScanHazard.Scan` | pkg/client/txn.go:583-714 | for every limit the call returns the limited merge of what the regions gave and the buffer; up to 2^32 that is what the transaction sees first wherever no key is at hazard |
| `ScanLimit.ScanIsRightEverywhereExactly` | pkg/client/txn.go:615-706 | the scan of the regions is right for every layout, snapshot and range if and only if the limit is at most 2^32 |
| `ScanLimit.CutLimitLosesPairs` | pkg/client/txn.go:615-706 | for every larger limit that is no multiple of 2^32, a snapshot on which a single region answers too few pairs |
| `ScanLimit.MultipleLosesPairs` | pkg/client/txn.go:615-706 | for every larger multiple of 2^32, two regions and a snapshot on which the second answers one pair too few |
| `ScanLimit.WholeIsRightExactly` | pkg/client/txn.go:615-706 | from a single region the scan is right for every snapshot and range if and only if the limit is at most 2^32 or a multiple of it |
| `ScanLimit.LimitBecomesOne` | pkg/client/txn.go:615-706 | the limit 2^32 + 1 on two pairs: the scan returns one |
| `ScanLimit.CallIsRightExactly` | pkg/client/txn.go:583-714 | up to 2^32, Scan is right for every layout and snapshot if and only if the buffer puts no key at hazard |
| `ScanLimit.LimitIsSafeExactly` | pkg/client/txn.go:583-714 | for a given limit that condition is enough for every buffer and range if and only if the limit is at most 2^32 |
| `ScanLimit.LargeLimitIsNeverSafe` | pkg/client/txn.go:583-714 | above 2^32 even a transaction without writes can get a wrong scan |
| `Tso.AllocatedIsNew` | internal/pd/server.go:1243-1276 | a block starts above everything given out before, whatever the clock reads |
| `Tso.AllocatedFitsExactly` | internal/pd/server.go:1243-1276 | the logical part fits 18 bits exactly when fewer than 2^18 are asked for |
| `Tso.AllocatedFollowsClock` | internal/pd/server.go:1243-1276 | the physical part is never behind the clock, moves exactly when the clock is ahead or the logical part is used up, and to which value; without that the logical parts have no gap |
| `Tso.TSOAllocator.Allocate` | internal/pd/server.go:1243-1276 | the fields take the specified step; a count that is not positive is refused |
| `Tso.TSOBuffer.Refill` | internal/pd/tso_buffer.go:67-90 | a fresh batch of the asked size that ends at the allocator and lies above all issued blocks, or no change |
| `Tso.TSOBuffer.GetTS` | internal/pd/tso_buffer.go:36-63 | issues one more block of the asked size, whatever it is, from the buffer as long as that suffices and else from a batch of 1000 or the size asked; all blocks ever issued stay strictly increasing as pairs, and their logical parts fit while no count reaches 2^18 |
| `Tso.TSOBuffer.Serve` | internal/pd/tso_buffer.go:36-63 | the next stamps of the buffer, none skipped |
| `Tso.TSOBuffer.Reset` | internal/pd/tso_buffer.go:94-100 | the buffer is empty; issued blocks stay below all later ones across resets |
| `Tso.TSOBuffer.OtherAllocation` | internal/pd/server.go:1243-1276 | another command that moves the allocator in between leaves issued and buffered blocks below all later ones |
| `Tso.ComposeIsSum` | pkg/txntypes/timestamp.go:31-33 | shift and or are arithmetic on parts that fit |
| `Tso.ComposeOrder` | pkg/txntypes/timestamp.go:31-33 | packed timestamps compare like pairs |
| `Tso.IssuedAreOrdered` | internal/pd/tso_buffer.go:36-63 | any timestamp of an earlier block is below any of a later one as pairs, whatever the counts |
| `Tso.IssuedAreIncreasing` | internal/pd/tso_buffer.go:36-63 | where the logical parts fit, any timestamp of an earlier block packs below any of a later one |
| `Tso.ComposeWraps` | pkg/txntypes/timestamp.go:31-33 | logical parts from 2^18 on run into an odd physical part and start again from zero |
| `Tso.BlocksPackExactly` | internal/pd/server.go:1243-1276 | the blocks of a count pack strictly increasing for every state and clock if and only if the count is below 2^18 |
| `Tso.LargeBlockGoesBack` | internal/pd/server.go:1243-1276 | with 2^18 stamps or more, on every odd millisecond, a later stamp of a block packs below its first |
| `Tso.LargeBlockCollides` | internal/pd/server.go:1243-1276 | with more than 2^18 stamps, on every odd millisecond, two stamps of one block pack alike |
| `Tso.SlowReplicaGoesBack` | internal/pd/server.go:1251-1270 | replicas that apply the same batches on different clocks: the new leader falls behind the old |
| `Tso.FailoverIsSafeExactly` | internal/pd/server.go:1251-1270 | everything a new leader gives out lies above what the old one gave out, whatever is asked and whatever its clock reads, if and only if its allocator is not behind |
| `Tso.FailoverIsSafe` | internal/pd/server.go:1251-1270 | a new leader whose readings were never behind the old leader's starts above everything given out |
| `Balance.CountPerStore` | internal/pd/server.go:1132-1155 | the counting loops give each store its number of regions or leaders |
| `Balance.ScheduleRegionBalance` | internal/pd/scheduler.go:200-307 | a move goes from the first overloaded peer store to the first underloaded other store, and is missed only if there is none; overloaded and underloaded are off the mean by the guards of `GuardsExactly` |
| `Balance.MeanIgnoresDown` | internal/pd/scheduler.go:217-230 | the mean is the same for any two counts that agree on the schedulable stores |
| `Balance.MeanBetween` | internal/pd/scheduler.go:217-230 | the mean lies between the smallest and the largest load of a schedulable store |
| `Balance.MeanGrows` | internal/pd/scheduler.go:217-230 | one more region on a schedulable store adds exactly one to the mean times their number, and nothing on any other store |
| `Balance.SchedulableIs` | internal/pd/scheduler.go:217-230 | that number is the number of listed stores that are schedulable |
| `Balance.GuardsExactly` | internal/pd/scheduler.go:230-270 | with one region less an overloaded store is still above the mean, with one more an underloaded store is not, and both are off it by more than the threshold; exactly then |
| `Balance.ScheduleLeaderBalance` | internal/pd/scheduler.go:127-160 | the target is the first of those with the fewest leaders and has at least two fewer; none exactly when no peer has |
| `Balance.MoveLowersPotential` | internal/pd/scheduler.go:200-307 | a move changes the sum of squares by two minus twice the difference of the loads |
| `Balance.OverloadedIsThreeAhead` | internal/pd/scheduler.go:230-270 | the guards put at least three regions between source and target |
| `Balance.StepLowersPotential` | internal/pd/scheduler.go:127-160 | a region move lowers the sum of squared region counts by at least four; a leader transfer leaves it alone and lowers that of the leader counts by at least two |
| `Balance.HandOverChangesLeaders` | internal/pd/move_tracker.go:163-213 | what the hand-over of a move whose source leads does to the sum of squared leader counts, up or down |
| `Balance.LeaderPotentialIsBounded` | internal/pd/move_tracker.go:163-213 | however leadership is spread, that sum is at most the square of the number of regions |
| `Balance.StepKeepsConsistent` | internal/pd/move_tracker.go:163-213 | moves, with their hand-over, and transfers keep every region's leader on one of its stores |
| `Balance.StepLowersEnergy` | internal/pd/scheduler.go:127-160 | every step, hand-overs included, lowers a weighted sum of the two by at least eight |
| `Balance.RunsAreBounded` | internal/pd/scheduler.go:60-90 | no run of completed moves, with their hand-overs, and transfers is longer than an eighth of its initial weighted sum |
| `Balance.RegionMovesAreBounded` | internal/pd/scheduler.go:200-307 | a run has at most a quarter of its initial sum of squared region counts in region moves |
| `Balance.TransfersAreBounded` | internal/pd/scheduler.go:127-160 | a stretch of transfers alone is at most half the square of the number of leaders |
| `Balance.DecisionsAreSteps` | internal/pd/scheduler.go:200-307 | what region balancing decides on the cluster's counts is a step of such a run, whichever peer off the source takes over |
| `Balance.TransfersAreSteps` | internal/pd/scheduler.go:127-160 | what leader balancing decides on the cluster's counts is a step of such a run |
| `MoveTracker.StepGoesForward` | internal/pd/move_tracker.go:133-253 | a move never goes back, ends only when the source is gone, and hands leadership only to a peer that stays |
| `MoveTracker.LeaderIsMovedFirst` | internal/pd/move_tracker.go:163-213 | the source is first asked to leave when it does not lead or nobody else could, apart from a peer with store ID zero |
| `MoveTracker.RemovedOnlyAfterStabilizing` | internal/pd/move_tracker.go:133-253 | for every sequence of heartbeats, RemoveNode is sent only three or more heartbeats after one that showed the target |
| `MoveHistory.CompleteExactly` | internal/pd/move_tracker.go:133-253 | for every sequence of heartbeats the move is complete if and only if one showed the target, one at least three later let the source leave, and one after that did not show the source |
| `MoveHistory.WaitsForTarget` | internal/pd/move_tracker.go:149-165 | until a heartbeat shows the target nothing is commanded and the move stays as it started |
| `MoveHistory.Stabilizes` | internal/pd/move_tracker.go:167-171 | on that heartbeat and the next two nothing is commanded |
| `MoveHistory.HandsOver` | internal/pd/move_tracker.go:167-229 | while the source leads, each heartbeat from the third on commands a transfer to the first peer that could lead, if there is one |
| `MoveHistory.AsksToLeave` | internal/pd/move_tracker.go:167-249 | from the first of them on which somebody else leads, or on the third on which no leader is known or nobody could take over, every heartbeat that shows the source commands its removal |
| `MoveHistory.Completes` | internal/pd/move_tracker.go:231-241 | the first heartbeat after that without the source completes the move, and it stays complete |
| `MoveHistory.CompletesInTime` | internal/pd/move_tracker.go:133-253 | if somebody else leads on the third heartbeat after the target was shown and the next does not show the source, the move is complete there |
| `MoveTracker.PeerCountNeverDrops` | internal/pd/move_tracker.go:133-253 | with commands taking effect late and heartbeats stale, the region never has fewer peers than at the start |
| `MoveTracker.HasPeerOnStore` | internal/pd/move_tracker.go:268-275 | finds a peer on the store exactly when there is one |
| `MoveTracker.PickPeer` | internal/pd/move_tracker.go:279-287 | the first peer that is not on the store and whose store ID is not zero |
| `MoveTracker.AdvanceMove` | internal/pd/move_tracker.go:144-250 | the state machine takes the specified step, on which `MoveHistory` proves when a move completes |
| `MoveTracker.Tracker.HasPendingMove` | internal/pd/move_tracker.go:101-114 | a region that is moving or cooling down; expired cooldowns are dropped without effect |
| `MoveTracker.Tracker.ActiveMoveCount` | internal/pd/move_tracker.go:118-128 | moves plus live cooldowns |
| `MoveTracker.Tracker.TryStartMove` | internal/pd/scheduler.go:205-213 | a move starts exactly below the rate limit and for a free region; the limit is never exceeded |
| `MoveTracker.Tracker.Advance` | internal/pd/move_tracker.go:133-253 | a heartbeat never raises moves plus live cooldowns; a finished move becomes its own cooldown |
| `MoveTracker.Tracker.CleanupStale` | internal/pd/move_tracker.go:256-265 | removes exactly the moves that started longer than the timeout ago |
| `Varint.UvarintRoundTrip` | pkg/txntypes/util.go:16-38 | a 64-bit varint reads back with any bytes after it |
| `Varint.VarBytesRoundTrip` | pkg/txntypes/util.go:23-52 | a length-prefixed string reads back with any bytes after it |
| `Varint.PayloadRoundTrip` | pkg/txntypes/lock.go:153-261 | each kind of optional field reads back with any bytes after it |
| `LockCodec.RoundTrip` | pkg/txntypes/lock.go:59-266 | UnmarshalLock returns the lock that Marshal wrote if and only if the lock is canonical |
| `LockCodec.ReadsBackKept` | pkg/txntypes/lock.go:59-266 | what any lock with a short value of at most 255 bytes reads back as |
| `LockCodec.EncodedInjective` | pkg/txntypes/lock.go:59-127 | different canonical locks have different bytes |
| `LockCodec.Marshal` | pkg/txntypes/lock.go:59-127 | the conditional appends write the specified format |
| `LockCodec.UnmarshalLock` | pkg/txntypes/lock.go:130-266 | the tag loop decides every input as the specification does |
| `WriteCodec.RoundTrip` | pkg/txntypes/write.go:43-154 | UnmarshalWrite returns the record that Marshal wrote if and only if it is canonical |
| `WriteCodec.EncodedInjective` | pkg/txntypes/write.go:43-78 | different canonical records have different bytes |
| `WriteCodec.Marshal` | pkg/txntypes/write.go:43-78 | the conditional appends write the specified format |
| `WriteCodec.UnmarshalWrite` | pkg/txntypes/write.go:81-154 | the tag loop decides every input as the specification does |
| `KnownBytes.EncodedStrings` | pkg/codec/bytes.go:30-52 | the bytes of strings below, at and above a full group |
| `KnownBytes.LocalKeys` | pkg/keys/keys.go:74-111 | the bytes of all four kinds of local keys |
| `KnownBytes.VersionedKeys` | internal/storage/mvcc/key.go:16-19 | the encoded key and the complement of the timestamp in eight bytes |
| `KnownBytes.Numbers` | pkg/txntypes/util.go:16-38 | big-endian numbers and varints on sample values |
| `KnownBytes.LockFields` | pkg/txntypes/lock.go:59-127 | the fields of a lock record, each with its tag and its condition, in order |
| `KnownBytes.WriteFields` | pkg/txntypes/write.go:43-78 | the same for a write record |
| `KnownBytes.FieldFormats` | pkg/txntypes/lock.go:59-127 | the bytes of each kind of field |
| `KnownBytes.SnapshotParts` | internal/raftstore/snapshot.go:85-133 | the bytes of header, file header and pair |
| `KnownBytes.ApplyStateFormat` | internal/raftstore/storage.go:457-491 | applied index, truncated index and term, eight bytes each |
| `KnownBytes.CompactLogFormat` | internal/raftstore/raftlog_gc.go:89-97 | tag, index and term |

## Left out

- Committing with async commit, pessimistic locking and heartbeats of locks: only optimistic two-phase commit is modelled.
- Other transactions' locks and writes: the protocol model follows one start timestamp.
- The resolver's table of resolutions in progress (pkg/client/lock_resolver.go:52-88): it only saves duplicate requests.
- Retries and back-off of requests, lock retries during a scan, sleeping and timeouts.
- Region errors and epoch checks; groups of keys per region are inputs of the committer.
- etcd/raft, Pebble, protobuf, JSON and CRC-32: foreign; they appear as contracts.
- gRPC handlers, connection pools, configuration, metrics, command-line tools.
- PD's Raft callback queue and state machine snapshots; a refill is assumed to receive its own command's result.
- PD's raft storage: a near copy of the peer storage.
- Replica repair and excess shedding, alone and combined with balancing: no termination argument holds for the pair.
- PercolatorSafety.AtomicInEveryState: like its neighbours, assumes the six conditions of `Config.Careful` and no prewrite at a rolled-back primary; `AtomicExactlyWhenSound` shows that none can be dropped.
- Two Commit calls that overlap on one handle; a Rollback that overlaps a Commit is modelled.
- MoveTracker.LeaderIsMovedFirst: a peer with store ID zero does not count as one that could lead, since the source never picks it.
- Balance.RunsAreBounded: speaks of moves and transfers that complete before the next decision, on counts that are up to date.
- Balance.ScheduleRegionBalance: mean and thresholds are exact reals; the source uses float64.
- The coprocessor and raw key-value range operations.
- Aliasing between returned entries and the cache: entries are values.
- Latches and mutexes: each operation is one step.
- SnapshotCodec.UnmarshalSnapshotData: does not model running out of memory on a huge count in malformed input; the cursor is kept as the remaining slice.
- SnapshotTransfer.Engine.ApplySnapshotData: iterator and commit errors of the engine are not modelled.
- AsyncReads.AsyncPeer.HandleReady: a Ready is one step; snapshots, and what a restart replays over newer values, are not modelled there.
- ApplyPipeline.PipelineRefinesInline: the pool accepts everything; submitting to a stopped pool, where the data is dropped, is not modelled.
- TxnScan.ScanRegions: the region layout does not change during a scan, and the limit is not negative.
- LockCodec.UnmarshalLock: does not model running out of memory on a huge count in malformed input.
- LogGc.CollectionIsSafe: compact-log commands carry the log's own term.
- LogGc.RunKeepsStored: writing the apply state succeeds; the source only logs a failure (internal/raftstore/peer.go:193-195).
- Committer.TxnHandle.Commit: a transaction without writes, which commits without any request, is left out.
- Committer.TwoPhaseCommitter.CommitSecondaries: the per-key retry after a failed group sends the same commits again and is covered by repetition of messages.
- Membership changes, splits, merges and region heartbeats of the raft store.
