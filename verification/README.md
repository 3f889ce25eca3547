# Storage of a Raft node over SurrealKV: a verified model

This project models the storage side of the node and proves what it keeps. The node has a
replicated log store, a key-value state machine, durable metadata with a write-through cache, and
a snapshot pipeline that alternates full checkpoints with deltas and folds delta chains into new
checkpoints in background merges.

`dafny verify dfyconfig.toml` checks everything.

## Layout

| module | source | what it is |
|---|---|---|
| Types, Ranges, Unicode | `src/types.rs` | integers, strings, requests, ordered reads of an index map |
| Replay | `src/storage.rs`, `src/merge/checkpoint_backend.rs` | Set/Delete logs over a map, and chains of overlapping logs |
| Records, Policy | `src/state.rs`, `src/snapshot.rs`, `src/merge/policy.rs` | the persisted records, their edits, when a merge is due |
| Backend | `src/merge/checkpoint_backend.rs` | the merge backend, as loops over a temporary tree |
| MergeSystem, MergeRuns, Provenance, Undisciplined | `src/storage.rs`, `src/merge/executor.rs` | log growth, builds and overlapping merges as a transition system; what every run keeps, what disciplined runs keep, which step every record comes from, and what goes wrong outside the discipline |
| Metadata | `src/state.rs`, `src/storage_raft_impl.rs` | durable keys, the cache, vote persistence with crashes |
| Executor | `src/merge/executor.rs`, `src/storage.rs` | the retry loop, its crash points, recovery |
| Storage, LogStore, StateMachine | `src/storage.rs`, `src/storage_raft_impl.rs` | the storage object, the log store against an offset sequence, apply and delta install |
| Wire, Envelope | `src/snapshot.rs`, `src/types.rs` | postcard bytes, the snapshot envelope and its legacy form |
| Chunking, Sequence, Cleanup | `src/network/mod.rs`, `src/snapshot/consistency.rs`, `src/merge/cleanup.rs` | chunked sending, the twice-written sequence number, removal of old artefacts |

## What is assumed

- SurrealKV is a set of keys with atomic multi-key commits; a metadata write succeeds.
- Postcard encodes and decodes metadata records without loss. The byte layouts that the envelope
  depends on are modelled; the records under the metadata keys are not.
- zstd is a pair of functions; `Lossless` is a hypothesis where it is needed.
- Clocks, backend outcomes, file paths and the content of a full checkpoint are inputs.
- MergeSystem: new files get paths not used before; one build is under way at a time, any number of
  merges; a merge backend call is one step, since files never change while they exist.

## Where the code and its intent differ

- The applied index is not monotone: `append` moves it ahead of the commit and `apply` moves it
  back (`AppliedMovesBack`). MergeRuns states what is kept in three layers. Every run keeps `Sane`.
  Runs that change nothing at or below the highest index a build has read (`StableLog`) keep every
  delta file an exact slice of the log, and `EveryMergeExact` says when a merge of such a record is
  right. Runs in which builds moreover start no lower than the ones before them (`Rising`) keep all
  of `Inv`. `RegressedBuildBreaksMerge` is a run from the initial state that only breaks the second
  rule, and `MergeEndsExact` says which end indices are safe.
- A build can read an entry that is not committed, which truncation and a new `append` then replace
  (`AppliedEntryReplaced`). `RewrittenEntryBreaksMerge` is such a run; `OverwriteExact` says exactly
  when a rewritten entry leaves a record right.
- A full checkpoint copies the tree, but requests only reach the in-memory map. Directories are
  therefore described relative to the content of the full checkpoint at their root, for any such
  content. `EveryRecordExact` says exactly when a record then stands for the log, `EveryRecordTrue`
  that it does if full checkpoints are truthful, `EmptyRootExact` what it takes if they hold no
  key-value data. `EmptyRootIsWrong` is a run where they do not and it fails.
- Between `append` and `apply` the map trails the applied index. `MapIsReplay` and
  `AppliedIndexExact` say what the map is, and when that is the log at the applied index.
- A full install moves the applied index but loads nothing into the map; `FullInstallExact` says
  exactly when the map is right afterwards, `FullInstallLosesKey` is an instance where it is not.
- `truncate_after` leaves the delta log alone. `DeltaLogCovers` says which indices the delta log
  holds and exactly when it is not stale, `BuiltDeltaExact` the same for a delta built from it.
  `TruncatedEntryStays` is a run where a follower ends with a truncated request applied.
- A read with end bound Excluded(0) or start bound Excluded(u64::MAX) saturates. `ReadExact` is the
  exact condition under which a read is right.
- The current parser rejects a legacy delta at the option tag exactly under the condition of
  `StopsAtOptionTag`; one it rejects anywhere is recovered (`LegacyFallsThrough`). With a shorter first
  payload it may still reject the bytes further on, or accept them with wrong fields
  (`EmptyPayloadMisread`). The legacy Full branch is dead (`LegacyFullNeverReached`), and a legacy
  delta without entries is taken for a current one.
- A disk that has only the legacy vote key can read back an older vote after a crash between the two
  transactions of `save_vote`; `LegacyOnlyCrashExact` says exactly when it does not.
- The comment on `MergeProgressState` speaks of avoiding re-entrant execution; nothing prevents
  overlapping merges (`MergesOverlap`), and a merge commit drops a delta added since the task read the
  record (`CommitDropsDelta`). `EveryRecordTrue` holds all the same.
- The sequence-number comment in `src/snapshot/checkpoint.rs` gives another priority than the code;
  the code's order is modelled.

## Model

| member | source | states |
|---|---|---|
| `Replay.ReplayLookup` | src/storage.rs:215-227 | replay is last-writer-wins key by key, against an independent definition of the last write |
| `Replay.ReplayAgrees` | src/merge/checkpoint_backend.rs:153-171 | two baselines replay a log to the same map if and only if they agree on every key the log leaves alone |
| `Replay.ReplayAbsorbs` | src/merge/checkpoint_backend.rs:129-150 | replaying a log over a state that already holds a prefix of it gives what one replay gives |
| `Replay.CumulativeChain` | src/merge/checkpoint_backend.rs:129-150 | a chain of cumulative deltas replays to what its last delta alone replays to |
| `Replay.ChainLikeLast` | src/merge/checkpoint_backend.rs:129-150 | any chain replays like its last delta if and only if the earlier ones together end at the baseline's value on every key the last leaves alone |
| `Replay.PrefixChainExact` | src/merge/checkpoint_backend.rs:183-191 | chains of the given ends are sound for every log and baseline if and only if no delta reaches further than the last |
| `Policy.RoundsStayBounded` | src/storage.rs:352-361 | over any number of build-and-merge rounds the chain stays under both limits and holds exactly the deltas since it was last cleared |
| `Policy.TriggerExact` | src/merge/policy.rs:73-101 | for any record, each trigger is given if and only if its own limit is reached and no earlier one is; the time trigger only after the whole interval |
| `Policy.MergedRecordIsQuiet` | src/merge/policy.rs:73-101 | a merged record is due again exactly when the interval has elapsed since the merge started |
| `Policy.EvaluateMonotone` | src/merge/policy.rs:73-101 | more deltas, bytes or time never withdraw a trigger or lower its priority |
| `Policy.DefaultAgreesWithShouldMerge` | src/state.rs:223-228 | with the default thresholds the two merge predicates agree except on time |
| `Backend.TempTree.ApplyEntry` | src/merge/checkpoint_backend.rs:153-171 | one entry is applied, or the tree is left alone and the entry's index reported |
| `Backend.TempTree.ReplayDeltas` | src/merge/checkpoint_backend.rs:129-150 | succeeds if and only if every named delta file is there and decodes, and then the tree holds their replay in chain order; otherwise the first missing file or undecodable entry is named |
| `Backend.ExecuteMerge` | src/merge/checkpoint_backend.rs:174-253 | succeeds if and only if baseline and deltas can be read, with the replayed content, the merge index, the baseline's term and the larger of the two sizes; otherwise the error says which baseline part is missing, in the source's order, or names the first fault of the chain |
| `MergeSystem.RunStaysSane` | src/merge/executor.rs:130-232 | in every state of every run, with no calling discipline: byte totals, fresh paths, deltas above their checkpoint, every directory named by a record at the record's index, sequence numbers that count merges, and the flag |
| `MergeSystem.QuietFlagIsDown` | src/merge/executor.rs:141-206 | in every run, with overlapping tasks, the persisted flag is down whenever no task is left |
| `MergeRuns.DeltaBuild` | src/storage.rs:261-350 | a delta build on a consistent record gives a consistent record: exact slice, first and last index, byte total |
| `MergeRuns.RunStaysSliced` | src/storage.rs:261-350 | over every run that does not rewrite what a build has read, wherever builds start, every delta file of every record held by anyone is exactly the log from the checkpoint to the delta's end |
| `MergeRuns.EveryMergeExact` | src/merge/checkpoint_backend.rs:129-205 | in every state of every such run, merging a record is replaying the log once to the merge index if and only if, on keys untouched up to there, the earlier deltas end at the baseline's value |
| `MergeRuns.MergeExact` | src/merge/checkpoint_backend.rs:129-205 | the same for one record whose deltas end anywhere, and unconditionally for an empty chain |
| `MergeRuns.MergeEndsExact` | src/merge/checkpoint_backend.rs:183-191 | the deltas of a record are prefixes of one log, and such prefixes replay like the last for every log and baseline if and only if no delta of the record ends above the merge index |
| `MergeRuns.MergeReplaysLogOnce` | src/merge/checkpoint_backend.rs:129-205 | merging a record whose deltas end in order replays the log from the checkpoint's index to the merge index exactly once over the baseline |
| `MergeRuns.StepKeepsInv` | src/storage.rs:261-350 | every read, file operation and write, in any interleaving, keeps the invariant of records, directories, files, builder, tasks and flag |
| `MergeRuns.RunKeepsInv` | src/merge/executor.rs:130-209 | in every state of every run with a stable log and rising builds: exact slices in order, and every directory equal to its root checkpoint with the log since replayed on top |
| `MergeRuns.EveryRecordExact` | src/storage.rs:261-350 | in every state of every such run, whatever full checkpoints held, every record held by anyone stands for the log (checkpoint content, each delta, checkpoint plus remaining log) if and only if its root checkpoint agrees with the log on the keys untouched since |
| `MergeRuns.EveryRecordTrue` | src/storage.rs:261-350 | hence, when full checkpoints are truthful, every record held by anyone stands for the log |
| `MergeRuns.EmptyRootExact` | src/snapshot.rs:368-379 | when full checkpoints hold no key-value data, a directory equals the replayed log at its index if and only if every key alive at the root is touched since |
| `MergeRuns.MergeIndicesAgree` | src/merge/executor.rs:211-232 | the index of the new directory, of the merged record and of the replayed slice are one |
| `Undisciplined.RegressedBuildBreaksMerge` | src/storage.rs:261-276 | under every configuration, a run from the initial state with a stable log in which a build below the one before it leads to a committed checkpoint that is not the log at its index |
| `Undisciplined.RewrittenEntryBreaksMerge` | src/storage.rs:230-242 | under every configuration, a run from the initial state with rising builds in which an entry a build has read is replaced and a committed checkpoint holds the entry that is gone |
| `Undisciplined.OverwriteExact` | src/storage.rs:230-242 | rewriting any log entry leaves a true record true if and only if what changes is overwritten before the checkpoint's index and before the end of each delta, or lies above them |
| `Undisciplined.EmptyRootIsWrong` | src/snapshot.rs:368-379 | a disciplined run in which a full checkpoint without key-value data is not the log at its index |
| `Provenance.EveryRecordTraced` | src/snapshot.rs:90-113 | in every state of every run, each delta of each record held by anyone was written by a step, field by field from what its builder had read, with at most 5242880 bytes and 1000 entries or more unless its checkpoint was at most 86400 seconds old; each checkpoint by a full build to which none of that applied or by a merge commit that kept the term; so the byte total is at most 5242880 a delta |
| `Provenance.EveryDirTraced` | src/merge/checkpoint_backend.rs:117-126 | in every state of every run, the root content and index of every directory are those of a full build of the run |
| `Provenance.EveryBuildTraced` | src/storage.rs:261-281 | in every state of every run, a build holds the applied index, the record and the log range it read at three moments in this order, and is over once it saved or gave up |
| `Provenance.EveryTaskTraced` | src/merge/executor.rs:112-209 | in every state of every run with any number of tasks, each was spawned when the policy called for it, has not ended since, and counts its attempts, at most max(1, limit), all failed but the one under way; the progress record is, field by field, what the last task to write it left |
| `Provenance.RemovedForGood` | src/merge/checkpoint_backend.rs:43-70 | a removed directory or file never comes back, and a record naming it can never be merged |
| `Undisciplined.MergesOverlap` | src/merge/executor.rs:112-128 | under every configuration, a disciplined run in which two tasks hold the same record at once |
| `Undisciplined.CommitDropsDelta` | src/merge/executor.rs:151-171 | under every configuration, a disciplined run in which a merge commit drops a delta that a build added meanwhile |
| `Metadata.MetadataManager.Load` | src/state.rs:259-288 | a fresh manager takes each key's durable value or its default |
| `Metadata.MetadataManager.SaveSnapshotAndMergeState` | src/state.rs:351-367 | both keys change in one durable step and the cache follows |
| `Metadata.CrashAndLoad` | src/state.rs:259-367 | after any saves, a crash after any number of them and a reload, each getter gives the last committed value, the earlier one or the default, and the vote read is the last full vote committed or there before, else the legacy one uncommitted |
| `Metadata.MetadataManager.SaveVote` | src/storage_raft_impl.rs:222-239 | two transactions, with the durable state a crash between them exposes |
| `Metadata.MetadataManager.ReadVote` | src/storage_raft_impl.rs:53-65 | the full vote, or an uncommitted vote from the legacy key |
| `Metadata.VoteNeverRegresses` | src/storage_raft_impl.rs:222-239 | at every point of every run with crashes and other metadata saves in between, the node asking only for votes no older than the one it holds, the vote read is not older than any acknowledged one or the full vote first stored, and was asked for or stored, up to the committed flag on the legacy key |
| `Metadata.LegacyOnlyCrashExact` | src/storage_raft_impl.rs:222-239 | on a disk with the legacy key only, a crash between the two transactions reads back a vote not older than before if and only if the new vote names a candidate and is for a later term or the same candidate |
| `Executor.RunMergeLoop` | src/merge/executor.rs:130-209 | calls up to the first success, at most max(1, limit); the i-th commit shows attempt i with the limit, trigger and start time; the last one the number of calls, the last error or none, and on success the merged record field by field; the flag ends down; every commit is all-or-nothing |
| `Executor.RecoverMergeState` | src/storage.rs:135-200 | when the progress record is cleared, what is spawned, and exactly when the flag stays up with nobody to lower it |
| `Executor.Restart` | src/storage.rs:135-200 | reload, recovery and the recovered task: it is spawned if and only if attempts are left and the merge is due; otherwise a progress under way is cleared; the flag ends down and the record is as found or its merge |
| `Executor.CrashInMerge` | src/merge/executor.rs:141-206 | a crash before, at or after any commit of a merge, then a restart: the flag is down and the record is the old one or merged exactly once; a crash in attempt k is taken up again if and only if k is below the limit and the merge is due, and cleared otherwise |
| `Storage.SurrealStorage.Append` | src/storage_raft_impl.rs:241-267 | the loop is the append of each entry in turn, delta log and applied index included |
| `Storage.SurrealStorage.Apply` | src/storage_raft_impl.rs:109-151 | the loop is the application of each entry in turn |
| `Storage.SurrealStorage.GetLogState` | src/storage_raft_impl.rs:202-216 | the purge id, and the id at the last key or the purge id |
| `Storage.SurrealStorage.TryGetLogEntries` | src/storage_raft_impl.rs:36-51 | the loop returns, in index order, exactly the entries stored between the saturated bounds |
| `Storage.SurrealStorage.LogEntries` | src/storage.rs:245-256 | the logged entries of an index range, in order |
| `Storage.SurrealStorage.ApplyDeltaEntries` | src/storage.rs:434-458 | the state is the replay of exactly the entries before the first undecodable one |
| `LogStore.OpRefines` | src/storage_raft_impl.rs:241-289 | append, truncate and purge on the map are the same operations on an offset sequence |
| `LogStore.RunRefines` | src/storage_raft_impl.rs:241-289 | over every disciplined run the map is the contiguous interval above the purge mark that the sequence describes, its last key or purge id is the sequence's last id, and no purge lowers that |
| `LogStore.LastKeyIsLastId` | src/storage_raft_impl.rs:202-216 | the reported last id is the sequence's last id or the purge id |
| `LogStore.PurgeKeepsLast` | src/storage_raft_impl.rs:281-289 | a purge keeps the last id or raises it to the purge id |
| `LogStore.PurgeRuleExact` | src/storage_raft_impl.rs:281-289 | for a log with entries, a purge keeps a refinement if and only if it does not go back |
| `LogStore.WantedHolds` | src/storage_raft_impl.rs:19-33 | the wanted range holds exactly the entries inside the bounds |
| `LogStore.ReadExact` | src/storage_raft_impl.rs:19-51 | for any map and bounds, a read is right if and only if it does not meet an entry at a saturated bound |
| `LogStore.ReadIsSlice` | src/storage_raft_impl.rs:36-51 | away from those bounds a read is the slice of the sequence |
| `StateMachine.BatchingIsInvisible` | src/storage_raft_impl.rs:109-151 | however the stream is split, the map is the fold of the Normal entries, with the last id applied and the last membership |
| `StateMachine.DeltaLogCovers` | src/storage.rs:230-242 | over every run, truncations included, the delta log never misses or garbles a Normal entry, holds exactly the indices at which one was ever appended, and is exact if and only if each of those still holds one |
| `StateMachine.BuiltDeltaExact` | src/storage.rs:265-281 | a delta built after any run holds exactly the log's Normal entries in its range if and only if no index in the range lost its Normal entry |
| `StateMachine.DeltaLogExact` | src/storage_raft_impl.rs:241-267 | in runs without truncation or overwrite the delta log is exactly the Normal entries |
| `StateMachine.TruncatedEntryStays` | src/storage_raft_impl.rs:269-279 | a run after which a truncated entry is in the delta log and in the built delta, and a follower installing that delta applies it |
| `StateMachine.MapIsReplay` | src/storage_raft_impl.rs:109-151 | over every run that appends and truncates above what is applied and applies in order, the map is the log's Normal entries replayed up to the last entry applied, and the applied index never trails it |
| `StateMachine.AppliedIndexExact` | src/storage_raft_impl.rs:241-267 | after such a run the map is the delta log replayed up to the last entry applied, and equals the replay at the applied index if and only if the entries in between change nothing |
| `StateMachine.AppendApplied` | src/storage_raft_impl.rs:241-267 | whatever the batch, append moves the applied state to its last Normal entry, if any, and leaves map, membership and purge mark alone |
| `StateMachine.RunApplied` | src/storage_raft_impl.rs:109-289 | over every run of appends, truncations, purges and applies, the applied state is the id of the last entry applied or appended as Normal |
| `StateMachine.RunFolds` | src/storage_raft_impl.rs:109-289 | over every such run, in whatever order, the map is the fold of the Normal entries applied, the membership the last one applied and the purge mark the last one set |
| `StateMachine.BatchIsLogged` | src/storage.rs:230-242 | append and apply both write every Normal entry of a batch, the last one at an index winning, and nothing else into the delta log |
| `StateMachine.AppliedMovesBack` | src/storage_raft_impl.rs:241-267 | append puts the applied index at its last Normal entry and apply moves it back to the entry applied |
| `StateMachine.AppliedEntryReplaced` | src/storage_raft_impl.rs:269-279 | truncation and a new append replace the delta-log entry at an index the applied index had reached |
| `StateMachine.InstallOutcome` | src/storage.rs:367-431 | an install succeeds if and only if it is a restoring full snapshot or a decodable delta off the applied index; every success takes the snapshot's membership and its last id, or else the last replayed one; a full install leaves map and delta log alone; a failed one changes nothing unless entries were replayed before a corrupt one; the Raft log is never touched |
| `StateMachine.InstallErrors` | src/storage.rs:367-431 | which error each refused install reports, with the two indices of a base mismatch |
| `StateMachine.FailedInstall` | src/storage.rs:434-458 | a failure at entry i leaves the replay of the first i entries, applied up to entry i-1 |
| `StateMachine.ReinstallRejected` | src/storage.rs:386-405 | after any entry was replayed, every delta off the same base is rejected unchanged, if and only if the last replayed index is not the base |
| `StateMachine.ReinstallAfterComplete` | src/storage_raft_impl.rs:173-185 | after a complete install, every delta off the same base is rejected unchanged, if and only if the snapshot's last index is not the base |
| `StateMachine.DeltaInstallExact` | src/storage_raft_impl.rs:163-190 | for any two maps, installing the source's delta makes the follower's map the log at the source's applied index if and only if it agreed with the log at the base on every key the delta leaves alone |
| `StateMachine.FollowerCatchesUp` | src/storage_raft_impl.rs:163-190 | a follower at the delta's base ends with the log at the source's applied index, its applied state and membership; its map is the source's if and only if what the source has yet to apply changes nothing |
| `StateMachine.FullInstallExact` | src/storage_raft_impl.rs:173-185 | a full install takes the source's applied id and membership without loading map or delta log; the map is right if and only if every key touched by the skipped entries already has its final value |
| `StateMachine.FullInstallLosesKey` | src/storage_raft_impl.rs:173-185 | an instance: a fresh follower is told it is at index 1 and lacks the key |
| `StateMachine.FollowerRebuildsDelta` | src/storage.rs:265-281 | after a delta install the follower can rebuild the same delta if and only if it held nothing extra in the delta's range |
| `Wire.RequestTrip` | src/types.rs:15-19 | an encoded request decodes to itself whatever follows, and is at least two bytes |
| `Wire.RequestCut` | src/types.rs:15-19 | an encoded request cut short anywhere is refused for ending too soon |
| `Wire.UnknownRequest` | src/storage.rs:434-452 | a request of an unknown kind is refused whatever follows |
| `Unicode.Utf8Exact` | src/types.rs:15-19 | a byte string counts as a string if and only if it is the encoding of some sequence of Unicode scalar values |
| `Wire.ReencodeKeepsBytes` | src/storage.rs:230-233 | decoding a stored request and encoding it again keeps the bytes |
| `Envelope.DecodeInvertsEncode` | src/snapshot.rs:116-130 | decoding inverts encoding, full and delta, and reports an undecodable delta payload |
| `Envelope.StopsAtOptionTag` | src/snapshot.rs:59-72 | the current parser stops at the option tag of a legacy delta if and only if its first payload has two bytes or more |
| `Envelope.LegacyFallsThrough` | src/snapshot.rs:132-166 | every legacy delta the current parser rejects gives back its entries, counted, at version 2 |
| `Envelope.LegacyDeltaRecovered` | src/snapshot.rs:132-166 | every legacy delta whose first payload has two bytes or more gives back its entries, counted, at version 2 |
| `Envelope.EmptyLegacyTakenAsCurrent` | src/snapshot.rs:116-130 | a legacy delta without entries is decoded as a current one and keeps its version |
| `Envelope.EmptyPayloadMisread` | src/snapshot.rs:116-130 | an instance where a legacy delta is accepted as a current one with wrong fields |
| `Envelope.UnknownFormat` | src/snapshot.rs:116-136 | an envelope of an unknown format is recognised in neither version |
| `Envelope.LegacyFullNeverReached` | src/snapshot.rs:138-148 | on every byte string the legacy parser reads as full, the current parser reads the same |
| `Chunking.SendChunks` | src/network/mod.rs:138-181 | the chunks of the calls made put together a prefix of the snapshot, at their offsets, done only at the end; the first failed or closed call ends the loop and is returned, otherwise they are the whole snapshot, as few as the size allows, and the last vote is returned |
| `Chunking.AnyArrivalOrderRebuilds` | src/network/client.rs:219-260 | a receiver writing at offsets rebuilds the snapshot in any order and with any re-sends |
| `Sequence.WriteDual` | src/snapshot/consistency.rs:119-150 | the key alone, or the manifest alone without a readable key, gives the number back; manifest layout |
| `Sequence.ResolveExact` | src/snapshot/consistency.rs:156-179 | which number is resolved in every case, and when none is: the native one, else a readable key, else a manifest of twenty bytes or more |
| `Sequence.TextKeyTrip` | src/snapshot/consistency.rs:42-60 | every 64-bit number written as decimal text, with or without a plus sign, is read back if and only if the text is not eight bytes long |
| `Sequence.TextKeyExact` | src/snapshot/consistency.rs:42-60 | a decimal-text key is read as its number if and only if it is not eight bytes long |
| `Cleanup.CleanupOldCheckpoints` | src/merge/cleanup.rs:133-166 | exactly min(n, retain) directories are left and none is older than one that went |
| `Cleanup.NewestSurvives` | src/merge/cleanup.rs:133-166 | a strictly newest directory survives when one or more are retained |
| `Cleanup.CleanupDeltaFiles` | src/merge/cleanup.rs:77-100 | exactly the named files past the age limit go, and are counted |
| `Cleanup.CleanupAfterMerge` | src/merge/executor.rs:155-171 | cleanup after a merge sees the cleared chain and removes no delta file |

## Left out

- OpenRaft consensus, elections and replication: only its calling discipline appears, as hypotheses.
- SurrealKV, zstd, tar and CRC internals, and the postcard layout of metadata records.
- Full-snapshot content, compression and restore: the Full install branch is a success or a failure that never loads the map.
- Replay claims across a process restart: the map and the logs are volatile, so they do not hold. Crash results are about votes and metadata keys.
- Concurrent savers in the metadata manager: the cache results are for one saver at a time; MergeSystem covers concurrent readers and writers at the level of whole records.
- Concurrent snapshot builds: MergeSystem has one builder.
- The clock is read twice while a checkpoint directory is created; the model takes both reads as equal, so the recorded path is the directory made. The reads of a build's decision and of a merge's trigger and start are separate.
- The `updated_at` field of the progress record, which always equals its start time.
- `MetadataOnlyMergeBackend`, which advances the record without replaying: the node always replaces it.
- The write that applies locally without logging when there is no leader.
- Errors after a merge commit (cleanup failing) and failing metadata writes.
- Connecting to the receiver before the first chunk, and what it does with the vote it is sent.
- Temporary-directory cleanup, error-code strings, HTTP, metrics, logging, configuration and shutdown: they would only add easy members.
