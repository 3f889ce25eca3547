/** The persisted metadata records and the edits the snapshot and merge paths make to them. */
module Records {
  import opened Types

  datatype VotingState = VotingState(currentTerm: u64, votedFor: Option<u64>)

  datatype AppliedState = AppliedState(index: u64, term: u64)

  datatype CheckpointMetadata = CheckpointMetadata(
    index: u64, term: u64, sequenceNumber: u64, createdAt: u64, path: Option<Path>)

  datatype DeltaInfo = DeltaInfo(
    start: u64, end: u64, size: u64, createdAt: u64, path: Option<Path>)

  datatype SnapshotMetaState = SnapshotMetaState(
    checkpoint: Option<CheckpointMetadata>, chain: seq<DeltaInfo>, totalBytes: u64)

  datatype MergeTrigger = ChainTooLong | SizeTooLarge | TimeWindowExpired

  datatype MergeProgress = MergeProgress(
    inProgress: bool, trigger: Option<MergeTrigger>, attempt: u8, maxRetries: u8,
    startedAt: u64, lastError: Option<string>)

  const NoVote := VotingState(0, None)
  const NothingApplied := AppliedState(0, 0)
  const NoSnapshot := SnapshotMetaState(None, [], 0)
  const NoMerge := MergeProgress(false, None, 0, 0, 0, None)

  function Started(t: MergeTrigger, attempt: u8, maxRetries: u8, now: u64): MergeProgress {
    MergeProgress(true, Some(t), attempt, maxRetries, now, None)
  }

  function Succeeded(t: MergeTrigger, attempt: u8, maxRetries: u8, startedAt: u64): MergeProgress {
    MergeProgress(false, Some(t), attempt, maxRetries, startedAt, None)
  }

  function Failed(t: MergeTrigger, attempt: u8, maxRetries: u8, startedAt: u64, err: string): MergeProgress {
    MergeProgress(false, Some(t), attempt, maxRetries, startedAt, Some(err))
  }

  const DELTA_ENTRY_THRESHOLD := 1000
  const DELTA_MAX_BYTES := 5 * 1024 * 1024
  const DELTA_MAX_AGE_SECS := 24 * 60 * 60

  /** Whether a build produces a delta; the alternative is a full checkpoint. */
  predicate ShouldBuildDelta(rec: SnapshotMetaState, entries: nat, size: u64, now: u64) {
    if rec.checkpoint.None? then false
    else if entries == 0 || size > DELTA_MAX_BYTES then false
    else entries >= DELTA_ENTRY_THRESHOLD
         || SatSub(now, rec.checkpoint.value.createdAt) <= DELTA_MAX_AGE_SECS
  }

  /** First log index a build looks at. */
  function BuildStart(rec: SnapshotMetaState): u64 {
    match rec.checkpoint
    case None => 1
    case Some(cp) => SatAdd(cp.index, 1)
  }

  /** The record after a delta build. */
  function WithDelta(rec: SnapshotMetaState, entries: seq<DeltaEntry>, size: u64, now: u64, path: Path): SnapshotMetaState
  {
    var start := if entries == [] then 0 else entries[0].index;
    var end := if entries == [] then start else entries[|entries| - 1].index;
    rec.(chain := rec.chain + [DeltaInfo(start, end, size, now, Some(path))],
         totalBytes := SatAdd(rec.totalBytes, size))
  }

  /** The record after a full build: nothing of the record before it stays. */
  function WithCheckpoint(index: u64, term: u64, now: u64, path: Path): SnapshotMetaState
  {
    SnapshotMetaState(Some(CheckpointMetadata(index, term, 0, now, Some(path))), [], 0)
  }

  /** The record a successful merge commits. */
  function Merged(rec: SnapshotMetaState, now: u64, path: Option<Path>): SnapshotMetaState
  {
    SnapshotMetaState(
      match rec.checkpoint
      case None => None
      case Some(cp) => Some(cp.(
        sequenceNumber := SatAdd(cp.sequenceNumber, 1),
        createdAt := now,
        path := if path.Some? then path else Some("target/checkpoints/checkpoint_" + Decimal(now)),
        index := if rec.chain == [] then cp.index else rec.chain[|rec.chain| - 1].end)),
      [], 0)
  }

  function Decimal(n: nat): string {
    if n < 10 then ["0123456789"[n]] else Decimal(n / 10) + ["0123456789"[n % 10]]
  }

  /** The index a merge of `rec` covers: the end of the last delta, or the checkpoint's own. */
  function MergeIndex(rec: SnapshotMetaState): u64 {
    if rec.chain != [] then rec.chain[|rec.chain| - 1].end
    else if rec.checkpoint.Some? then rec.checkpoint.value.index
    else 0
  }

  function SumSizes(chain: seq<DeltaInfo>): nat {
    if chain == [] then 0 else SumSizes(chain[..|chain| - 1]) + chain[|chain| - 1].size
  }
}
