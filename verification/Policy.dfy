/** When a background merge is due. */
module Policy {
  import opened Types
  import opened Records

  datatype MergePolicy = MergePolicy(maxChain: nat, maxBytes: u64, intervalSecs: u64)

  const DefaultPolicy := MergePolicy(5, 300 * 1024 * 1024, 24 * 60 * 60)

  function Evaluate(p: MergePolicy, rec: SnapshotMetaState, now: u64): Option<MergeTrigger> {
    if |rec.chain| >= p.maxChain then Some(ChainTooLong)
    else if rec.totalBytes >= p.maxBytes then Some(SizeTooLarge)
    else match rec.checkpoint
      case None => None
      case Some(cp) =>
        if SatSub(now, cp.createdAt) >= p.intervalSecs then Some(TimeWindowExpired) else None
  }

  /** `SnapshotMetaState::should_merge`, with its own constants. */
  predicate ShouldMerge(rec: SnapshotMetaState) {
    |rec.chain| >= 5 || rec.totalBytes >= 300 * 1024 * 1024
  }

  /** One build of a snapshot: a delta of some size, or a full checkpoint. */
  datatype Build =
    | Delta(entries: seq<DeltaEntry>, size: u64, at: u64, file: Path)
    | Full(index: u64, term: u64, at: u64, dir: Path)

  function AfterBuild(rec: SnapshotMetaState, b: Build): SnapshotMetaState {
    match b
    case Delta(es, size, at, file) => WithDelta(rec, es, size, at, file)
    case Full(index, term, at, dir) => WithCheckpoint(index, term, at, dir)
  }

  /** A build, then the merge it triggers, if any, run to success before the next build. */
  datatype Round = Round(build: Build, now: u64, mergedDir: Path)

  function AfterRound(p: MergePolicy, rec: SnapshotMetaState, r: Round): SnapshotMetaState {
    var built := AfterBuild(rec, r.build);
    if Evaluate(p, built, r.now).Some? then Merged(built, r.now, Some(r.mergedDir)) else built
  }

  function AfterRounds(p: MergePolicy, rec: SnapshotMetaState, rs: seq<Round>): SnapshotMetaState {
    if rs == [] then rec else AfterRound(p, AfterRounds(p, rec, rs[..|rs| - 1]), rs[|rs| - 1])
  }

  /** The sizes of the deltas still in the chain after a round: those built since the last reset. */
  function DeltasSinceReset(p: MergePolicy, rec: SnapshotMetaState, rs: seq<Round>): seq<u64> {
    if rs == [] then seq(|rec.chain|, i requires 0 <= i < |rec.chain| => rec.chain[i].size)
    else
      var r := rs[|rs| - 1];
      var before := DeltasSinceReset(p, rec, rs[..|rs| - 1]);
      var built := if r.build.Delta? then before + [r.build.size] else [];
      if Evaluate(p, AfterBuild(AfterRounds(p, rec, rs[..|rs| - 1]), r.build), r.now).Some?
      then [] else built
  }

  /** From any record, after one or more rounds the chain is shorter than the limit and its bytes
      are under the limit; and the chain always holds exactly the deltas built since it was last
      cleared, by a full build or by a merge. */
  lemma {:induction false} RoundsStayBounded(p: MergePolicy, rec: SnapshotMetaState, rs: seq<Round>)
    requires p.maxChain > 0 && p.maxBytes > 0
    ensures var after := AfterRounds(p, rec, rs);
            && (rs != [] ==> |after.chain| < p.maxChain && after.totalBytes < p.maxBytes)
            && |after.chain| == |DeltasSinceReset(p, rec, rs)|
            && forall i | 0 <= i < |after.chain| :: after.chain[i].size == DeltasSinceReset(p, rec, rs)[i]
  {
    if rs != [] {
      RoundsStayBounded(p, rec, rs[..|rs| - 1]);
    }
  }

  /** Which trigger is given, for any record: each one exactly when its own limit is reached and no earlier one
      is, and the last only when the whole interval lies between the checkpoint and now. */
  lemma TriggerExact(p: MergePolicy, rec: SnapshotMetaState, now: u64)
    ensures var long, large := |rec.chain| >= p.maxChain, rec.totalBytes >= p.maxBytes;
            var t := Evaluate(p, rec, now);
            && (t == Some(ChainTooLong) <==> long)
            && (t == Some(SizeTooLarge) <==> !long && large)
            && (t == Some(TimeWindowExpired) <==>
                && !long && !large && rec.checkpoint.Some?
                && (p.intervalSecs == 0 || now >= rec.checkpoint.value.createdAt + p.intervalSecs))
  {
  }

  /** A merged record is due again exactly when the interval has elapsed since the merge started,
      and a record with no checkpoint is never due. */
  lemma MergedRecordIsQuiet(p: MergePolicy, rec: SnapshotMetaState, started: u64, path: Option<Path>, now: u64)
    requires p.maxChain > 0 && p.maxBytes > 0
    ensures Evaluate(p, Merged(rec, started, path), now) ==
            if rec.checkpoint.Some? && SatSub(now, started) >= p.intervalSecs
            then Some(TimeWindowExpired) else None
  {
  }

  /** More deltas, more bytes or more time never withdraw a trigger or lower its priority. */
  lemma EvaluateMonotone(p: MergePolicy, a: SnapshotMetaState, b: SnapshotMetaState, s: u64, t: u64)
    requires a.checkpoint == b.checkpoint && |a.chain| <= |b.chain| && a.totalBytes <= b.totalBytes && s <= t
    ensures Evaluate(p, a, s).Some? ==> Evaluate(p, b, t).Some?
    ensures Evaluate(p, a, s) == Some(ChainTooLong) ==> Evaluate(p, b, t) == Some(ChainTooLong)
    ensures Evaluate(p, a, s) == Some(SizeTooLarge) ==> Evaluate(p, b, t) != Some(TimeWindowExpired)
  {
  }

  /** With the default thresholds the two merge predicates agree except on time. */
  lemma DefaultAgreesWithShouldMerge(rec: SnapshotMetaState, now: u64)
    ensures ShouldMerge(rec) <==> Evaluate(DefaultPolicy, rec, now) in {Some(ChainTooLong), Some(SizeTooLarge)}
  {
  }
}
