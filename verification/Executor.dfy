/** The merge retry loop, its crash points, and recovery after a restart. */
module Executor {
  import opened Types
  import opened Records
  import opened Policy
  import opened Metadata

  /** What one backend call gives: a checkpoint, or an error. */
  datatype Outcome = Done(size: u64, path: Option<Path>) | Error(msg: string)

  /** The backend as the loop sees it: the outcome of call number n on a record. */
  type MergeBackend = (nat, SnapshotMetaState) -> Outcome

  /** What a merge of record `rec` is, start to end, for reading the contracts below. */
  datatype Job = Job(rec: SnapshotMetaState, trigger: MergeTrigger, maxRetries: u8, started: u64)

  function Limit(maxRetries: u8): u8 { if maxRetries == 0 then 1 else maxRetries }

  /** A progress record of this job, field by field. */
  predicate Shows(p: Option<MergeProgress>, j: Job, running: bool, attempt: int, err: Option<string>) {
    && p.Some? && p.value.inProgress == running && p.value.trigger == Some(j.trigger)
    && p.value.attempt == attempt && p.value.maxRetries == j.maxRetries
    && p.value.startedAt == j.started && p.value.lastError == err
  }

  /** `out` is `rec` with its deltas folded into the checkpoint, field by field. */
  predicate Folds(rec: SnapshotMetaState, out: SnapshotMetaState, started: u64, path: Option<Path>) {
    && out.chain == [] && out.totalBytes == 0
    && (rec.checkpoint.None? ==> out.checkpoint.None?)
    && (rec.checkpoint.Some? ==>
          && out.checkpoint.Some?
          && var before, after := rec.checkpoint.value, out.checkpoint.value;
          && after.index == (if rec.chain == [] then before.index else rec.chain[|rec.chain| - 1].end)
          && after.term == before.term
          && after.sequenceNumber == Min(before.sequenceNumber + 1, U64_MAX)
          && after.createdAt == started
          && after.path == (if path.Some? then path else Some("target/checkpoints/checkpoint_" + Decimal(started))))
  }

  /** The durable state in attempt `k`, after success at attempt `k`, and after giving up: apart from the two
      keys the disk is as it was. */
  predicate AtAttempt(d: Disk, j: Job, k: int, e: Disk) {
    e == d.(progress := e.progress) && Shows(e.progress, j, true, k, None)
  }

  predicate AtSuccess(d: Disk, j: Job, k: int, path: Option<Path>, e: Disk) {
    && e == d.(snapshot := e.snapshot, progress := e.progress)
    && e.snapshot.Some? && Folds(j.rec, e.snapshot.value, j.started, path) && Shows(e.progress, j, false, k, None)
  }

  predicate AtFailure(d: Disk, j: Job, k: int, msg: string, e: Disk) {
    e == d.(progress := e.progress) && Shows(e.progress, j, false, k, Some(msg))
  }

  /** A durable state a crash can expose: the old record with a progress record of this job, or the
      merged record with the flag down. */
  predicate AllOrNothing(d: Disk, j: Job, b: MergeBackend, e: Disk) {
    || (exists k: u8 | 1 <= k <= Limit(j.maxRetries) :: AtAttempt(d, j, k, e))
    || (exists k: u8 | 1 <= k <= Limit(j.maxRetries) ::
          b(k, j.rec).Done? && AtSuccess(d, j, k, b(k, j.rec).path, e))
    || (b(Limit(j.maxRetries), j.rec).Error? &&
        AtFailure(d, j, Limit(j.maxRetries), b(Limit(j.maxRetries), j.rec).msg, e))
  }

  /** `run_merge_loop` with no other writer. `calls` is the number of backend calls made: up to the
      first success, at most max(1, maxRetries), although the attempt counter is a saturating byte.
      It commits once before each call, as that attempt, and once at the end. Success commits the
      merged record and the finished progress together; giving up leaves the record alone and keeps the
      last error; either way the flag ends down. */
  method RunMergeLoop(m: MetadataManager, b: MergeBackend, trigger: MergeTrigger, maxRetries: u8, started: u64)
    returns (merged: bool, calls: nat)
    requires m.Valid()
    modifies m
    ensures m.Valid() && !m.progress.inProgress
    ensures 1 <= calls <= Limit(maxRetries)
    ensures forall j | 1 <= j < calls :: b(j, old(m.snapshot)).Error?
    ensures merged <==> b(calls, old(m.snapshot)).Done?
    ensures !merged ==> calls == Limit(maxRetries)
    ensures var j := Job(old(m.snapshot), trigger, maxRetries, started);
            && (if merged then AtSuccess(old(m.disk), j, calls, b(calls, j.rec).path, m.disk)
                else AtFailure(old(m.disk), j, calls, b(calls, j.rec).msg, m.disk))
            && |m.commits| == |old(m.commits)| + calls + 1 && old(m.commits) <= m.commits && m.commits[|m.commits| - 1] == m.disk
            && (forall i | |old(m.commits)| <= i < |m.commits| - 1 ::
                  AtAttempt(old(m.disk), j, i - |old(m.commits)| + 1, m.commits[i]))
            && (forall i | |old(m.commits)| <= i < |m.commits| :: AllOrNothing(old(m.disk), j, b, m.commits[i]))
  {
    ghost var job := Job(m.snapshot, trigger, maxRetries, started);
    ghost var before := m.commits;
    var retries: u8 := 0;
    calls := 0;
    while true
      invariant m.Valid()
      invariant m.snapshot == old(m.snapshot) && m.disk == old(m.disk).(progress := m.disk.progress)
      invariant retries == calls < Limit(maxRetries)
      invariant forall j | 1 <= j <= calls :: b(j, old(m.snapshot)).Error?
      invariant |m.commits| == |before| + calls && before <= m.commits
      invariant forall i | |before| <= i < |m.commits| :: AtAttempt(old(m.disk), job, i - |before| + 1, m.commits[i])
      decreases 256 - calls
    {
      retries := SatInc(retries);
      m.SaveMergeProgressState(Started(trigger, retries, maxRetries, started));
      assert AtAttempt(old(m.disk), job, retries, m.disk);
      var rec := m.snapshot;
      calls := calls + 1;
      match b(calls, rec) {
        case Done(_, path) =>
          m.SaveSnapshotAndMergeState(Merged(rec, started, path), Succeeded(trigger, retries, maxRetries, started));
          return true, calls;
        case Error(msg) =>
          if retries >= maxRetries {
            m.SaveMergeProgressState(Failed(trigger, retries, maxRetries, started, msg));
            return false, calls;
          }
      }
    }
  }

  /** `recover_merge_state`: what is spawned, and the durable state it leaves. */
  method RecoverMergeState(m: MetadataManager, executor: Option<MergePolicy>, now: u64)
    returns (spawned: Option<MergeTrigger>)
    requires m.Valid()
    modifies m
    ensures m.Valid()
    // the progress record is cleared exactly when retries are used up or the merge is no longer due
    ensures m.disk ==
            if old(m.progress.inProgress) &&
               (old(m.progress.attempt >= m.progress.maxRetries) ||
                (executor.Some? && Evaluate(executor.value, old(m.snapshot), now).None?))
            then old(m.disk).(progress := Some(NoMerge)) else old(m.disk)
    // the flag stays up with nobody to lower it exactly when retries are left and there is no executor
    ensures m.progress.inProgress && spawned.None? <==>
            old(m.progress.inProgress && m.progress.attempt < m.progress.maxRetries) && executor.None?
    ensures spawned.Some? ==>
            && executor.Some? && m.disk == old(m.disk) && spawned == Evaluate(executor.value, m.snapshot, now)
            && old(m.progress.inProgress && m.progress.attempt < m.progress.maxRetries)
  {
    spawned := None;
    if !m.progress.inProgress {
      return;
    }
    if m.progress.attempt >= m.progress.maxRetries {
      m.SaveMergeProgressState(NoMerge);
      return;
    }
    if executor.Some? {
      spawned := Evaluate(executor.value, m.snapshot, now);
      if spawned.None? {
        m.SaveMergeProgressState(NoMerge);
      }
    }
  }

  /** Restart from any durable state a crash exposed, recover with an executor, and let the recovered
      task, if there is one, run. A task is spawned exactly when the exposed progress is under way with
      attempts left and the merge is still due; if it is under way and none is, it is cleared. The flag
      ends down, and the record is the one on disk or its merge. */
  method Restart(crashed: Disk, policy: MergePolicy, b: MergeBackend, maxRetries: u8, now: u64)
    returns (d: Disk, spawned: Option<MergeTrigger>)
    ensures !Or(d.progress, NoMerge).inProgress
    ensures var p, rec := Or(crashed.progress, NoMerge), Or(crashed.snapshot, NoSnapshot);
            && spawned == (if p.inProgress && p.attempt < p.maxRetries then Evaluate(policy, rec, now) else None)
            && (!p.inProgress ==> d == crashed)
            && (p.inProgress && spawned.None? ==> d == crashed.(progress := Some(MergeProgress(false, None, 0, 0, 0, None))))
            && (spawned.Some? ==>
                  var j := Job(rec, spawned.value, maxRetries, now);
                  exists k: u8 | 1 <= k <= Limit(maxRetries) ::
                    if b(k, rec).Done? then AtSuccess(crashed, j, k, b(k, rec).path, d) else AtFailure(crashed, j, k, b(k, rec).msg, d))
  {
    var m := new MetadataManager(crashed);
    m.Load();
    spawned := RecoverMergeState(m, Some(policy), now);
    if spawned.Some? {
      var merged, calls := RunMergeLoop(m, b, spawned.value, maxRetries, now);
    }
    d := m.disk;
  }

  /** A crash anywhere in a merge, before its first commit included, then a restart: the flag is down,
      and the record is the one before the merge or that record merged exactly once, by the first process
      or by the second. A crash that exposed attempt k is taken up again exactly when k was not the last
      attempt and the merge is still due, and is cleared otherwise. */
  method CrashInMerge(d: Disk, j: Job, b: MergeBackend, exposed: Disk, policy: MergePolicy, b2: MergeBackend, maxRetries: u8, now: u64)
    returns (after: Disk, spawned: Option<MergeTrigger>)
    requires j.rec == Or(d.snapshot, NoSnapshot)
    requires exposed == d || AllOrNothing(d, j, b, exposed)
    ensures !Or(after.progress, NoMerge).inProgress
    ensures exposed != d ==> after.progress.Some?
    ensures forall k: int | AtAttempt(d, j, k, exposed) ::
              && spawned == (if k < j.maxRetries then Evaluate(policy, j.rec, now) else None)
              && (spawned.None? ==> after == d.(progress := Some(MergeProgress(false, None, 0, 0, 0, None))))
    ensures var rec := Or(after.snapshot, NoSnapshot);
            || rec == j.rec
            || (exists p :: Folds(j.rec, rec, j.started, p))
            || (exists p :: Folds(j.rec, rec, now, p))
    ensures after.(snapshot := d.snapshot, progress := d.progress) == d
  {
    after, spawned := Restart(exposed, policy, b2, maxRetries, now);
  }
}
