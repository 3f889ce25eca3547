/** Where every record of the merge system comes from: each delta, checkpoint, task and progress record in any
    state of any run is traced, field by field, to the step that made it and to what that step had read. */
module Provenance {
  import opened Types
  import opened Records
  import opened Ranges
  import opened Policy
  import opened MergeSystem
  import B = Backend

  // ---------------------------------------------------------------- deltas and checkpoints

  /** Step `i` wrote delta `d` for a record with checkpoint `cp`: what the builder had read, at most 5 MiB of
      it, and 1000 entries or more unless the checkpoint was at most a day old. */
  predicate WroteDelta(ns: seq<Node>, ss: seq<Step>, i: nat, cp: CheckpointMetadata, d: DeltaInfo) {
    && i < |ss| && i < |ns| && ss[i].WriteDelta? && ns[i].builder.HasEntries?
    && ns[i].builder.rec.checkpoint == Some(cp)
    && d.size == ss[i].size && d.createdAt == ss[i].now && d.path == Some(ss[i].file)
    && var es := ns[i].builder.entries;
    && es != [] && d.start == es[0].index && d.end == es[|es| - 1].index
    && d.size <= 5_242_880 && (|es| >= 1_000 || d.createdAt - cp.createdAt <= 86_400)
  }

  /** A build that makes a full checkpoint had no checkpoint to start from, nothing to write, more than 5 MiB
      to write, or fewer than 1000 entries on a checkpoint more than a day old. */
  predicate FullWasDue(rec: SnapshotMetaState, entries: nat, size: u64, now: u64) {
    || rec.checkpoint.None? || entries == 0 || size > 5_242_880
    || (entries < 1_000 && now - rec.checkpoint.value.createdAt > 86_400)
  }

  /** Step `i` made this full checkpoint at the applied index the builder had read. */
  predicate WroteFull(ns: seq<Node>, ss: seq<Step>, i: nat, cp: CheckpointMetadata) {
    && i < |ss| && i < |ns| && ss[i].WriteFull? && ns[i].builder.HasEntries?
    && cp.index == ns[i].builder.applied && cp.term == ss[i].term && cp.createdAt == ss[i].created
    && cp.path == Some(ss[i].dir) && cp.sequenceNumber == 0
    && FullWasDue(ns[i].builder.rec, |ns[i].builder.entries|, ss[i].size, ss[i].now)
  }

  /** Step `i` committed this checkpoint as the merge of the record a task had read: at the end of its last
      delta, with the term it had, dated when the task started. */
  predicate CommittedMerge(ns: seq<Node>, ss: seq<Step>, i: nat, cp: CheckpointMetadata) {
    && i < |ss| && i < |ns| && ss[i].Commit? && ss[i].id in ns[i].tasks && ns[i].tasks[ss[i].id].phase.Executed?
    && var t := ns[i].tasks[ss[i].id];
    && var rec := t.phase.rec;
    && rec.checkpoint.Some? && cp.term == rec.checkpoint.value.term
    && cp.index == (if rec.chain == [] then rec.checkpoint.value.index else rec.chain[|rec.chain| - 1].end)
    && cp.sequenceNumber == Min(rec.checkpoint.value.sequenceNumber + 1, U64_MAX)
    && cp.createdAt == t.startedAt && cp.path == Some(t.phase.dir)
  }

  predicate CheckpointTraced(ns: seq<Node>, ss: seq<Step>, k: nat, cp: CheckpointMetadata) {
    && (exists i: nat :: i < k && (WroteFull(ns, ss, i, cp) || CommittedMerge(ns, ss, i, cp)))
    && (exists i: nat :: i < k && i < |ss| && ss[i].WriteFull? && ss[i].term == cp.term)
  }

  predicate DeltaTraced(ns: seq<Node>, ss: seq<Step>, k: nat, cp: CheckpointMetadata, d: DeltaInfo) {
    exists i: nat :: i < k && WroteDelta(ns, ss, i, cp, d)
  }

  /** The checkpoint and every delta of a record were made by steps before `k`. */
  predicate Traced(ns: seq<Node>, ss: seq<Step>, k: nat, rec: SnapshotMetaState) {
    rec.checkpoint.Some? ==>
      && CheckpointTraced(ns, ss, k, rec.checkpoint.value)
      && forall d <- rec.chain :: DeltaTraced(ns, ss, k, rec.checkpoint.value, d)
  }

  lemma TracedLater(ns: seq<Node>, ss: seq<Step>, k: nat, rec: SnapshotMetaState)
    requires Traced(ns, ss, k, rec)
    ensures Traced(ns, ss, k + 1, rec)
  {
    if rec.checkpoint.Some? {
      forall d | d in rec.chain ensures DeltaTraced(ns, ss, k + 1, rec.checkpoint.value, d)
      {
        assert DeltaTraced(ns, ss, k, rec.checkpoint.value, d);
      }
    }
  }

  /** A record nobody held before a step is the one the step makes. */
  lemma HeldStep(c: Config, n: Node, s: Step, rec: SnapshotMetaState)
    requires Enabled(c, n, s) && Held(Next(c, n, s), rec) && !Held(n, rec)
    ensures s.WriteDelta? || s.WriteFull? || s.Commit?
    ensures s.WriteDelta? ==> rec == WithDelta(n.builder.rec, n.builder.entries, s.size, s.now, s.file)
    ensures s.WriteFull? ==> rec == WithCheckpoint(n.builder.applied, s.term, s.created, s.dir)
    ensures s.Commit? ==> rec == Merged(n.tasks[s.id].phase.rec, n.tasks[s.id].startedAt, Some(n.tasks[s.id].phase.dir))
  {
  }

  lemma DeltaIsTraced(c: Config, ns: seq<Node>, ss: seq<Step>, k: nat)
    requires k < |ss| && k < |ns| && Enabled(c, ns[k], ss[k]) && ss[k].WriteDelta? && Traced(ns, ss, k, ns[k].builder.rec)
    ensures Traced(ns, ss, k + 1, WithDelta(ns[k].builder.rec, ns[k].builder.entries, ss[k].size, ss[k].now, ss[k].file))
  {
    var before := ns[k].builder.rec;
    var rec := WithDelta(before, ns[k].builder.entries, ss[k].size, ss[k].now, ss[k].file);
    TracedLater(ns, ss, k, before);
    forall d | d in rec.chain ensures DeltaTraced(ns, ss, k + 1, rec.checkpoint.value, d)
    {
      if d !in before.chain {
        assert WroteDelta(ns, ss, k, rec.checkpoint.value, d);
      }
    }
  }

  lemma FullIsTraced(c: Config, ns: seq<Node>, ss: seq<Step>, k: nat)
    requires k < |ss| && k < |ns| && Enabled(c, ns[k], ss[k]) && ss[k].WriteFull?
    ensures Traced(ns, ss, k + 1, WithCheckpoint(ns[k].builder.applied, ss[k].term, ss[k].created, ss[k].dir))
  {
    var rec := WithCheckpoint(ns[k].builder.applied, ss[k].term, ss[k].created, ss[k].dir);
    assert WroteFull(ns, ss, k, rec.checkpoint.value);
  }

  lemma MergeIsTraced(c: Config, ns: seq<Node>, ss: seq<Step>, k: nat)
    requires k < |ss| && k < |ns| && Enabled(c, ns[k], ss[k]) && ss[k].Commit?
    requires TaskSane(ns[k], ns[k].tasks[ss[k].id]) && Traced(ns, ss, k, ns[k].tasks[ss[k].id].phase.rec)
    ensures var t := ns[k].tasks[ss[k].id];
            Traced(ns, ss, k + 1, Merged(t.phase.rec, t.startedAt, Some(t.phase.dir)))
  {
    var t := ns[k].tasks[ss[k].id];
    assert CommittedMerge(ns, ss, k, Merged(t.phase.rec, t.startedAt, Some(t.phase.dir)).checkpoint.value);
    assert CheckpointTraced(ns, ss, k, t.phase.rec.checkpoint.value);
  }

  ghost predicate AllTraced(ns: seq<Node>, ss: seq<Step>, k: nat)
    requires k < |ns|
  {
    forall rec | Held(ns[k], rec) :: Traced(ns, ss, k, rec)
  }

  lemma StepKeepsTraced(c: Config, ns: seq<Node>, ss: seq<Step>, k: nat)
    requires k < |ss| && |ns| == |ss| + 1 && Moves(c, ns[k], ss[k], ns[k + 1]) && Sane(ns[k]) && AllTraced(ns, ss, k)
    ensures AllTraced(ns, ss, k + 1)
  {
    var n, s, m := ns[k], ss[k], ns[k + 1];
    forall rec | Held(m, rec) ensures Traced(ns, ss, k + 1, rec)
    {
      if Held(n, rec) {
        TracedLater(ns, ss, k, rec);
      } else {
        HeldStep(c, n, s, rec);
        if s.WriteDelta? {
          assert Held(n, n.builder.rec);
          DeltaIsTraced(c, ns, ss, k);
        } else if s.WriteFull? {
          FullIsTraced(c, ns, ss, k);
        } else {
          assert Held(n, n.tasks[s.id].phase.rec) && TaskSane(n, n.tasks[s.id]);
          MergeIsTraced(c, ns, ss, k);
        }
      }
    }
  }

  lemma {:induction false} RunIsTraced(c: Config, ns: seq<Node>, ss: seq<Step>, k: nat)
    requires Run(c, ns, ss) && k < |ns|
    ensures AllTraced(ns, ss, k)
  {
    RunStaysSane(c, ns, ss);
    for i := 0 to k
      invariant AllTraced(ns, ss, i)
    {
      assert Moves(c, ns[i], ss[i], ns[i + 1]);
      StepKeepsTraced(c, ns, ss, i);
    }
  }

  lemma {:induction false} SumBounded(chain: seq<DeltaInfo>, bound: nat)
    requires forall d <- chain :: d.size <= bound
    ensures SumSizes(chain) <= bound * |chain|
  {
    if chain != [] {
      assert chain[|chain| - 1] in chain;
      SumBounded(chain[..|chain| - 1], bound);
    }
  }

  /** In every state of every run, every record anyone holds was made by the steps of the run: each delta by a
      write within the limits on size, number and age; the checkpoint by a full build that was due, or by the
      commit of a merge; its term by the full build at its root. So the chain is never over 5 MiB a delta. */
  lemma EveryRecordTraced(c: Config, ns: seq<Node>, ss: seq<Step>, k: nat, rec: SnapshotMetaState)
    requires Run(c, ns, ss) && k < |ns| && Held(ns[k], rec)
    ensures Traced(ns, ss, k, rec)
    ensures forall d <- rec.chain :: d.size <= 5_242_880
    ensures rec.totalBytes <= 5_242_880 * |rec.chain|
  {
    RunIsTraced(c, ns, ss, k);
    RunStaysSane(c, ns, ss);
    HeldSane(ns[k], rec);
    forall d | d in rec.chain ensures d.size <= 5_242_880
    {
      assert DeltaTraced(ns, ss, k, rec.checkpoint.value, d);
    }
    SumBounded(rec.chain, 5_242_880);
  }

  /** The content at the root of a directory, and its index, are those of a full build of the run; a directory that
      is not merged is that build's. */
  predicate RootFrom(ns: seq<Node>, ss: seq<Step>, i: nat, p: Path, d: Dir) {
    && i < |ss| && i < |ns| && ss[i].WriteFull? && ns[i].builder.HasEntries?
    && d.base == ss[i].content && d.baseIndex == ns[i].builder.applied
    && (d.merges == 0 ==> p == ss[i].dir && d.content == d.base && d.index == d.baseIndex)
  }

  predicate DirTraced(ns: seq<Node>, ss: seq<Step>, k: nat, p: Path, d: Dir) {
    exists i: nat :: i < k && RootFrom(ns, ss, i, p, d)
  }

  lemma StepKeepsDirTraced(c: Config, ns: seq<Node>, ss: seq<Step>, k: nat, p: Path)
    requires k < |ss| && |ns| == |ss| + 1 && Moves(c, ns[k], ss[k], ns[k + 1]) && Sane(ns[k]) && p in ns[k + 1].dirs
    requires forall q | q in ns[k].dirs :: DirTraced(ns, ss, k, q, ns[k].dirs[q])
    ensures DirTraced(ns, ss, k + 1, p, ns[k + 1].dirs[p])
  {
    var n, s := ns[k], ss[k];
    StepExtendsDisk(c, n, s);
    if p in n.used {
      assert DirTraced(ns, ss, k, p, n.dirs[p]);
    } else if s.Execute? {
      var q := B.Baseline(n.tasks[s.id].phase.rec, Contents(n.dirs)).value;
      assert DirTraced(ns, ss, k, q, n.dirs[q]);
      var i: nat :| i < k && RootFrom(ns, ss, i, q, n.dirs[q]);
      assert RootFrom(ns, ss, i, p, ns[k + 1].dirs[p]);
    } else {
      NewDir(c, n, s, p);
      assert RootFrom(ns, ss, k, p, ns[k + 1].dirs[p]);
    }
  }

  lemma NewDir(c: Config, n: Node, s: Step, p: Path)
    requires Enabled(c, n, s) && !s.Execute? && p in Next(c, n, s).dirs && p !in n.dirs
    ensures s.WriteFull? && s.dir == p
  {
  }

  /** In every state of every run, every directory goes back to a full build of the run. */
  lemma {:induction false} EveryDirTraced(c: Config, ns: seq<Node>, ss: seq<Step>, k: nat)
    requires Run(c, ns, ss) && k < |ns|
    ensures forall p | p in ns[k].dirs :: DirTraced(ns, ss, k, p, ns[k].dirs[p])
  {
    RunStaysSane(c, ns, ss);
    for i := 0 to k
      invariant forall p | p in ns[i].dirs :: DirTraced(ns, ss, i, p, ns[i].dirs[p])
    {
      assert Moves(c, ns[i], ss[i], ns[i + 1]);
      var m := ns[i + 1];
      forall p | p in m.dirs { StepKeepsDirTraced(c, ns, ss, i, p); }
    }
  }

  // ---------------------------------------------------------------- builds

  /** The steps that end a build. */
  predicate EndsBuild(s: Step) { s.SaveRecord? || s.AbortBuild? }

  /** The index after the checkpoint's, or 1 without a checkpoint. */
  function FirstIndex(rec: SnapshotMetaState): int {
    if rec.checkpoint.None? then 1 else Min(rec.checkpoint.value.index + 1, U64_MAX)
  }

  /** The build under way began at step `i` and has not ended: it holds the applied index of that moment, the record
      of step `j` and the log of step `l`, each as it was then. */
  predicate BuildTrace(ns: seq<Node>, ss: seq<Step>, k: nat, b: Builder, i: nat, j: nat, l: nat) {
    && i < k <= |ss| && k < |ns| && ss[i].ReadApplied? && (forall x: nat | i <= x < k :: !EndsBuild(ss[x]))
    && (b.HasApplied? || b.HasRecord? || b.HasEntries? ==> b.applied == ns[i].applied)
    && (b.HasRecord? || b.HasEntries? ==> i < j < k && ss[j].ReadRecord? && b.rec == ns[j].rec)
    && (b.HasEntries? ==> j < l < k && ss[l].ReadLogs? && b.entries == Range(ns[l].log, FirstIndex(b.rec), b.applied))
  }

  ghost predicate BuilderTraced(ns: seq<Node>, ss: seq<Step>, k: nat)
    requires k < |ns|
  {
    !ns[k].builder.Idle? ==> exists i: nat, j: nat, l: nat :: BuildTrace(ns, ss, k, ns[k].builder, i, j, l)
  }

  lemma StepKeepsBuilderTraced(c: Config, ns: seq<Node>, ss: seq<Step>, k: nat)
    requires k < |ss| && |ns| == |ss| + 1 && Moves(c, ns[k], ss[k], ns[k + 1]) && BuilderTraced(ns, ss, k)
    ensures BuilderTraced(ns, ss, k + 1)
  {
    var s, b := ss[k], ns[k + 1].builder;
    if !b.Idle? {
      if s.ReadApplied? {
        assert BuildTrace(ns, ss, k + 1, b, k, 0, 0);
      } else {
        if !BuilderStep(s) {
          BuilderUntouched(c, ns[k], s);
        }
        var i: nat, j: nat, l: nat :| BuildTrace(ns, ss, k, ns[k].builder, i, j, l);
        assert BuildTrace(ns, ss, k + 1, b, i, if s.ReadRecord? then k else j, if s.ReadLogs? then k else l);
      }
    }
  }

  /** In every state of every run, a build holds what it read, at three moments in this order, and is over once it
      saved its record or gave up. */
  lemma {:induction false} EveryBuildTraced(c: Config, ns: seq<Node>, ss: seq<Step>, k: nat)
    requires Run(c, ns, ss) && k < |ns|
    ensures BuilderTraced(ns, ss, k)
  {
    for i := 0 to k
      invariant BuilderTraced(ns, ss, i)
    {
      assert Moves(c, ns[i], ss[i], ns[i + 1]);
      StepKeepsBuilderTraced(c, ns, ss, i);
    }
  }

  /** A path that was used and is gone is never there again; so a record that names it cannot be merged. */
  lemma {:induction false} RemovedForGood(c: Config, ns: seq<Node>, ss: seq<Step>, j: nat, k: nat, p: Path)
    requires Run(c, ns, ss) && j < k < |ns| && (ss[j] == RemoveDir(p) || ss[j] == RemoveFile(p)) && p in ns[j].used
    ensures ss[j] == RemoveDir(p) ==> p !in ns[k].dirs
    ensures ss[j] == RemoveFile(p) ==> p !in ns[k].files
    ensures forall rec | Names(rec, p, ss[j].RemoveDir?) :: !B.CanMerge(rec, Contents(ns[k].dirs), ns[k].files)
  {
    RunStaysSane(c, ns, ss);
    assert Moves(c, ns[j], ss[j], ns[j + 1]);
    for i := j + 1 to k
      invariant p in ns[i].used && (if ss[j].RemoveDir? then p !in ns[i].dirs else p !in ns[i].files)
    {
      assert Moves(c, ns[i], ss[i], ns[i + 1]);
      StepExtendsDisk(c, ns[i], ss[i]);
    }
    forall rec | Names(rec, p, ss[j].RemoveDir?) ensures !B.CanMerge(rec, Contents(ns[k].dirs), ns[k].files)
    {
    }
  }

  /** The record names the path, as its checkpoint directory or as a delta file. */
  predicate Names(rec: SnapshotMetaState, p: Path, dir: bool) {
    if dir then rec.checkpoint.Some? && rec.checkpoint.value.path == Some(p) else p in B.Named(rec.chain)
  }

  // ---------------------------------------------------------------- tasks and progress

  /** How often the task `id` announced an attempt in the steps from `lo` up to `hi`. */
  function Announced(ss: seq<Step>, id: nat, lo: nat, hi: nat): nat
    requires lo <= hi <= |ss|
  {
    if lo == hi then 0 else Announced(ss, id, lo, hi - 1) + if ss[hi - 1] == Announce(id) then 1 else 0
  }

  /** How often a backend call of the task failed in the steps from `lo` up to `hi`. */
  function Failures(ss: seq<Step>, id: nat, lo: nat, hi: nat): nat
    requires lo <= hi <= |ss|
  {
    if lo == hi then 0
    else Failures(ss, id, lo, hi - 1) + if ss[hi - 1].BackendError? && ss[hi - 1].id == id then 1 else 0
  }

  /** The steps that end a task. */
  predicate EndsTask(s: Step, id: nat) { s == GiveUp(id) || s == Commit(id) }

  /** Step `i` spawned the task, which has not ended since: the policy called for it then; it has announced as many
      attempts as it counts, and each of them has failed but for the one under way. */
  predicate SpawnedBy(c: Config, ns: seq<Node>, ss: seq<Step>, i: nat, k: nat, id: nat, t: Task) {
    && i < k <= |ss| && k < |ns| && ss[i].Spawn? && ss[i].id == id && ss[i].started == t.startedAt
    && Evaluate(c.policy, ns[i].rec, ss[i].now) == Some(t.trigger)
    && (forall x: nat | i < x < k :: !EndsTask(ss[x], id))
    && t.attempt == Announced(ss, id, i + 1, k)
    && Failures(ss, id, i + 1, k) == t.attempt - Open(t)
  }

  /** A task tries at most max(1, maxRetries) times. */
  predicate AttemptOk(c: Config, t: Task) {
    var limit := if c.maxRetries == 0 then 1 else c.maxRetries;
    if t.phase.Waiting? then t.attempt < limit else 1 <= t.attempt <= limit
  }

  predicate TaskTraced(c: Config, ns: seq<Node>, ss: seq<Step>, k: nat, id: nat, t: Task) {
    && AttemptOk(c, t)
    && (exists i: nat :: i < k && SpawnedBy(c, ns, ss, i, k, id, t))
    && (t.phase.Errored? ==> exists i: nat :: i < k && i < |ss| && ss[i] == BackendError(id, t.phase.msg))
  }

  predicate TasksTraced(c: Config, ns: seq<Node>, ss: seq<Step>, k: nat)
    requires k < |ns|
  {
    forall id | id in ns[k].tasks :: TaskTraced(c, ns, ss, k, id, ns[k].tasks[id])
  }

  /** Whether an attempt of the task is under way. */
  function Open(t: Task): int { if t.phase.Waiting? || t.phase.Errored? then 0 else 1 }

  lemma NewTask(c: Config, n: Node, s: Step, id: nat)
    requires Enabled(c, n, s) && id in Next(c, n, s).tasks && id !in n.tasks
    ensures s.Spawn? && s.id == id
    ensures Next(c, n, s).tasks[id] == Task(Evaluate(c.policy, n.rec, s.now).value, s.started, 0, Waiting)
  {
  }

  lemma TaskKeeps(c: Config, n: Node, s: Step, id: nat)
    requires Enabled(c, n, s) && id in Next(c, n, s).tasks && id in n.tasks
    ensures var t, u := n.tasks[id], Next(c, n, s).tasks[id];
            && (u.trigger, u.startedAt) == (t.trigger, t.startedAt)
            && u.attempt == (if s == Announce(id) then Min(t.attempt + 1, 255) else t.attempt)
            && !EndsTask(s, id)
  {
  }

  lemma PhaseStep(c: Config, n: Node, s: Step, id: nat)
    requires Enabled(c, n, s) && id in Next(c, n, s).tasks && id in n.tasks
    ensures var t, u := n.tasks[id], Next(c, n, s).tasks[id];
            && (AttemptOk(c, t) ==> AttemptOk(c, u))
            && (u.phase.Errored? ==> u.phase == t.phase || s == BackendError(id, u.phase.msg))
            && Open(u) - Open(t) == (if s == Announce(id) then 1 else 0) - (if s.BackendError? && s.id == id then 1 else 0)
  {
  }

  lemma SpawnedLater(c: Config, ns: seq<Node>, ss: seq<Step>, i: nat, k: nat, id: nat)
    requires k < |ss| && |ns| == |ss| + 1 && Moves(c, ns[k], ss[k], ns[k + 1]) && id in ns[k].tasks && id in ns[k + 1].tasks
    requires SpawnedBy(c, ns, ss, i, k, id, ns[k].tasks[id]) && AttemptOk(c, ns[k].tasks[id])
    ensures SpawnedBy(c, ns, ss, i, k + 1, id, ns[k + 1].tasks[id])
  {
    TaskKeeps(c, ns[k], ss[k], id);
    PhaseStep(c, ns[k], ss[k], id);
  }

  lemma StepKeepsTasksTraced(c: Config, ns: seq<Node>, ss: seq<Step>, k: nat, id: nat)
    requires k < |ss| && |ns| == |ss| + 1 && Moves(c, ns[k], ss[k], ns[k + 1])
    requires id in ns[k + 1].tasks && (id in ns[k].tasks ==> TaskTraced(c, ns, ss, k, id, ns[k].tasks[id]))
    ensures TaskTraced(c, ns, ss, k + 1, id, ns[k + 1].tasks[id])
  {
    if id in ns[k].tasks {
      PhaseStep(c, ns[k], ss[k], id);
      var i: nat :| i < k && SpawnedBy(c, ns, ss, i, k, id, ns[k].tasks[id]);
      SpawnedLater(c, ns, ss, i, k, id);
    } else {
      NewTask(c, ns[k], ss[k], id);
      assert SpawnedBy(c, ns, ss, k, k + 1, id, ns[k + 1].tasks[id]);
    }
  }

  /** The steps that write the progress record. */
  predicate SetsProgress(s: Step) { s.Announce? || s.GiveUp? || s.Commit? }

  /** Step `i` left this progress record, for the task that took it. */
  predicate ProgressFrom(c: Config, ns: seq<Node>, ss: seq<Step>, i: nat, p: MergeProgress) {
    && i < |ss| && i < |ns| && SetsProgress(ss[i]) && ss[i].id in ns[i].tasks
    && var t := ns[i].tasks[ss[i].id];
    && p.trigger == Some(t.trigger) && p.maxRetries == c.maxRetries && p.startedAt == t.startedAt
    && (p.inProgress <==> ss[i].Announce?)
    && p.attempt == (if ss[i].Announce? then Min(t.attempt + 1, 255) else t.attempt)
    && p.lastError == (if ss[i].GiveUp? && t.phase.Errored? then Some(t.phase.msg) else None)
    && (ss[i].GiveUp? ==> p.attempt >= c.maxRetries && p.lastError.Some?)
  }

  /** Nothing has been announced, or the last step that wrote the progress record left this one. */
  predicate ProgressTraced(c: Config, ns: seq<Node>, ss: seq<Step>, k: nat)
    requires k < |ns| && k <= |ss|
  {
    || (ns[k].progress == MergeProgress(false, None, 0, 0, 0, None) && forall j: nat | j < k :: !SetsProgress(ss[j]))
    || (exists i: nat :: i < k && ProgressFrom(c, ns, ss, i, ns[k].progress) && forall j: nat | i < j < k :: !SetsProgress(ss[j]))
  }

  lemma StepKeepsProgressTraced(c: Config, ns: seq<Node>, ss: seq<Step>, k: nat)
    requires k < |ss| && |ns| == |ss| + 1 && Moves(c, ns[k], ss[k], ns[k + 1]) && ProgressTraced(c, ns, ss, k)
    ensures ProgressTraced(c, ns, ss, k + 1)
  {
    if SetsProgress(ss[k]) {
      assert ProgressFrom(c, ns, ss, k, ns[k + 1].progress);
    } else {
      ProgressUntouched(c, ns[k], ss[k]);
    }
  }

  lemma ProgressUntouched(c: Config, n: Node, s: Step)
    requires Enabled(c, n, s) && !SetsProgress(s)
    ensures Next(c, n, s).progress == n.progress
  {
  }

  /** In every state of every run, with any number of tasks at once: each task was spawned when the policy called
      for it and counts its attempts, of which there are at most max(1, maxRetries); and the progress
      record is what the last task to write it left, or none was ever written. */
  lemma {:induction false} EveryTaskTraced(c: Config, ns: seq<Node>, ss: seq<Step>, k: nat)
    requires Run(c, ns, ss) && k < |ns|
    ensures TasksTraced(c, ns, ss, k) && ProgressTraced(c, ns, ss, k)
  {
    for i := 0 to k
      invariant TasksTraced(c, ns, ss, i) && ProgressTraced(c, ns, ss, i)
    {
      assert Moves(c, ns[i], ss[i], ns[i + 1]);
      var m := ns[i + 1];
      forall id | id in m.tasks { StepKeepsTasksTraced(c, ns, ss, i, id); }
      StepKeepsProgressTraced(c, ns, ss, i);
    }
  }
}
