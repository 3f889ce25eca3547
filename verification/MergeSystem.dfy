/** Log growth, snapshot builds and background merges as one transition system. Every read of the
    shared record, every file operation and every write of the record is a step of its own, and
    no lock spans a read and the write that follows it. */
module MergeSystem {
  import opened Types
  import opened Records
  import opened Ranges
  import opened Policy
  import B = Backend
  import R = Replay

  /** A checkpoint directory. `content` is what is on disk; the other fields record where it came
      from: the log index it stands for, the content and index of the full checkpoint at the root of
      its chain of merges, and how many merges lie between. */
  datatype Dir = Dir(content: R.KV, index: u64, base: R.KV, baseIndex: u64, merges: nat)

  /** How far `build_snapshot_auto` has got. */
  datatype Builder =
    | Idle
    | HasApplied(applied: u64)
    | HasRecord(applied: u64, rec: SnapshotMetaState)
    | HasEntries(applied: u64, rec: SnapshotMetaState, entries: seq<DeltaEntry>)
    | Produced(rec: SnapshotMetaState)

  /** How far an iteration of a merge task has got. */
  datatype Phase =
    | Waiting
    | Announced
    | Holding(rec: SnapshotMetaState)
    | Executed(rec: SnapshotMetaState, dir: Path)
    | Errored(msg: string)

  datatype Task = Task(trigger: MergeTrigger, startedAt: u64, attempt: u8, phase: Phase)

  datatype Config = Config(policy: MergePolicy, maxRetries: u8)

  /** The node. `horizon` is a history variable: the highest applied index any build started from. */
  datatype Node = Node(
    log: map<u64, DeltaEntry>,
    applied: u64,
    horizon: u64,
    rec: SnapshotMetaState,
    progress: MergeProgress,
    dirs: map<Path, Dir>,
    files: map<Path, seq<DeltaEntry>>,
    used: set<Path>,
    builder: Builder,
    tasks: map<nat, Task>)

  datatype Step =
    // append_log_entry: insert, then save the applied index
    | InsertLog(entry: DeltaEntry)
    | SaveApplied(index: u64)
    // build_snapshot_auto
    | ReadApplied
    | ReadRecord
    | ReadLogs
    | WriteDelta(size: u64, now: u64, file: Path)
    | WriteFull(size: u64, now: u64, term: u64, created: u64, dir: Path, content: R.KV)
    | SaveRecord
    | AbortBuild
    // spawn_if_needed and run_merge_loop
    | Spawn(id: nat, now: u64, started: u64)
    | Announce(id: nat)
    | TaskRead(id: nat)
    | Execute(id: nat, newDir: Path)
    | BackendError(id: nat, msg: string)
    | Retry(id: nat)
    | GiveUp(id: nat)
    | Commit(id: nat)
    // cleanup, or anyone else, removing artefacts
    | RemoveDir(path: Path)
    | RemoveFile(path: Path)

  function Contents(dirs: map<Path, Dir>): map<Path, R.KV> {
    map p | p in dirs :: dirs[p].content
  }

  predicate Enabled(c: Config, n: Node, s: Step) {
    match s
    case InsertLog(e) => e.payload.Valid?
    case SaveApplied(_) => true
    case ReadApplied => n.builder.Idle?
    case ReadRecord => n.builder.HasApplied?
    case ReadLogs => n.builder.HasRecord?
    case WriteDelta(size, now, file) =>
      && n.builder.HasEntries? && file !in n.used
      && ShouldBuildDelta(n.builder.rec, |n.builder.entries|, size, now)
    case WriteFull(size, now, _, _, dir, _) =>
      && n.builder.HasEntries? && dir !in n.used
      && !ShouldBuildDelta(n.builder.rec, |n.builder.entries|, size, now)
    case SaveRecord => n.builder.Produced?
    case AbortBuild => true
    case Spawn(id, now, _) => id !in n.tasks && Evaluate(c.policy, n.rec, now).Some?
    case Announce(id) => id in n.tasks && n.tasks[id].phase.Waiting?
    case TaskRead(id) => id in n.tasks && n.tasks[id].phase.Announced?
    case Execute(id, dir) =>
      && id in n.tasks && n.tasks[id].phase.Holding? && dir !in n.used
      && B.CanMerge(n.tasks[id].phase.rec, Contents(n.dirs), n.files)
    case BackendError(id, _) => id in n.tasks && n.tasks[id].phase.Holding?
    case Retry(id) => id in n.tasks && n.tasks[id].phase.Errored? && n.tasks[id].attempt < c.maxRetries
    case GiveUp(id) => id in n.tasks && n.tasks[id].phase.Errored? && n.tasks[id].attempt >= c.maxRetries
    case Commit(id) => id in n.tasks && n.tasks[id].phase.Executed?
    case RemoveDir(_) => true
    case RemoveFile(_) => true
  }

  function WithPhase(n: Node, id: nat, p: Phase): Node
    requires id in n.tasks
  {
    n.(tasks := n.tasks[id := n.tasks[id].(phase := p)])
  }

  /** The directory a merge of `rec` leaves behind. */
  function MergedDir(n: Node, rec: SnapshotMetaState): Dir
    requires B.CanMerge(rec, Contents(n.dirs), n.files)
  {
    var parent := n.dirs[B.Baseline(rec, Contents(n.dirs)).value];
    Dir(B.MergedContent(rec, Contents(n.dirs), n.files), MergeIndex(rec), parent.base, parent.baseIndex, parent.merges + 1)
  }

  function Next(c: Config, n: Node, s: Step): Node
    requires Enabled(c, n, s)
  {
    match s
    case InsertLog(e) => n.(log := n.log[e.index := e])
    case SaveApplied(i) => n.(applied := i)
    case ReadApplied => n.(builder := HasApplied(n.applied), horizon := if n.horizon < n.applied then n.applied else n.horizon)
    case ReadRecord => n.(builder := HasRecord(n.builder.applied, n.rec))
    case ReadLogs =>
      n.(builder := HasEntries(n.builder.applied, n.builder.rec,
                               Range(n.log, BuildStart(n.builder.rec), n.builder.applied)))
    case WriteDelta(size, now, file) =>
      n.(files := n.files[file := n.builder.entries],
         used := n.used + {file},
         builder := Produced(WithDelta(n.builder.rec, n.builder.entries, size, now, file)))
    case WriteFull(_, _, term, created, dir, content) =>
      n.(dirs := n.dirs[dir := Dir(content, n.builder.applied, content, n.builder.applied, 0)],
         used := n.used + {dir},
         builder := Produced(WithCheckpoint(n.builder.applied, term, created, dir)))
    case SaveRecord => n.(rec := n.builder.rec, builder := Idle)
    case AbortBuild => n.(builder := Idle)
    case Spawn(id, now, started) =>
      n.(tasks := n.tasks[id := Task(Evaluate(c.policy, n.rec, now).value, started, 0, Waiting)])
    case Announce(id) =>
      var t := n.tasks[id];
      var attempt := SatInc(t.attempt);
      n.(tasks := n.tasks[id := t.(attempt := attempt, phase := Announced)],
         progress := Started(t.trigger, attempt, c.maxRetries, t.startedAt))
    case TaskRead(id) => WithPhase(n, id, Holding(n.rec))
    case Execute(id, dir) =>
      var rec := n.tasks[id].phase.rec;
      WithPhase(n.(dirs := n.dirs[dir := MergedDir(n, rec)], used := n.used + {dir}), id, Executed(rec, dir))
    case BackendError(id, msg) => WithPhase(n, id, Errored(msg))
    case Retry(id) => WithPhase(n, id, Waiting)
    case GiveUp(id) =>
      var t := n.tasks[id];
      n.(tasks := n.tasks - {id},
         progress := Failed(t.trigger, t.attempt, c.maxRetries, t.startedAt, t.phase.msg))
    case Commit(id) =>
      var t := n.tasks[id];
      n.(tasks := n.tasks - {id},
         rec := Merged(t.phase.rec, t.startedAt, Some(t.phase.dir)),
         progress := Succeeded(t.trigger, t.attempt, c.maxRetries, t.startedAt))
    case RemoveDir(p) => n.(dirs := n.dirs - {p})
    case RemoveFile(p) => n.(files := n.files - {p})
  }

  const Initial := Node(map[], 0, 0, NoSnapshot, NoMerge, map[], map[], {}, Idle, map[])

  predicate Moves(c: Config, m: Node, s: Step, n: Node) {
    Enabled(c, m, s) && n == Next(c, m, s)
  }

  /** A behaviour of the system: states ns[0], ns[1], ... joined by the steps ss[0], ss[1], ... */
  predicate Run(c: Config, ns: seq<Node>, ss: seq<Step>) {
    && |ns| == |ss| + 1 && ns[0] == Initial
    && forall i | 0 <= i < |ss| :: Moves(c, ns[i], ss[i], ns[i + 1])
  }

  /** Every record anyone holds: the persisted one, the builder's and each task's. */
  predicate Held(n: Node, rec: SnapshotMetaState) {
    || rec == n.rec
    || ((n.builder.HasRecord? || n.builder.HasEntries? || n.builder.Produced?) && rec == n.builder.rec)
    || exists id :: id in n.tasks && (n.tasks[id].phase.Holding? || n.tasks[id].phase.Executed?)
                    && rec == n.tasks[id].phase.rec
  }

  // ---------------------------------------------------------------- what every run keeps

  /** A chained delta lies above its checkpoint and has a file name of its own. */
  predicate DeltaSane(n: Node, c: u64, d: DeltaInfo) {
    SatAdd(c, 1) <= d.start <= d.end && d.path.Some? && d.path.value in n.used
  }

  /** The directory the record's checkpoint names, while it is there, stands for the checkpoint's index;
      the record's sequence number counts the merges behind it. */
  predicate CheckpointSane(n: Node, cp: CheckpointMetadata) {
    && cp.path.Some? && cp.path.value in n.used
    && (cp.path.value in n.dirs ==>
          && n.dirs[cp.path.value].index == cp.index
          && cp.sequenceNumber == Min(n.dirs[cp.path.value].merges, U64_MAX))
  }

  predicate RecordSane(n: Node, rec: SnapshotMetaState) {
    && rec.totalBytes == Min(SumSizes(rec.chain), U64_MAX)
    && (rec.checkpoint.None? ==> rec.chain == [])
    && (rec.checkpoint.Some? ==>
          CheckpointSane(n, rec.checkpoint.value) && forall d <- rec.chain :: DeltaSane(n, rec.checkpoint.value.index, d))
  }

  predicate BuilderSane(n: Node) {
    match n.builder
    case Idle => true
    case HasApplied(_) => true
    case HasRecord(_, rec) => RecordSane(n, rec)
    case HasEntries(_, rec, es) =>
      RecordSane(n, rec) && (es != [] ==> BuildStart(rec) <= es[0].index <= es[|es| - 1].index)
    case Produced(rec) => RecordSane(n, rec)
  }

  predicate TaskSane(n: Node, t: Task) {
    match t.phase
    case Holding(rec) => RecordSane(n, rec)
    case Executed(rec, dir) =>
      && RecordSane(n, rec) && rec.checkpoint.Some? && dir in n.used
      && (dir in n.dirs ==>
            && n.dirs[dir].index == MergeIndex(rec)
            && SatAdd(rec.checkpoint.value.sequenceNumber, 1) == Min(n.dirs[dir].merges, U64_MAX))
    case _ => true
  }

  /** The persisted flag is only up while some task is between announcing an attempt and its last write. */
  predicate FlagOk(n: Node) {
    n.progress.inProgress ==> exists id :: id in n.tasks && n.tasks[id].attempt > 0
  }

  predicate Sane(n: Node) {
    && B.LogOk(n.log)
    && RecordSane(n, n.rec)
    && (forall p | p in n.dirs :: p in n.used)
    && (forall p | p in n.files :: p in n.used)
    && (forall id | id in n.tasks :: TaskSane(n, n.tasks[id]))
    && BuilderSane(n)
    && FlagOk(n)
  }

  lemma HeldSane(n: Node, rec: SnapshotMetaState)
    requires Sane(n) && Held(n, rec)
    ensures RecordSane(n, rec)
  {
    if id :| id in n.tasks && (n.tasks[id].phase.Holding? || n.tasks[id].phase.Executed?)
             && rec == n.tasks[id].phase.rec {
      assert TaskSane(n, n.tasks[id]);
    }
  }

  /** What every step does to the disk: paths are not reused, and what is still there has not changed. */
  ghost predicate DiskExtends(n: Node, m: Node) {
    && n.used <= m.used
    && (forall p | p in n.used && p in m.dirs :: p in n.dirs && n.dirs[p] == m.dirs[p])
    && (forall p | p in n.used && p in m.files :: p in n.files && n.files[p] == m.files[p])
  }

  /** The steps that write or remove a file or a directory. */
  predicate DiskStep(s: Step) { s.WriteDelta? || s.WriteFull? || s.Execute? || s.RemoveDir? || s.RemoveFile? }

  lemma DiskUntouched(c: Config, n: Node, s: Step)
    requires Enabled(c, n, s) && !DiskStep(s)
    ensures var m := Next(c, n, s); (m.used, m.dirs, m.files) == (n.used, n.dirs, n.files)
  {
  }

  lemma LogUntouched(c: Config, n: Node, s: Step)
    requires Enabled(c, n, s)
    ensures !s.InsertLog? ==> Next(c, n, s).log == n.log
    ensures !s.ReadApplied? ==> Next(c, n, s).horizon == n.horizon
  {
  }

  lemma StepExtendsDisk(c: Config, n: Node, s: Step)
    requires Sane(n) && Enabled(c, n, s)
    ensures var m := Next(c, n, s);
            DiskExtends(n, m) && B.LogOk(m.log) && (forall p | p in m.dirs :: p in m.used) && (forall p | p in m.files :: p in m.used)
  {
    LogUntouched(c, n, s);
    if !DiskStep(s) {
      DiskUntouched(c, n, s);
    }
  }

  lemma RecordSaneStable(n: Node, m: Node, rec: SnapshotMetaState)
    requires DiskExtends(n, m) && RecordSane(n, rec)
    ensures RecordSane(m, rec)
  {
    if rec.checkpoint.Some? {
      forall d | d in rec.chain ensures DeltaSane(m, rec.checkpoint.value.index, d)
      {
        assert DeltaSane(n, rec.checkpoint.value.index, d);
      }
    }
  }

  lemma TaskSaneStable(n: Node, m: Node, t: Task)
    requires DiskExtends(n, m) && TaskSane(n, t)
    ensures TaskSane(m, t)
  {
    if t.phase.Holding? || t.phase.Executed? {
      RecordSaneStable(n, m, t.phase.rec);
    }
  }

  lemma {:induction false} SumAppend(chain: seq<DeltaInfo>, d: DeltaInfo)
    ensures SumSizes(chain + [d]) == SumSizes(chain) + d.size
  {
    assert (chain + [d])[..|chain|] == chain;
  }

  /** A range ends where its last entry does. */
  lemma {:induction false} RangeTrim(log: map<u64, DeltaEntry>, lo: int, hi: int)
    requires B.LogOk(log) && Range(log, lo, hi) != []
    ensures var es := Range(log, lo, hi);
            lo <= es[0].index <= es[|es| - 1].index <= hi && es == Range(log, lo, es[|es| - 1].index)
    decreases hi - lo
  {
    if hi !in log {
      RangeTrim(log, lo, hi - 1);
    } else {
      var es := Range(log, lo, hi);
      B.RangeDecodes(log, lo, hi);
      assert es[0] in es;
    }
  }

  lemma WithDeltaSane(n: Node, rec: SnapshotMetaState, es: seq<DeltaEntry>, size: u64, now: u64, file: Path)
    requires RecordSane(n, rec) && rec.checkpoint.Some? && es != [] && file in n.used
    requires BuildStart(rec) <= es[0].index <= es[|es| - 1].index
    ensures RecordSane(n, WithDelta(rec, es, size, now, file))
  {
    SumAppend(rec.chain, WithDelta(rec, es, size, now, file).chain[|rec.chain|]);
  }

  lemma MergedSane(n: Node, t: Task)
    requires TaskSane(n, t) && t.phase.Executed?
    ensures RecordSane(n, Merged(t.phase.rec, t.startedAt, Some(t.phase.dir)))
  {
  }

  lemma RecordStaysSane(c: Config, n: Node, s: Step)
    requires Sane(n) && Enabled(c, n, s)
    ensures RecordSane(Next(c, n, s), Next(c, n, s).rec)
  {
    var m := Next(c, n, s);
    StepExtendsDisk(c, n, s);
    if s.SaveRecord? {
      RecordSaneStable(n, m, n.builder.rec);
    } else if s.Commit? {
      assert TaskSane(n, n.tasks[s.id]);
      MergedSane(n, n.tasks[s.id]);
      RecordSaneStable(n, m, m.rec);
    } else {
      RecordSaneStable(n, m, n.rec);
    }
  }

  lemma TasksStaySane(c: Config, n: Node, s: Step)
    requires Sane(n) && Enabled(c, n, s)
    ensures var m := Next(c, n, s); forall id | id in m.tasks :: TaskSane(m, m.tasks[id])
  {
    var m := Next(c, n, s);
    StepExtendsDisk(c, n, s);
    forall id | id in m.tasks ensures TaskSane(m, m.tasks[id])
    {
      if id in n.tasks {
        TaskSaneStable(n, m, n.tasks[id]);
        RecordSaneStable(n, m, n.rec);
      }
    }
  }

  /** The steps of the builder itself. */
  predicate BuilderStep(s: Step) {
    s.ReadApplied? || s.ReadRecord? || s.ReadLogs? || s.WriteDelta? || s.WriteFull? || s.SaveRecord? || s.AbortBuild?
  }

  lemma BuilderUntouched(c: Config, n: Node, s: Step)
    requires Enabled(c, n, s) && !BuilderStep(s)
    ensures Next(c, n, s).builder == n.builder
  {
  }

  lemma BuilderAdvancesSane(c: Config, n: Node, s: Step)
    requires Sane(n) && Enabled(c, n, s) && BuilderStep(s)
    ensures BuilderSane(Next(c, n, s))
  {
    var m := Next(c, n, s);
    StepExtendsDisk(c, n, s);
    match s {
      case ReadApplied =>
      case ReadRecord => RecordSaneStable(n, m, n.rec);
      case ReadLogs =>
        RecordSaneStable(n, m, n.builder.rec);
        if m.builder.entries != [] {
          RangeTrim(n.log, BuildStart(n.builder.rec), n.builder.applied);
        }
      case WriteDelta(size, now, file) =>
        RecordSaneStable(n, m, n.builder.rec);
        WithDeltaSane(m, n.builder.rec, n.builder.entries, size, now, file);
      case WriteFull(_, _, _, _, _, _) =>
      case SaveRecord =>
      case AbortBuild =>
    }
  }

  lemma BuilderStaysSane(c: Config, n: Node, s: Step)
    requires Sane(n) && Enabled(c, n, s)
    ensures BuilderSane(Next(c, n, s))
  {
    if BuilderStep(s) {
      BuilderAdvancesSane(c, n, s);
    } else {
      StepExtendsDisk(c, n, s);
      BuilderUntouched(c, n, s);
      if n.builder.HasRecord? || n.builder.HasEntries? || n.builder.Produced? {
        RecordSaneStable(n, Next(c, n, s), n.builder.rec);
      }
    }
  }

  lemma FlagKept(c: Config, n: Node, s: Step)
    requires FlagOk(n) && Enabled(c, n, s)
    ensures FlagOk(Next(c, n, s))
  {
    var m := Next(c, n, s);
    if n.progress.inProgress {
      var id :| id in n.tasks && n.tasks[id].attempt > 0;
      if id in m.tasks {
        assert m.tasks[id].attempt > 0;
      }
    }
    if s.Announce? {
      assert m.tasks[s.id].attempt > 0;
    }
  }

  lemma StepKeepsSane(c: Config, n: Node, s: Step)
    requires Sane(n) && Enabled(c, n, s)
    ensures Sane(Next(c, n, s))
  {
    StepExtendsDisk(c, n, s);
    RecordStaysSane(c, n, s);
    TasksStaySane(c, n, s);
    BuilderStaysSane(c, n, s);
    FlagKept(c, n, s);
  }

  /** Over every run at all, in every state: byte totals, paths, the index and sequence number of every
      checkpoint directory, and the progress flag are right. */
  lemma {:induction false} RunStaysSane(c: Config, ns: seq<Node>, ss: seq<Step>)
    requires Run(c, ns, ss)
    ensures forall i | 0 <= i < |ns| :: Sane(ns[i])
  {
    for i := 0 to |ss|
      invariant forall j | 0 <= j <= i :: Sane(ns[j])
    {
      assert Moves(c, ns[i], ss[i], ns[i + 1]);
      StepKeepsSane(c, ns[i], ss[i]);
    }
  }

  /** When no merge task is left, the persisted progress flag is down. */
  lemma QuietFlagIsDown(c: Config, ns: seq<Node>, ss: seq<Step>, k: nat)
    requires Run(c, ns, ss) && k < |ns| && ns[k].tasks == map[]
    ensures !ns[k].progress.inProgress
  {
    RunStaysSane(c, ns, ss);
    assert FlagOk(ns[k]);
  }
}
