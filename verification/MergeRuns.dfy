/** What the runs of the merge system keep when nothing a build has read is rewritten, and when builds moreover
    start no lower than the ones before them. */
module MergeRuns {
  import opened Types
  import opened Records
  import opened Ranges
  import opened MergeSystem
  import B = Backend
  import R = Replay

  // ---------------------------------------------------------------- the calling discipline

  /** Nothing at or below the horizon changes, and a build starts below the point where `index + 1`
      saturates. The applied index may move up and down. */
  predicate StableLog(n: Node, s: Step) {
    match s
    case InsertLog(e) => n.horizon < e.index || (e.index in n.log && n.log[e.index] == e)
    case ReadApplied => n.applied < U64_MAX
    case _ => true
  }

  /** A build starts no lower than the builds before it. */
  predicate Rising(n: Node, s: Step) { s.ReadApplied? ==> n.horizon <= n.applied }

  predicate StableRun(c: Config, ns: seq<Node>, ss: seq<Step>) {
    Run(c, ns, ss) && forall i | 0 <= i < |ss| :: StableLog(ns[i], ss[i])
  }

  predicate RisingRun(c: Config, ns: seq<Node>, ss: seq<Step>) {
    StableRun(c, ns, ss) && forall i | 0 <= i < |ss| :: Rising(ns[i], ss[i])
  }

  // ---------------------------------------------------------------- slices of the log

  /** The logged entries in (c, e]. */
  function Slice(n: Node, c: int, e: int): seq<DeltaEntry> { Range(n.log, c + 1, e) }

  function SliceRequests(n: Node, c: int, e: int): seq<KVRequest>
    requires B.LogOk(n.log)
  {
    B.RangeDecodes(n.log, c + 1, e);
    B.Requests(Slice(n, c, e))
  }

  lemma SliceSplit(n: Node, c: int, mid: int, e: int)
    requires B.LogOk(n.log) && c <= mid <= e
    ensures SliceRequests(n, c, e) == SliceRequests(n, c, mid) + SliceRequests(n, mid, e)
  {
    RangeSplit(n.log, c + 1, mid, e);
  }

  /** A chained delta is exactly the log in (c, end], with its first and last index. */
  predicate DeltaSliced(n: Node, c: u64, d: DeltaInfo) {
    && d.end <= n.horizon
    && var es := Slice(n, c, d.end);
    && es != [] && es[0].index == d.start && es[|es| - 1].index == d.end
    && (d.path.Some? && d.path.value in n.files ==> n.files[d.path.value] == es)
  }

  predicate RecordSliced(n: Node, rec: SnapshotMetaState) {
    rec.checkpoint.Some? ==>
      rec.checkpoint.value.index <= n.horizon && forall d <- rec.chain :: DeltaSliced(n, rec.checkpoint.value.index, d)
  }

  predicate BuilderSliced(n: Node) {
    match n.builder
    case Idle => true
    case HasApplied(a) => a <= n.horizon
    case HasRecord(a, rec) => a <= n.horizon && RecordSliced(n, rec)
    case HasEntries(a, rec, es) => a <= n.horizon && RecordSliced(n, rec) && es == Range(n.log, BuildStart(rec), a)
    case Produced(rec) => RecordSliced(n, rec)
  }

  predicate TaskSliced(n: Node, t: Task) {
    t.phase.Holding? || t.phase.Executed? ==> RecordSliced(n, t.phase.rec)
  }

  predicate Sliced(n: Node) {
    && n.horizon < U64_MAX
    && RecordSliced(n, n.rec)
    && (forall id | id in n.tasks :: TaskSliced(n, n.tasks[id]))
    && BuilderSliced(n)
  }

  /** What every step leaves alone while the log is stable. */
  ghost predicate Extends(n: Node, m: Node) {
    && DiskExtends(n, m)
    && n.horizon <= m.horizon
    && (forall i | i <= n.horizon :: (i in n.log <==> i in m.log) && (i in n.log ==> n.log[i] == m.log[i]))
  }

  lemma StepExtends(c: Config, n: Node, s: Step)
    requires Sane(n) && Enabled(c, n, s) && StableLog(n, s)
    ensures Extends(n, Next(c, n, s)) && B.LogOk(Next(c, n, s).log)
  {
    StepExtendsDisk(c, n, s);
    LogUntouched(c, n, s);
  }

  lemma SliceStable(n: Node, m: Node, c: int, e: int)
    requires Extends(n, m) && e <= n.horizon
    ensures Slice(n, c, e) == Slice(m, c, e)
  {
    RangeFrame(n.log, m.log, c + 1, e);
  }

  lemma RecordSlicedStable(n: Node, m: Node, rec: SnapshotMetaState)
    requires Extends(n, m) && RecordSane(n, rec) && RecordSliced(n, rec)
    ensures RecordSliced(m, rec)
  {
    if rec.checkpoint.Some? {
      var c := rec.checkpoint.value.index;
      forall d | d in rec.chain ensures DeltaSliced(m, c, d)
      {
        assert DeltaSane(n, c, d) && DeltaSliced(n, c, d);
        SliceStable(n, m, c, d.end);
      }
    }
  }

  /** A delta build on a sliced record makes a sliced record. */
  lemma DeltaBuild(n: Node, m: Node, size: u64, now: u64, file: Path)
    requires Sane(n) && Sliced(n) && n.builder.HasEntries? && file !in n.used
    requires ShouldBuildDelta(n.builder.rec, |n.builder.entries|, size, now)
    requires Extends(n, m) && B.LogOk(m.log) && file in m.used && file in m.files && m.files[file] == n.builder.entries
    ensures RecordSane(m, WithDelta(n.builder.rec, n.builder.entries, size, now, file))
    ensures RecordSliced(m, WithDelta(n.builder.rec, n.builder.entries, size, now, file))
  {
    var rec, es, a := n.builder.rec, n.builder.entries, n.builder.applied;
    var c := rec.checkpoint.value.index;
    RecordSaneStable(n, m, rec);
    WithDeltaSane(m, rec, es, size, now, file);
    RecordSlicedStable(n, m, rec);
    RangeTrim(n.log, c + 1, a);
    SliceStable(n, m, c, es[|es| - 1].index);
    assert DeltaSliced(m, c, WithDelta(rec, es, size, now, file).chain[|rec.chain|]);
  }

  lemma MergedSliced(n: Node, t: Task)
    requires TaskSane(n, t) && TaskSliced(n, t) && t.phase.Executed?
    ensures RecordSliced(n, Merged(t.phase.rec, t.startedAt, Some(t.phase.dir)))
  {
    var rec := t.phase.rec;
    if rec.chain != [] {
      var d := rec.chain[|rec.chain| - 1];
      assert d in rec.chain && DeltaSliced(n, rec.checkpoint.value.index, d);
    }
  }

  lemma RecordStaysSliced(c: Config, n: Node, s: Step)
    requires Sane(n) && Sliced(n) && Enabled(c, n, s) && StableLog(n, s)
    ensures RecordSliced(Next(c, n, s), Next(c, n, s).rec)
  {
    var m := Next(c, n, s);
    StepExtends(c, n, s);
    if s.SaveRecord? {
      RecordSlicedStable(n, m, n.builder.rec);
    } else if s.Commit? {
      assert TaskSane(n, n.tasks[s.id]) && TaskSliced(n, n.tasks[s.id]);
      MergedSliced(n, n.tasks[s.id]);
    } else {
      RecordSlicedStable(n, m, n.rec);
    }
  }

  lemma TasksStaySliced(c: Config, n: Node, s: Step)
    requires Sane(n) && Sliced(n) && Enabled(c, n, s) && StableLog(n, s)
    ensures var m := Next(c, n, s); forall id | id in m.tasks :: TaskSliced(m, m.tasks[id])
  {
    var m := Next(c, n, s);
    StepExtends(c, n, s);
    RecordSlicedStable(n, m, n.rec);
    forall id | id in m.tasks ensures TaskSliced(m, m.tasks[id])
    {
      if id in n.tasks && (n.tasks[id].phase.Holding? || n.tasks[id].phase.Executed?) {
        assert TaskSane(n, n.tasks[id]) && TaskSliced(n, n.tasks[id]);
        RecordSlicedStable(n, m, n.tasks[id].phase.rec);
      }
    }
  }

  lemma BuilderStaysSliced(c: Config, n: Node, s: Step)
    requires Sane(n) && Sliced(n) && Enabled(c, n, s) && StableLog(n, s)
    ensures BuilderSliced(Next(c, n, s))
  {
    var m := Next(c, n, s);
    StepExtends(c, n, s);
    if !BuilderStep(s) {
      BuilderUntouched(c, n, s);
    }
    if n.builder.HasRecord? || n.builder.HasEntries? || n.builder.Produced? {
      RecordSlicedStable(n, m, n.builder.rec);
    }
    if n.builder.HasEntries? {
      RangeFrame(n.log, m.log, BuildStart(n.builder.rec), n.builder.applied);
    }
    match s {
      case ReadRecord => RecordSlicedStable(n, m, n.rec);
      case WriteDelta(size, now, file) => DeltaBuild(n, m, size, now, file);
      case _ =>
    }
  }

  lemma StepKeepsSliced(c: Config, n: Node, s: Step)
    requires Sane(n) && Sliced(n) && Enabled(c, n, s) && StableLog(n, s)
    ensures Sane(Next(c, n, s)) && Sliced(Next(c, n, s))
  {
    StepKeepsSane(c, n, s);
    RecordStaysSliced(c, n, s);
    TasksStaySliced(c, n, s);
    BuilderStaysSliced(c, n, s);
  }

  /** Over every run with a stable log, wherever the builds start: each delta file of each record in play is
      exactly the log from the checkpoint's index to the delta's end. */
  lemma {:induction false} RunStaysSliced(c: Config, ns: seq<Node>, ss: seq<Step>)
    requires StableRun(c, ns, ss)
    ensures forall i | 0 <= i < |ns| :: Sane(ns[i]) && Sliced(ns[i])
  {
    for i := 0 to |ss|
      invariant forall j | 0 <= j <= i :: Sane(ns[j]) && Sliced(ns[j])
    {
      assert Moves(c, ns[i], ss[i], ns[i + 1]) && StableLog(ns[i], ss[i]);
      StepKeepsSliced(c, ns[i], ss[i]);
    }
  }

  // ---------------------------------------------------------------- what a merge computes

  /** Every chained delta has a file name, so a replay opens one file per delta. */
  lemma {:induction false} AllNamed(chain: seq<DeltaInfo>)
    requires forall d <- chain :: d.path.Some?
    ensures |B.Named(chain)| == |chain|
    ensures forall i | 0 <= i < |chain| :: B.Named(chain)[i] == chain[i].path.value
  {
    if chain != [] {
      AllNamed(chain[..|chain| - 1]);
    }
  }

  lemma {:induction false} LogsAt(files: map<Path, seq<DeltaEntry>>, names: seq<Path>)
    requires B.Readable(files, names)
    ensures |B.Logs(files, names)| == |names|
    ensures forall i | 0 <= i < |names| ::
              names[i] in files && B.Decodable(files[names[i]]) &&
              B.Logs(files, names)[i] == B.Requests(files[names[i]])
  {
    if names != [] {
      LogsAt(files, names[..|names| - 1]);
      assert names[|names| - 1] in names;
    }
  }

  /** The logs of a chain of deltas over a checkpoint at `c`. */
  function ChainSlices(n: Node, c: u64, chain: seq<DeltaInfo>): seq<seq<KVRequest>>
    requires B.LogOk(n.log)
  {
    seq(|chain|, i requires 0 <= i < |chain| => SliceRequests(n, c, chain[i].end))
  }

  lemma RecordLogs(n: Node, rec: SnapshotMetaState)
    requires B.LogOk(n.log) && RecordSane(n, rec) && RecordSliced(n, rec) && B.CanMerge(rec, Contents(n.dirs), n.files)
    ensures rec.checkpoint.Some?
    ensures B.Logs(n.files, B.Named(rec.chain)) == ChainSlices(n, rec.checkpoint.value.index, rec.chain)
  {
    var c, chain := rec.checkpoint.value.index, rec.chain;
    forall d | d in chain ensures d.path.Some? { assert DeltaSane(n, c, d); }
    AllNamed(chain);
    LogsAt(n.files, B.Named(chain));
    forall i | 0 <= i < |chain| ensures B.Logs(n.files, B.Named(chain))[i] == SliceRequests(n, c, chain[i].end)
    {
      assert chain[i] in chain && DeltaSliced(n, c, chain[i]);
    }
  }

  /** The merge of a record is the log from the checkpoint's index to the merge index, replayed once over the
      baseline directory. */
  predicate MergesRight(n: Node, rec: SnapshotMetaState)
    requires B.LogOk(n.log) && B.CanMerge(rec, Contents(n.dirs), n.files)
  {
    B.MergedContent(rec, Contents(n.dirs), n.files) ==
    R.Replay(n.dirs[rec.checkpoint.value.path.value].content,
             SliceRequests(n, rec.checkpoint.value.index, MergeIndex(rec)))
  }

  /** The exact condition, for a record whose deltas end anywhere: on every key untouched up to the merge
      index, the earlier deltas together end at the baseline's value. */
  lemma MergeExact(n: Node, rec: SnapshotMetaState)
    requires B.LogOk(n.log) && RecordSane(n, rec) && RecordSliced(n, rec) && B.CanMerge(rec, Contents(n.dirs), n.files)
    ensures rec.checkpoint.Some? && rec.checkpoint.value.path.value in n.dirs
    ensures rec.chain == [] ==> MergesRight(n, rec)
    ensures rec.chain != [] ==>
              var c, front := rec.checkpoint.value.index, rec.chain[..|rec.chain| - 1];
              MergesRight(n, rec) <==>
              R.NoTrace(n.dirs[rec.checkpoint.value.path.value].content, R.Flat(ChainSlices(n, c, front)),
                        SliceRequests(n, c, MergeIndex(rec)))
  {
    RecordLogs(n, rec);
    var c, chain := rec.checkpoint.value.index, rec.chain;
    if chain == [] {
      assert SliceRequests(n, c, c) == [];
    } else {
      var logs := ChainSlices(n, c, chain);
      assert logs[..|chain| - 1] == ChainSlices(n, c, chain[..|chain| - 1]);
      R.ChainLikeLast(n.dirs[rec.checkpoint.value.path.value].content, logs);
    }
  }

  /** In every state of every run with a stable log, wherever the builds started, this is when the merge of
      any record in play is right. */
  lemma EveryMergeExact(c: Config, ns: seq<Node>, ss: seq<Step>, k: nat, rec: SnapshotMetaState)
    requires StableRun(c, ns, ss) && k < |ns| && Held(ns[k], rec) && rec.chain != []
    requires B.CanMerge(rec, Contents(ns[k].dirs), ns[k].files)
    ensures B.LogOk(ns[k].log) && rec.checkpoint.Some? && rec.checkpoint.value.path.value in ns[k].dirs
    ensures var n, i, front := ns[k], rec.checkpoint.value.index, rec.chain[..|rec.chain| - 1];
            MergesRight(n, rec) <==>
            R.NoTrace(n.dirs[rec.checkpoint.value.path.value].content, R.Flat(ChainSlices(n, i, front)),
                      SliceRequests(n, i, MergeIndex(rec)))
  {
    RunStaysSliced(c, ns, ss);
    HeldSliced(ns[k], rec);
    MergeExact(ns[k], rec);
  }

  /** How many entries each delta of a chain holds. */
  function Lengths(n: Node, c: u64, chain: seq<DeltaInfo>): seq<nat> {
    seq(|chain|, i requires 0 <= i < |chain| => |Slice(n, c, chain[i].end)|)
  }

  lemma SliceLonger(n: Node, c: int, a: int, b: int)
    requires B.LogOk(n.log) && c <= a < b && b in n.log
    ensures |Slice(n, c, a)| < |Slice(n, c, b)|
  {
    RangeSplit(n.log, c + 1, a, b);
    RangeEmpty(n.log, a + 1, b);
  }

  /** The end indices of a record say the same as the lengths of its slices: the deltas are prefixes of one
      log, and they replay like the last one for every log and baseline of that shape exactly when no
      delta ends above the merge index. */
  lemma MergeEndsExact(n: Node, rec: SnapshotMetaState)
    requires B.LogOk(n.log) && RecordSane(n, rec) && RecordSliced(n, rec) && rec.checkpoint.Some? && rec.chain != []
    requires n.horizon < U64_MAX
    ensures var c := rec.checkpoint.value.index;
            var log, lens := SliceRequests(n, c, U64_MAX), Lengths(n, c, rec.chain);
            && R.AllUpTo(lens, |log|) && ChainSlices(n, c, rec.chain) == R.Prefixes(log, lens)
            && (R.ReplaysLikeLast(lens) <==> forall d <- rec.chain :: d.end <= MergeIndex(rec))
  {
    var c, chain := rec.checkpoint.value.index, rec.chain;
    var log, lens := SliceRequests(n, c, U64_MAX), Lengths(n, c, chain);
    forall i | 0 <= i < |chain|
      ensures lens[i] <= |log| && SliceRequests(n, c, chain[i].end) == log[..lens[i]]
    {
      assert chain[i] in chain;
      DeltaIsPrefix(n, c, chain[i]);
    }
    R.PrefixesAt(log, lens);
    R.PrefixChainExact(lens);
    var last := chain[|chain| - 1];
    forall i | 0 <= i < |chain| ensures lens[i] <= lens[|chain| - 1] <==> chain[i].end <= last.end
    {
      assert chain[i] in chain && last in chain;
      DeltaIsPrefix(n, c, chain[i]);
      DeltaIsPrefix(n, c, last);
      LongerEndsLater(n, c, chain[i].end, last.end);
    }
  }

  lemma DeltaIsPrefix(n: Node, c: u64, d: DeltaInfo)
    requires B.LogOk(n.log) && DeltaSane(n, c, d) && DeltaSliced(n, c, d) && n.horizon < U64_MAX
    ensures c < d.end && d.end in n.log
    ensures var log, len := SliceRequests(n, c, U64_MAX), |Slice(n, c, d.end)|;
            len <= |log| && SliceRequests(n, c, d.end) == log[..len]
  {
    SliceSplit(n, c, d.end, U64_MAX);
    RangeHolds(n.log, c + 1, d.end, Slice(n, c, d.end)[|Slice(n, c, d.end)| - 1]);
  }

  lemma LongerEndsLater(n: Node, c: int, a: int, b: int)
    requires B.LogOk(n.log) && c <= a && c <= b && a in n.log && b in n.log
    ensures |Slice(n, c, a)| <= |Slice(n, c, b)| <==> a <= b
  {
    if a < b {
      SliceLonger(n, c, a, b);
    } else if b < a {
      SliceLonger(n, c, b, a);
    }
  }

  // ---------------------------------------------------------------- builds that only rise

  /** The deltas of a record end in order. */
  predicate InOrder(rec: SnapshotMetaState) {
    forall i, j | 0 <= i <= j < |rec.chain| :: rec.chain[i].end <= rec.chain[j].end
  }

  predicate RecordOk(n: Node, rec: SnapshotMetaState) { RecordSane(n, rec) && RecordSliced(n, rec) && InOrder(rec) }

  /** A directory holds its root's content with the log from the root's index replayed on top. */
  predicate DirOk(n: Node, d: Dir)
    requires B.LogOk(n.log)
  {
    && d.baseIndex <= d.index <= n.horizon
    && d.content == R.Replay(d.base, SliceRequests(n, d.baseIndex, d.index))
  }

  /** No index in the record is above `a`. */
  predicate Below(rec: SnapshotMetaState, a: u64) {
    && (rec.checkpoint.Some? ==> rec.checkpoint.value.index <= a)
    && (forall d <- rec.chain :: d.end <= a)
  }

  predicate TaskBelow(t: Task, a: u64) {
    t.phase.Holding? || t.phase.Executed? ==> Below(t.phase.rec, a)
  }

  predicate BuilderInOrder(n: Node) {
    match n.builder
    case Idle => true
    case HasApplied(a) => Below(n.rec, a) && forall id | id in n.tasks :: TaskBelow(n.tasks[id], a)
    case HasRecord(a, rec) => InOrder(rec) && Below(rec, a)
    case HasEntries(a, rec, _) => InOrder(rec) && Below(rec, a)
    case Produced(rec) => InOrder(rec)
  }

  predicate TaskInOrder(t: Task) { t.phase.Holding? || t.phase.Executed? ==> InOrder(t.phase.rec) }

  predicate Inv(n: Node) {
    && Sane(n) && Sliced(n)
    && InOrder(n.rec)
    && (forall p | p in n.dirs :: DirOk(n, n.dirs[p]))
    && (forall id | id in n.tasks :: TaskInOrder(n.tasks[id]))
    && BuilderInOrder(n)
  }

  /** Merging a record in order: the overlapping deltas replay to the log from the checkpoint's index to the
      merge index, once, on top of the baseline directory. */
  lemma MergeReplaysLogOnce(n: Node, rec: SnapshotMetaState)
    requires B.LogOk(n.log) && RecordOk(n, rec) && B.CanMerge(rec, Contents(n.dirs), n.files)
    ensures rec.checkpoint.Some? && rec.checkpoint.value.index <= MergeIndex(rec) <= n.horizon
    ensures MergesRight(n, rec)
  {
    var c, chain := rec.checkpoint.value.index, rec.chain;
    RecordLogs(n, rec);
    if chain == [] {
      assert SliceRequests(n, c, c) == [];
    } else {
      forall i | 0 <= i < |chain| ensures c < chain[i].end <= n.horizon
      {
        assert chain[i] in chain && DeltaSane(n, c, chain[i]) && DeltaSliced(n, c, chain[i]);
      }
      var logs := ChainSlices(n, c, chain);
      forall i, j | 0 <= i <= j < |logs| ensures logs[i] <= logs[j]
      {
        SliceSplit(n, c, chain[i].end, chain[j].end);
      }
      R.CumulativeChain(n.dirs[rec.checkpoint.value.path.value].content, logs);
    }
  }

  lemma MergedDirOk(n: Node, rec: SnapshotMetaState)
    requires Inv(n) && RecordOk(n, rec) && B.CanMerge(rec, Contents(n.dirs), n.files)
    ensures DirOk(n, MergedDir(n, rec)) && MergedDir(n, rec).index == MergeIndex(rec)
  {
    MergeReplaysLogOnce(n, rec);
    var parent := n.dirs[rec.checkpoint.value.path.value];
    SliceSplit(n, parent.baseIndex, parent.index, MergeIndex(rec));
    R.ReplayConcat(parent.base, SliceRequests(n, parent.baseIndex, parent.index),
                   SliceRequests(n, parent.index, MergeIndex(rec)));
  }

  lemma DirStable(n: Node, m: Node, d: Dir)
    requires B.LogOk(n.log) && B.LogOk(m.log) && Extends(n, m) && DirOk(n, d)
    ensures DirOk(m, d)
  {
    SliceStable(n, m, d.baseIndex, d.index);
  }

  lemma DirsKept(c: Config, n: Node, s: Step)
    requires Inv(n) && Enabled(c, n, s) && StableLog(n, s)
    ensures var m := Next(c, n, s); B.LogOk(m.log) && forall p | p in m.dirs :: DirOk(m, m.dirs[p])
  {
    var m := Next(c, n, s);
    StepExtends(c, n, s);
    forall p | p in m.dirs ensures DirOk(m, m.dirs[p])
    {
      if p in n.used {
        DirStable(n, m, n.dirs[p]);
      } else if s.Execute? {
        assert TaskSane(n, n.tasks[s.id]) && TaskSliced(n, n.tasks[s.id]) && TaskInOrder(n.tasks[s.id]);
        MergedDirOk(n, n.tasks[s.id].phase.rec);
        DirStable(n, m, m.dirs[p]);
      } else {
        assert SliceRequests(m, n.builder.applied, n.builder.applied) == [];
      }
    }
  }

  /** If an entry is logged at `x` inside (c, a], the slice up to `a` ends at `x` or later. */
  lemma {:induction false} EndsInside(n: Node, c: int, x: int, a: int)
    requires B.LogOk(n.log) && c < x <= a && x in n.log
    ensures var es := Slice(n, c, a); es != [] && es[|es| - 1].index >= x
    decreases a
  {
    if a !in n.log {
      EndsInside(n, c, x, a - 1);
    }
  }

  /** A delta that ends at or below `a` ends no later than the slice up to `a`. */
  lemma DeltaEndsInside(n: Node, c: u64, d: DeltaInfo, a: u64)
    requires B.LogOk(n.log) && c < d.end <= a && DeltaSliced(n, c, d)
    ensures var es := Slice(n, c, a); es != [] && d.end <= es[|es| - 1].index
  {
    var xs := Slice(n, c, d.end);
    RangeHolds(n.log, c + 1, d.end, xs[|xs| - 1]);
    EndsInside(n, c, d.end, a);
  }

  lemma AppendInOrder(rec: SnapshotMetaState, es: seq<DeltaEntry>, size: u64, now: u64, file: Path)
    requires InOrder(rec) && es != [] && forall i | 0 <= i < |rec.chain| :: rec.chain[i].end <= es[|es| - 1].index
    ensures InOrder(WithDelta(rec, es, size, now, file))
  {
  }

  /** A build that starts above every delta of its record keeps the order. */
  lemma BuildInOrder(n: Node, size: u64, now: u64, file: Path)
    requires Inv(n) && n.builder.HasEntries?
    requires ShouldBuildDelta(n.builder.rec, |n.builder.entries|, size, now)
    ensures InOrder(WithDelta(n.builder.rec, n.builder.entries, size, now, file))
  {
    var rec, a := n.builder.rec, n.builder.applied;
    var c := rec.checkpoint.value.index;
    forall i | 0 <= i < |rec.chain| ensures rec.chain[i].end <= n.builder.entries[|n.builder.entries| - 1].index
    {
      assert rec.chain[i] in rec.chain && DeltaSane(n, c, rec.chain[i]) && DeltaSliced(n, c, rec.chain[i]);
      DeltaEndsInside(n, c, rec.chain[i], a);
    }
    AppendInOrder(rec, n.builder.entries, size, now, file);
  }

  /** Every record in play is covered by the horizon. */
  lemma BelowHorizon(n: Node)
    requires Sane(n) && Sliced(n)
    ensures Below(n.rec, n.horizon)
    ensures forall id | id in n.tasks :: TaskBelow(n.tasks[id], n.horizon)
  {
    RecordBelow(n, n.rec);
    forall id | id in n.tasks ensures TaskBelow(n.tasks[id], n.horizon)
    {
      assert TaskSane(n, n.tasks[id]) && TaskSliced(n, n.tasks[id]);
      if n.tasks[id].phase.Holding? || n.tasks[id].phase.Executed? {
        RecordBelow(n, n.tasks[id].phase.rec);
      }
    }
  }

  lemma RecordBelow(n: Node, rec: SnapshotMetaState)
    requires RecordSane(n, rec) && RecordSliced(n, rec)
    ensures Below(rec, n.horizon)
  {
    if rec.checkpoint.Some? {
      forall d | d in rec.chain ensures d.end <= n.horizon { assert DeltaSliced(n, rec.checkpoint.value.index, d); }
    }
  }

  lemma MergedBelow(t: Task, a: u64)
    requires t.phase.Executed? && TaskBelow(t, a)
    ensures Below(Merged(t.phase.rec, t.startedAt, Some(t.phase.dir)), a)
  {
    var rec := t.phase.rec;
    if rec.chain != [] {
      assert rec.chain[|rec.chain| - 1] in rec.chain;
    }
  }

  /** A builder that has only read the applied index keeps it above every record in play, including
      the one a merge commits meanwhile. */
  lemma WaitingBuilderKept(c: Config, n: Node, s: Step)
    requires Inv(n) && Enabled(c, n, s) && n.builder.HasApplied? && Next(c, n, s).builder == n.builder
    ensures BuilderInOrder(Next(c, n, s))
  {
    var m, a := Next(c, n, s), n.builder.applied;
    if s.Commit? {
      MergedBelow(n.tasks[s.id], a);
    }
    forall id | id in m.tasks ensures TaskBelow(m.tasks[id], a)
    {
      if id in n.tasks {
        assert TaskBelow(n.tasks[id], a);
      }
    }
  }

  lemma BuilderKept(c: Config, n: Node, s: Step)
    requires Inv(n) && Enabled(c, n, s) && Rising(n, s)
    ensures BuilderInOrder(Next(c, n, s))
  {
    if !BuilderStep(s) {
      BuilderUntouched(c, n, s);
      if n.builder.HasApplied? {
        WaitingBuilderKept(c, n, s);
      }
    } else if s.ReadApplied? {
      BelowHorizon(n);
    } else if s.WriteDelta? {
      BuildInOrder(n, s.size, s.now, s.file);
    }
  }

  lemma RecordStaysInOrder(c: Config, n: Node, s: Step)
    requires InOrder(n.rec) && BuilderInOrder(n) && Enabled(c, n, s)
    ensures InOrder(Next(c, n, s).rec)
  {
  }

  lemma TasksStayInOrder(c: Config, n: Node, s: Step, id: nat)
    requires InOrder(n.rec) && Enabled(c, n, s) && id in Next(c, n, s).tasks && (id in n.tasks ==> TaskInOrder(n.tasks[id]))
    ensures TaskInOrder(Next(c, n, s).tasks[id])
  {
  }

  lemma StepKeepsInv(c: Config, n: Node, s: Step)
    requires Inv(n) && Enabled(c, n, s) && StableLog(n, s) && Rising(n, s)
    ensures Inv(Next(c, n, s))
  {
    StepKeepsSliced(c, n, s);
    DirsKept(c, n, s);
    RecordStaysInOrder(c, n, s);
    forall id | id in Next(c, n, s).tasks { TasksStayInOrder(c, n, s, id); }
    BuilderKept(c, n, s);
  }

  /** Over every run with a stable log and rising builds, in every state: the invariant holds. */
  lemma {:induction false} RunKeepsInv(c: Config, ns: seq<Node>, ss: seq<Step>)
    requires RisingRun(c, ns, ss)
    ensures forall i | 0 <= i < |ns| :: Inv(ns[i])
  {
    for i := 0 to |ss|
      invariant forall j | 0 <= j <= i :: Inv(ns[j])
    {
      assert Moves(c, ns[i], ss[i], ns[i + 1]) && StableLog(ns[i], ss[i]) && Rising(ns[i], ss[i]);
      StepKeepsInv(c, ns[i], ss[i]);
    }
  }

  // ---------------------------------------------------------------- what the runs guarantee

  /** The state the log builds up to index `i`, from nothing. */
  function Truth(n: Node, i: int): R.KV
    requires B.LogOk(n.log)
  {
    B.At(map[], n.log, i)
  }

  lemma TruthExtends(n: Node, i: int, j: int)
    requires B.LogOk(n.log) && -1 <= i <= j
    ensures Truth(n, j) == R.Replay(Truth(n, i), SliceRequests(n, i, j))
  {
    B.AtExtends(map[], n.log, i, j);
  }

  /** A record stands for the log: its checkpoint is the state at the checkpoint's index, each of its
      deltas brings that to the state at the delta's end, and the log above the checkpoint brings it
      to the state at any later index. Removed directories and files are simply not there. */
  predicate RecordTrue(n: Node, rec: SnapshotMetaState)
    requires B.LogOk(n.log)
  {
    rec.checkpoint.Some? && rec.checkpoint.value.path.Some? && rec.checkpoint.value.path.value in n.dirs ==>
      var cp := rec.checkpoint.value;
      var content := n.dirs[cp.path.value].content;
      && content == Truth(n, cp.index)
      && (forall d <- rec.chain | d.path.Some? && d.path.value in n.files ::
            B.Decodable(n.files[d.path.value]) &&
            R.Replay(content, B.Requests(n.files[d.path.value])) == Truth(n, d.end))
      && (cp.index <= n.applied ==>
            R.Replay(content, SliceRequests(n, cp.index, n.applied)) == Truth(n, n.applied))
  }

  /** For a record whose files are slices everything rests on the checkpoint's own content. */
  lemma RecordTells(n: Node, rec: SnapshotMetaState)
    requires Sane(n) && RecordSane(n, rec) && RecordSliced(n, rec)
    ensures RecordTrue(n, rec) <==>
            (rec.checkpoint.Some? && rec.checkpoint.value.path.value in n.dirs ==>
               n.dirs[rec.checkpoint.value.path.value].content == Truth(n, rec.checkpoint.value.index))
  {
    if rec.checkpoint.Some? && rec.checkpoint.value.path.value in n.dirs {
      var cp := rec.checkpoint.value;
      forall d | d in rec.chain && d.path.Some? && d.path.value in n.files
        ensures B.Decodable(n.files[d.path.value])
        ensures R.Replay(Truth(n, cp.index), B.Requests(n.files[d.path.value])) == Truth(n, d.end)
      {
        assert DeltaSane(n, cp.index, d) && DeltaSliced(n, cp.index, d);
        B.RangeDecodes(n.log, cp.index + 1, d.end);
        TruthExtends(n, cp.index, d.end);
      }
      if cp.index <= n.applied {
        TruthExtends(n, cp.index, n.applied);
      }
    }
  }

  lemma HeldSliced(n: Node, rec: SnapshotMetaState)
    requires Sane(n) && Sliced(n) && Held(n, rec)
    ensures RecordSane(n, rec) && RecordSliced(n, rec)
  {
    if id :| id in n.tasks && (n.tasks[id].phase.Holding? || n.tasks[id].phase.Executed?)
             && rec == n.tasks[id].phase.rec {
      assert TaskSane(n, n.tasks[id]) && TaskSliced(n, n.tasks[id]);
    }
  }

  lemma HeldOk(n: Node, rec: SnapshotMetaState)
    requires Inv(n) && Held(n, rec)
    ensures RecordOk(n, rec)
  {
    HeldSliced(n, rec);
    if id :| id in n.tasks && (n.tasks[id].phase.Holding? || n.tasks[id].phase.Executed?)
             && rec == n.tasks[id].phase.rec {
      assert TaskInOrder(n.tasks[id]);
    }
  }

  /** The root of a directory agrees with the log at the root's index on every key untouched since. */
  ghost predicate RootAgrees(n: Node, d: Dir)
    requires B.LogOk(n.log)
  {
    forall key: Str | !R.Touches(SliceRequests(n, d.baseIndex, d.index), key) ::
      R.Get(d.base, key) == R.Get(Truth(n, d.baseIndex), key)
  }

  lemma DirTrueExact(n: Node, d: Dir)
    requires B.LogOk(n.log) && DirOk(n, d)
    ensures d.content == Truth(n, d.index) <==> RootAgrees(n, d)
  {
    TruthExtends(n, d.baseIndex, d.index);
    R.ReplayAgrees(d.base, Truth(n, d.baseIndex), SliceRequests(n, d.baseIndex, d.index));
  }

  /** The main result. In every state of every run with a stable log and rising builds, whatever the
      interleaving of log growth, builds, overlapping merges and removals, and whatever the full checkpoints
      held, every record in play is well-formed, even when a merge commit drops a delta added meanwhile
      or a build overwrites a merge; and it stands for the log exactly when the full checkpoint at the root
      of its directory agrees with the log on the keys untouched since. */
  lemma EveryRecordExact(c: Config, ns: seq<Node>, ss: seq<Step>, k: nat, rec: SnapshotMetaState)
    requires RisingRun(c, ns, ss) && k < |ns| && Held(ns[k], rec)
    ensures B.LogOk(ns[k].log) && RecordOk(ns[k], rec)
    ensures RecordTrue(ns[k], rec) <==>
            (rec.checkpoint.Some? && rec.checkpoint.value.path.value in ns[k].dirs ==>
               RootAgrees(ns[k], ns[k].dirs[rec.checkpoint.value.path.value]))
  {
    RunKeepsInv(c, ns, ss);
    HeldOk(ns[k], rec);
    RecordTells(ns[k], rec);
    if rec.checkpoint.Some? && rec.checkpoint.value.path.value in ns[k].dirs {
      assert DirOk(ns[k], ns[k].dirs[rec.checkpoint.value.path.value]);
      DirTrueExact(ns[k], ns[k].dirs[rec.checkpoint.value.path.value]);
    }
  }

  /** Each full checkpoint of the run held the replayed log up to its index. */
  predicate FullBuildsTruthful(ns: seq<Node>, ss: seq<Step>)
    requires |ns| == |ss| + 1
  {
    forall i | 0 <= i < |ss| :: ss[i].WriteFull? ==>
      && B.LogOk(ns[i].log) && ns[i].builder.HasEntries?
      && ss[i].content == Truth(ns[i], ns[i].builder.applied)
  }

  predicate RootsTruthful(n: Node)
    requires B.LogOk(n.log)
  {
    forall p | p in n.dirs :: n.dirs[p].base == Truth(n, n.dirs[p].baseIndex)
  }

  lemma RootsKept(c: Config, n: Node, s: Step)
    requires Inv(n) && Enabled(c, n, s) && StableLog(n, s) && RootsTruthful(n)
    requires s.WriteFull? ==> s.content == Truth(n, n.builder.applied)
    ensures B.LogOk(Next(c, n, s).log) && RootsTruthful(Next(c, n, s))
  {
    var m := Next(c, n, s);
    StepExtends(c, n, s);
    forall p | p in m.dirs ensures m.dirs[p].base == Truth(m, m.dirs[p].baseIndex)
    {
      if p in n.used {
        assert DirOk(n, n.dirs[p]);
        SliceStable(n, m, -1, n.dirs[p].baseIndex);
      } else if s.Execute? {
        var rec := n.tasks[s.id].phase.rec;
        var parent := B.Baseline(rec, Contents(n.dirs)).value;
        assert DirOk(n, n.dirs[parent]);
        SliceStable(n, m, -1, n.dirs[parent].baseIndex);
      }
    }
  }

  /** Hence, when full checkpoints are truthful, every record in play stands for the log. */
  lemma {:induction false} EveryRecordTrue(c: Config, ns: seq<Node>, ss: seq<Step>, k: nat, rec: SnapshotMetaState)
    requires RisingRun(c, ns, ss) && k < |ns| && Held(ns[k], rec)
    requires FullBuildsTruthful(ns, ss)
    ensures B.LogOk(ns[k].log) && RecordOk(ns[k], rec) && RecordTrue(ns[k], rec)
  {
    RunKeepsInv(c, ns, ss);
    for i := 0 to k
      invariant RootsTruthful(ns[i])
    {
      assert Moves(c, ns[i], ss[i], ns[i + 1]) && StableLog(ns[i], ss[i]);
      RootsKept(c, ns[i], ss[i]);
    }
    EveryRecordExact(c, ns, ss, k, rec);
  }

  /** What a full checkpoint of the tree really holds of the key-value data is nothing: requests are
      applied to the in-memory map only. With such roots a directory is the replayed log at its index
      exactly when every key alive at its root's index is written or deleted between the two. */
  lemma EmptyRootExact(c: Config, ns: seq<Node>, ss: seq<Step>, k: nat, p: Path)
    requires RisingRun(c, ns, ss) && k < |ns| && p in ns[k].dirs && ns[k].dirs[p].base == map[]
    ensures B.LogOk(ns[k].log)
    ensures var n, d := ns[k], ns[k].dirs[p];
            d.content == Truth(n, d.index) <==>
            forall key: Str | key in Truth(n, d.baseIndex) ::
              R.Touches(SliceRequests(n, d.baseIndex, d.index), key)
  {
    RunKeepsInv(c, ns, ss);
    var n, d := ns[k], ns[k].dirs[p];
    assert DirOk(n, d);
    DirTrueExact(n, d);
    forall key: Str ensures key in Truth(n, d.baseIndex) <==> R.Get(map[], key) != R.Get(Truth(n, d.baseIndex), key)
    {
    }
  }

  /** Replaying a whole record over its baseline directory gives what its last delta alone gives, and
      the merged record, the new directory and the replayed log all carry the same index. */
  lemma MergeIndicesAgree(c: Config, ns: seq<Node>, ss: seq<Step>, k: nat, rec: SnapshotMetaState, now: u64, dir: Path)
    requires RisingRun(c, ns, ss) && k < |ns| && Held(ns[k], rec)
    requires B.CanMerge(rec, Contents(ns[k].dirs), ns[k].files)
    ensures rec.checkpoint.Some? && B.LogOk(ns[k].log)
    ensures var cp := rec.checkpoint.value;
            && MergedDir(ns[k], rec).index == MergeIndex(rec)
            && Merged(rec, now, Some(dir)).checkpoint.value.index == MergeIndex(rec)
            && cp.path.Some? && cp.path.value in ns[k].dirs
            && MergedDir(ns[k], rec).content ==
               R.Replay(ns[k].dirs[cp.path.value].content, SliceRequests(ns[k], cp.index, MergeIndex(rec)))
  {
    RunKeepsInv(c, ns, ss);
    HeldOk(ns[k], rec);
    MergeReplaysLogOnce(ns[k], rec);
  }
}
