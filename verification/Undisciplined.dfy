/** What happens to the merge system outside the calling discipline: runs from the initial state that go wrong,
    and the exact condition under which rewriting a logged entry goes unnoticed. */
module Undisciplined {
  import opened Types
  import opened Records
  import opened Ranges
  import opened Policy
  import opened MergeSystem
  import opened MergeRuns
  import B = Backend
  import R = Replay

  // ---------------------------------------------------------------- building runs

  /** Which parts of the discipline a run keeps. */
  datatype Discipline = Discipline(stable: bool, rising: bool)

  predicate Fits(k: Discipline, n: Node, s: Step) {
    (k.stable ==> StableLog(n, s)) && (k.rising ==> Rising(n, s))
  }

  datatype Behaviour = Behaviour(ns: seq<Node>, ss: seq<Step>)

  predicate Goes(c: Config, k: Discipline, b: Behaviour) {
    Run(c, b.ns, b.ss) && forall i | 0 <= i < |b.ss| :: Fits(k, b.ns[i], b.ss[i])
  }

  function Last(b: Behaviour): Node
    requires b.ns != []
  {
    b.ns[|b.ns| - 1]
  }

  const Start := Behaviour([Initial], [])

  lemma Take(c: Config, k: Discipline, b: Behaviour, s: Step) returns (r: Behaviour)
    requires Goes(c, k, b) && Enabled(c, Last(b), s) && Fits(k, Last(b), s)
    ensures Goes(c, k, r) && Last(r) == Next(c, Last(b), s) && b.ns <= r.ns
  {
    r := Behaviour(b.ns + [Next(c, Last(b), s)], b.ss + [s]);
    forall i | 0 <= i < |r.ss| ensures Moves(c, r.ns[i], r.ss[i], r.ns[i + 1]) && Fits(k, r.ns[i], r.ss[i])
    {
      if i < |b.ss| {
        assert Moves(c, b.ns[i], b.ss[i], b.ns[i + 1]) && Fits(k, b.ns[i], b.ss[i]);
      }
    }
  }

  function Highest(n: Node): u64 { if n.horizon < n.applied then n.applied else n.horizon }

  /** An entry is logged and the applied index moved to it. */
  lemma Log(c: Config, k: Discipline, b: Behaviour, e: DeltaEntry) returns (r: Behaviour)
    requires Goes(c, k, b) && e.payload.Valid? && (k.stable ==> Last(b).horizon < e.index)
    ensures Goes(c, k, r) && Last(r) == Last(b).(log := Last(b).log[e.index := e], applied := e.index)
  {
    r := Take(c, k, b, InsertLog(e));
    r := Take(c, k, r, SaveApplied(e.index));
  }

  /** A build starts: it reads the applied index, the record and the log. */
  lemma Read(c: Config, k: Discipline, b: Behaviour) returns (r: Behaviour)
    requires Goes(c, k, b) && Last(b).builder.Idle? && Last(b).applied < U64_MAX
    requires k.rising ==> Last(b).horizon <= Last(b).applied
    ensures var n := Last(b);
            && Goes(c, k, r)
            && Last(r) == n.(horizon := Highest(n),
                             builder := HasEntries(n.applied, n.rec, Range(n.log, BuildStart(n.rec), n.applied)))
  {
    r := Take(c, k, b, ReadApplied);
    r := Take(c, k, r, ReadRecord);
    r := Take(c, k, r, ReadLogs);
  }

  lemma BuildFull(c: Config, k: Discipline, b: Behaviour, dir: Path, content: R.KV) returns (r: Behaviour)
    requires Goes(c, k, b) && Last(b).builder.Idle? && Last(b).applied < U64_MAX
    requires k.rising ==> Last(b).horizon <= Last(b).applied
    requires Last(b).rec.checkpoint.None? && dir !in Last(b).used
    ensures var n := Last(b);
            && Goes(c, k, r)
            && Last(r) == n.(horizon := Highest(n), used := n.used + {dir},
                             dirs := n.dirs[dir := Dir(content, n.applied, content, n.applied, 0)],
                             rec := WithCheckpoint(n.applied, 1, 0, dir))
  {
    r := Read(c, k, b);
    r := Take(c, k, r, WriteFull(0, 0, 1, 0, dir, content));
    r := Take(c, k, r, SaveRecord);
  }

  lemma BuildDelta(c: Config, k: Discipline, b: Behaviour, file: Path, es: seq<DeltaEntry>) returns (r: Behaviour)
    requires Goes(c, k, b) && Last(b).builder.Idle? && Last(b).applied < U64_MAX
    requires k.rising ==> Last(b).horizon <= Last(b).applied
    requires Last(b).rec.checkpoint.Some? && file !in Last(b).used
    requires es == Range(Last(b).log, BuildStart(Last(b).rec), Last(b).applied) && es != []
    ensures var n := Last(b);
            && Goes(c, k, r)
            && Last(r) == n.(horizon := Highest(n), used := n.used + {file}, files := n.files[file := es],
                             rec := WithDelta(n.rec, es, 1, 0, file))
  {
    r := Read(c, k, b);
    r := Take(c, k, r, WriteDelta(1, 0, file));
    r := Take(c, k, r, SaveRecord);
  }

  /** Under every policy a merge is due once the interval has passed, whatever tasks there are: another one starts
      and reads the record. */
  lemma StartMerge(c: Config, k: Discipline, b: Behaviour, id: nat) returns (r: Behaviour)
    requires Goes(c, k, b) && id !in Last(b).tasks
    requires Last(b).rec.checkpoint.Some? && Last(b).rec.checkpoint.value.createdAt == 0
    ensures Goes(c, k, r)
    ensures var n, m := Last(b), Last(r);
            && id in m.tasks && m.tasks[id].phase == Holding(n.rec) && m.tasks[id].startedAt == c.policy.intervalSecs
            && m.tasks == n.tasks[id := m.tasks[id]] && m == n.(tasks := m.tasks, progress := m.progress)
  {
    r := Take(c, k, b, Spawn(id, c.policy.intervalSecs, c.policy.intervalSecs));
    r := Take(c, k, r, Announce(id));
    r := Take(c, k, r, TaskRead(id));
  }

  /** A task that holds a record runs to its commit. */
  lemma EndMerge(c: Config, k: Discipline, b: Behaviour, id: nat, dir: Path, rec: SnapshotMetaState) returns (r: Behaviour)
    requires Goes(c, k, b) && id in Last(b).tasks && Last(b).tasks[id].phase == Holding(rec) && dir !in Last(b).used
    requires B.CanMerge(rec, Contents(Last(b).dirs), Last(b).files)
    ensures Goes(c, k, r) && b.ns <= r.ns
    ensures var n, m := Last(b), Last(r);
            && (m.log, m.applied, m.files) == (n.log, n.applied, n.files)
            && m.dirs == n.dirs[dir := MergedDir(n, rec)]
            && m.rec == Merged(rec, n.tasks[id].startedAt, Some(dir))
  {
    r := Take(c, k, b, Execute(id, dir));
    r := Take(c, k, r, Commit(id));
  }

  lemma Merge(c: Config, k: Discipline, b: Behaviour, dir: Path) returns (r: Behaviour)
    requires Goes(c, k, b) && Last(b).tasks == map[] && dir !in Last(b).used
    requires Last(b).rec.checkpoint.Some? && Last(b).rec.checkpoint.value.createdAt == 0
    requires B.CanMerge(Last(b).rec, Contents(Last(b).dirs), Last(b).files)
    ensures Goes(c, k, r)
    ensures var n, m := Last(b), Last(r);
            && m.log == n.log
            && m.dirs == n.dirs[dir := MergedDir(n, n.rec)]
            && m.rec == Merged(n.rec, c.policy.intervalSecs, Some(dir))
  {
    r := StartMerge(c, k, b, 0);
    r := EndMerge(c, k, r, 0, dir, Last(b).rec);
  }

  // ---------------------------------------------------------------- a build below the one before it

  const FirstKey: Str := [0x61]
  const SecondKey: Str := [0x62]
  const First := DeltaEntry(1, 1, Valid(Set(FirstKey, [])))
  const Second := DeltaEntry(1, 2, Valid(Set(SecondKey, [])))

  /** The persisted record's directory is not the log at the record's index. */
  predicate RecordWrong(n: Node) {
    && B.LogOk(n.log) && n.rec.checkpoint.Some? && n.rec.checkpoint.value.path.Some?
    && n.rec.checkpoint.value.path.value in n.dirs
    && n.dirs[n.rec.checkpoint.value.path.value].content != Truth(n, n.rec.checkpoint.value.index)
  }

  /** Two requests are logged; a build at applied index 2 was followed by a build at applied index 1. */
  function Regressed(): Node {
    var rec0 := WithCheckpoint(0, 1, 0, "root");
    var rec1 := WithDelta(rec0, [First, Second], 1, 0, "two");
    var rec2 := WithDelta(rec1, [First], 1, 0, "one");
    Node(map[1 := First, 2 := Second], 1, 2, rec2, NoMerge, map["root" := Dir(map[], 0, map[], 0, 0)],
         map["two" := [First, Second], "one" := [First]], {"root", "two", "one"}, Idle, map[])
  }

  lemma TwoLogged(log: map<u64, DeltaEntry>)
    requires log == map[1 := First, 2 := Second]
    ensures Range(log, 1, 2) == [First, Second] && Range(log, 1, 1) == [First] && Range(log, 0, 1) == [First]
  {
    assert Range(log, 1, 0) == [] && Range(log, 0, -1) == [] && Range(log, 0, 0) == [];
  }

  /** After a full build at index 0. */
  function Rooted(): Node {
    Node(map[], 0, 0, WithCheckpoint(0, 1, 0, "root"), NoMerge, map["root" := Dir(map[], 0, map[], 0, 0)], map[],
         {"root"}, Idle, map[])
  }

  lemma ReachRooted(c: Config, k: Discipline) returns (b: Behaviour)
    ensures Goes(c, k, b) && Last(b) == Rooted()
  {
    b := BuildFull(c, k, Start, "root", map[]);
  }

  /** After the build at applied index 2. */
  function BuiltAtTwo(): Node {
    Node(map[1 := First, 2 := Second], 2, 2, WithDelta(WithCheckpoint(0, 1, 0, "root"), [First, Second], 1, 0, "two"),
         NoMerge, map["root" := Dir(map[], 0, map[], 0, 0)], map["two" := [First, Second]], {"root", "two"}, Idle, map[])
  }

  lemma ReachBuiltAtTwo(c: Config) returns (b: Behaviour)
    ensures Goes(c, Discipline(true, false), b) && Last(b) == BuiltAtTwo()
  {
    var k := Discipline(true, false);
    b := ReachRooted(c, k);
    b := Log(c, k, b, First);
    b := Log(c, k, b, Second);
    TwoLogged(Last(b).log);
    b := BuildDelta(c, k, b, "two", [First, Second]);
  }

  lemma ReachRegressed(c: Config) returns (b: Behaviour)
    ensures Goes(c, Discipline(true, false), b) && Last(b) == Regressed()
  {
    var k := Discipline(true, false);
    b := ReachBuiltAtTwo(c);
    TwoLogged(Last(b).log);
    b := Take(c, k, b, SaveApplied(1));
    b := BuildDelta(c, k, b, "one", [First]);
  }

  /** What merging a record with a single delta gives. */
  lemma OneDelta(n: Node, rec: SnapshotMetaState, root: Path, d: DeltaInfo, file: Path)
    requires rec.checkpoint.Some? && rec.checkpoint.value.path == Some(root) && root in n.dirs
    requires rec.chain == [d] && d.path == Some(file) && file in n.files && B.Decodable(n.files[file])
    ensures B.CanMerge(rec, Contents(n.dirs), n.files) && MergedDir(n, rec).index == d.end
    ensures MergedDir(n, rec).content == R.Replay(n.dirs[root].content, B.Requests(n.files[file]))
  {
    AllNamed([d]);
    assert B.Named([d]) == [file];
    B.ReadOneMore(n.files, [], file, n.dirs[root].content);
    assert [] + [file] == [file];
  }

  /** And with two. */
  lemma TwoDeltas(n: Node, rec: SnapshotMetaState, root: Path, d: DeltaInfo, e: DeltaInfo, f: Path, g: Path)
    requires rec.checkpoint.Some? && rec.checkpoint.value.path == Some(root) && root in n.dirs
    requires rec.chain == [d, e] && d.path == Some(f) && e.path == Some(g) && f in n.files && g in n.files
    requires B.Decodable(n.files[f]) && B.Decodable(n.files[g])
    ensures B.CanMerge(rec, Contents(n.dirs), n.files) && MergedDir(n, rec).index == e.end
    ensures MergedDir(n, rec).content ==
            R.Replay(R.Replay(n.dirs[root].content, B.Requests(n.files[f])), B.Requests(n.files[g]))
  {
    AllNamed([d, e]);
    assert B.Named([d, e]) == [f, g];
    B.ReadOneMore(n.files, [], f, n.dirs[root].content);
    assert [] + [f] == [f];
    B.ReadOneMore(n.files, [f], g, n.dirs[root].content);
    assert [f] + [g] == [f, g];
  }

  lemma RegressedDir()
    ensures var n := Regressed();
            && B.CanMerge(n.rec, Contents(n.dirs), n.files) && MergedDir(n, n.rec).index == 1
            && MergedDir(n, n.rec).content ==
               R.Replay(R.Replay(map[], [Set(FirstKey, []), Set(SecondKey, [])]), [Set(FirstKey, [])])
  {
    var n := Regressed();
    TwoDeltas(n, n.rec, "root", n.rec.chain[0], n.rec.chain[1], "two", "one");
    assert B.Requests([First, Second]) == [Set(FirstKey, []), Set(SecondKey, [])];
    assert B.Requests([First]) == [Set(FirstKey, [])];
  }

  lemma LongThenShort(r1: KVRequest, r2: KVRequest)
    requires r1.key != r2.key && r2.Set?
    ensures r2.key in R.Replay(R.Replay(map[], [r1, r2]), [r1])
    ensures r2.key !in R.Replay(map[], [r1])
  {
    assert [r1, r2][1].key == r2.key;
    R.ReplayLookup(map[], [r1, r2], r2.key);
    assert !R.Touches([r1], r2.key);
    R.ReplayLookup(R.Replay(map[], [r1, r2]), [r1], r2.key);
    R.ReplayLookup(map[], [r1], r2.key);
    assert R.Get(R.Replay(R.Replay(map[], [r1, r2]), [r1]), r2.key).Some?;
    assert R.Get(R.Replay(map[], [r1]), r2.key).None?;
  }

  /** Under every configuration there is a run, with a log that nobody rewrites, in which one build starts
      below the one before it and the merge that follows commits a checkpoint that is not the log at its
      index: the second key is in it at index 1. */
  lemma RegressedBuildBreaksMerge(c: Config) returns (b: Behaviour)
    ensures Goes(c, Discipline(true, false), b) && StableRun(c, b.ns, b.ss)
    ensures var n := Last(b);
            && RecordWrong(n) && n.rec.checkpoint.value.index == 1
            && SecondKey in n.dirs[n.rec.checkpoint.value.path.value].content && SecondKey !in Truth(n, 1)
  {
    b := ReachRegressed(c);
    RegressedDir();
    b := Merge(c, Discipline(true, false), b, "merged");
    TwoLogged(Last(b).log);
    assert B.Requests([First]) == [Set(FirstKey, [])];
    LongThenShort(Set(FirstKey, []), Set(SecondKey, []));
    forall i | 0 <= i < |b.ss| ensures StableLog(b.ns[i], b.ss[i]) { assert Fits(Discipline(true, false), b.ns[i], b.ss[i]); }
  }

  // ---------------------------------------------------------------- an entry rewritten after a build read it

  const Other := DeltaEntry(2, 1, Valid(Set(SecondKey, [])))

  /** A build has read entry 1; then another entry took its place. */
  function Rewritten(): Node {
    Node(map[1 := Other], 1, 1, WithDelta(WithCheckpoint(0, 1, 0, "root"), [First], 1, 0, "one"), NoMerge,
         map["root" := Dir(map[], 0, map[], 0, 0)], map["one" := [First]], {"root", "one"}, Idle, map[])
  }

  lemma OneLogged(log: map<u64, DeltaEntry>, e: DeltaEntry)
    requires log == map[1 := e]
    ensures Range(log, 1, 1) == [e] && Range(log, 0, 1) == [e]
  {
    assert Range(log, 1, 0) == [] && Range(log, 0, -1) == [] && Range(log, 0, 0) == [];
  }

  /** The same before: the entry the build read is still there. */
  lemma ReachRead(c: Config, k: Discipline) returns (b: Behaviour)
    ensures Goes(c, k, b) && Last(b) == Rewritten().(log := map[1 := First])
  {
    b := ReachRooted(c, k);
    b := Log(c, k, b, First);
    OneLogged(Last(b).log, First);
    b := BuildDelta(c, k, b, "one", [First]);
  }

  lemma ReachRewritten(c: Config) returns (b: Behaviour)
    ensures Goes(c, Discipline(false, true), b) && Last(b) == Rewritten()
  {
    b := ReachRead(c, Discipline(false, true));
    b := Log(c, Discipline(false, true), b, Other);
    assert Last(b).log == map[1 := Other];
  }

  lemma RewrittenDir()
    ensures var n := Rewritten();
            && B.CanMerge(n.rec, Contents(n.dirs), n.files) && MergedDir(n, n.rec).index == 1
            && MergedDir(n, n.rec).content == R.Replay(map[], [Set(FirstKey, [])])
  {
    var n := Rewritten();
    OneDelta(n, n.rec, "root", n.rec.chain[0], "one");
    assert B.Requests([First]) == [Set(FirstKey, [])];
  }

  lemma OneSet(k: Str)
    ensures R.Replay(map[], [Set(k, [])]) == map[k := []]
  {
    assert R.Replay(map[], []) == map[];
  }

  /** Under every configuration there is a run, with builds that only rise, in which an entry at an index a
      build had read is replaced and the merge that follows commits a checkpoint that is not the log at its
      index: it holds the key of the entry that is gone and lacks the key of the one in the log. */
  lemma RewrittenEntryBreaksMerge(c: Config) returns (b: Behaviour)
    ensures Goes(c, Discipline(false, true), b)
    ensures var n := Last(b);
            && RecordWrong(n) && n.rec.checkpoint.value.index == 1
            && n.dirs[n.rec.checkpoint.value.path.value].content == map[FirstKey := []]
            && Truth(n, 1) == map[SecondKey := []]
  {
    b := ReachRewritten(c);
    RewrittenDir();
    b := Merge(c, Discipline(false, true), b, "merged");
    OneLogged(Last(b).log, Other);
    assert B.Requests([Other]) == [Set(SecondKey, [])];
    OneSet(FirstKey);
    OneSet(SecondKey);
    assert FirstKey !in Truth(Last(b), 1);
  }

  /** Putting `e` into the log leaves the state at `t` as it is: it lies above `t`, or what it does differently
      from the entry it replaces, or from nothing, is overwritten in (e.index, t]. */
  ghost predicate Unnoticed(n: Node, e: DeltaEntry, t: int)
    requires B.LogOk(n.log) && e.payload.Valid?
  {
    || t < e.index
    || forall key: Str | !R.Touches(SliceRequests(n, e.index, t), key) ::
         R.Get(R.ApplyRequest(Truth(n, e.index - 1), e.payload.req), key) == R.Get(Truth(n, e.index), key)
  }

  lemma RewrittenTruth(n: Node, m: Node, e: DeltaEntry)
    requires B.LogOk(n.log) && B.LogOk(m.log) && e.payload.Valid? && m.log == n.log[e.index := e]
    ensures Truth(m, e.index) == R.ApplyRequest(Truth(n, e.index - 1), e.payload.req)
  {
    var i: int := e.index;
    RangeFrame(n.log, m.log, 0, i - 1);
    TruthExtends(m, i - 1, i);
    assert Range(m.log, i, i - 1) == [];
    assert Slice(m, i - 1, i) == [e];
    assert SliceRequests(m, i - 1, i) == [e.payload.req];
    assert R.Replay(Truth(m, i - 1), []) == Truth(m, i - 1);
  }

  lemma UnnoticedExact(n: Node, m: Node, e: DeltaEntry, t: int)
    requires B.LogOk(n.log) && B.LogOk(m.log) && e.payload.Valid? && m.log == n.log[e.index := e]
    ensures Truth(m, t) == Truth(n, t) <==> Unnoticed(n, e, t)
  {
    var i: int := e.index;
    if t < i {
      RangeFrame(n.log, m.log, 0, t);
    } else {
      RangeFrame(n.log, m.log, i + 1, t);
      RewrittenTruth(n, m, e);
      TruthExtends(n, i, t);
      TruthExtends(m, i, t);
      R.ReplayAgrees(Truth(m, i), Truth(n, i), SliceRequests(n, i, t));
    }
  }

  /** Rewriting any entry leaves a record standing for the log exactly when it goes unnoticed at the
      checkpoint's index and at the end of every delta whose file is there. */
  lemma OverwriteExact(n: Node, rec: SnapshotMetaState, e: DeltaEntry)
    requires B.LogOk(n.log) && e.payload.Valid? && RecordTrue(n, rec)
    requires rec.checkpoint.Some? && rec.checkpoint.value.path.Some? && rec.checkpoint.value.path.value in n.dirs
    ensures var m := n.(log := n.log[e.index := e]);
            && B.LogOk(m.log)
            && (RecordTrue(m, rec) <==>
                && Unnoticed(n, e, rec.checkpoint.value.index)
                && forall d <- rec.chain | d.path.Some? && d.path.value in n.files :: Unnoticed(n, e, d.end))
  {
    var m := n.(log := n.log[e.index := e]);
    var cp := rec.checkpoint.value;
    UnnoticedExact(n, m, e, cp.index);
    forall d | d in rec.chain ensures Truth(m, d.end) == Truth(n, d.end) <==> Unnoticed(n, e, d.end)
    {
      UnnoticedExact(n, m, e, d.end);
    }
    if cp.index <= n.applied {
      TruthExtends(m, cp.index, n.applied);
    }
  }

  // ---------------------------------------------------------------- a full checkpoint without the data

  /** Even within the discipline: a full build after one request, on a tree that holds none of the key-value
      data, records a checkpoint that is not the log at its index. */
  lemma EmptyRootIsWrong(c: Config) returns (b: Behaviour)
    ensures RisingRun(c, b.ns, b.ss)
    ensures var n := Last(b);
            && RecordWrong(n) && n.dirs[n.rec.checkpoint.value.path.value].base == map[]
            && Truth(n, n.rec.checkpoint.value.index) == map[FirstKey := []]
  {
    var k := Discipline(true, true);
    b := Log(c, k, Start, First);
    b := BuildFull(c, k, b, "root", map[]);
    OneLogged(Last(b).log, First);
    assert B.Requests([First]) == [Set(FirstKey, [])];
    OneSet(FirstKey);
    assert FirstKey in Truth(Last(b), 1);
    forall i | 0 <= i < |b.ss| ensures StableLog(b.ns[i], b.ss[i]) && Rising(b.ns[i], b.ss[i]) { assert Fits(k, b.ns[i], b.ss[i]); }
  }

  // ---------------------------------------------------------------- merges and builds at once

  lemma FullyDisciplined(c: Config, b: Behaviour)
    requires Goes(c, Discipline(true, true), b)
    ensures RisingRun(c, b.ns, b.ss)
  {
    forall i | 0 <= i < |b.ss| ensures StableLog(b.ns[i], b.ss[i]) && Rising(b.ns[i], b.ss[i])
    {
      assert Fits(Discipline(true, true), b.ns[i], b.ss[i]);
    }
  }

  /** Nothing keeps merges apart: under every configuration two tasks can hold the same record at once. */
  lemma MergesOverlap(c: Config) returns (b: Behaviour)
    ensures RisingRun(c, b.ns, b.ss)
    ensures var n := Last(b);
            && n.rec.chain != [] && 0 in n.tasks && 1 in n.tasks
            && n.tasks[0].phase == Holding(n.rec) && n.tasks[1].phase == Holding(n.rec)
  {
    var k := Discipline(true, true);
    b := ReachRead(c, k);
    b := StartMerge(c, k, b, 0);
    b := StartMerge(c, k, b, 1);
    FullyDisciplined(c, b);
  }

  /** A task holds the record with one delta; the record has two. */
  predicate SecondBuilt(n: Node) {
    && 0 in n.tasks && n.tasks[0].phase == Holding(Rewritten().rec)
    && n.rec == WithDelta(Rewritten().rec, [First, Second], 1, 0, "two")
    && n.applied == 2 && "merged" !in n.used
    && n.dirs == map["root" := Dir(map[], 0, map[], 0, 0)] && n.files == map["one" := [First], "two" := [First, Second]]
  }

  lemma ReachSecondBuild(c: Config) returns (b: Behaviour)
    ensures Goes(c, Discipline(true, true), b) && SecondBuilt(Last(b))
  {
    var k := Discipline(true, true);
    b := ReachRead(c, k);
    b := StartMerge(c, k, b, 0);
    b := Log(c, k, b, Second);
    assert Last(b).log == map[1 := First, 2 := Second];
    TwoLogged(Last(b).log);
    b := BuildDelta(c, k, b, "two", [First, Second]);
  }

  /** A build that saves its record while a merge is under way loses its delta when the merge commits: under every
      configuration there is a run after which the record ends at index 1, with no delta, though it has named a
      delta that ends at index 2 and whose file is still there. */
  lemma CommitDropsDelta(c: Config) returns (b: Behaviour, j: nat)
    ensures RisingRun(c, b.ns, b.ss)
    ensures var n := Last(b);
            && j < |b.ns| && |b.ns[j].rec.chain| == 2 && b.ns[j].rec.chain[1].end == 2 && b.ns[j].rec.chain[1].path == Some("two")
            && n.rec.chain == [] && MergeIndex(n.rec) == 1 && n.applied == 2
            && "two" in n.files && n.files["two"] == [First, Second]
  {
    b := ReachSecondBuild(c);
    j := |b.ns| - 1;
    var before := Last(b);
    var held := before.tasks[0].phase.rec;
    OneDelta(before, held, "root", held.chain[0], "one");
    b := EndMerge(c, Discipline(true, true), b, 0, "merged", held);
    assert b.ns[j] == before;
    FullyDisciplined(c, b);
  }
}
