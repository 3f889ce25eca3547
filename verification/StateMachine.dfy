/** What applying, logging and installing amount to over whole streams and between two nodes. */
module StateMachine {
  import opened Types
  import opened Records
  import opened Ranges
  import opened Storage
  import B = Backend
  import R = Replay

  // ---------------------------------------------------------------- apply

  /** The requests of the Normal entries, in order. */
  function Normals(es: seq<Entry>): seq<KVRequest> {
    if es == [] then []
    else Normals(es[..|es| - 1]) + var e := es[|es| - 1]; if e.payload.Normal? then [e.payload.req] else []
  }

  /** The last membership change of a stream, if any. */
  function LastChange(es: seq<Entry>): Option<StoredMembership> {
    if es == [] then None
    else
      var e := es[|es| - 1];
      if e.payload.Change? then Some(StoredMembership(Some(e.id), e.payload.membership))
      else LastChange(es[..|es| - 1])
  }

  lemma {:induction false} ApplyFoldsMap(s: Store, es: seq<Entry>)
    ensures ApplyAll(s, es).kv == R.Replay(s.kv, Normals(es))
  {
    if es != [] {
      var front, e := es[..|es| - 1], es[|es| - 1];
      ApplyFoldsMap(s, front);
      if e.payload.Normal? {
        R.ReplayConcat(s.kv, Normals(front), [e.payload.req]);
        assert R.Replay(ApplyAll(s, front).kv, []) == ApplyAll(s, front).kv;
      } else {
        assert Normals(es) == Normals(front);
      }
    }
  }

  lemma {:induction false} ApplyKeepsLast(s: Store, es: seq<Entry>)
    ensures var t := ApplyAll(s, es);
            && t.applied == (if es == [] then s.applied
                             else AppliedState(es[|es| - 1].id.index, es[|es| - 1].id.term))
            && t.membership == (if LastChange(es).Some? then LastChange(es).value else s.membership)
            && t.entries == s.entries && t.purged == s.purged
  {
    if es != [] {
      ApplyKeepsLast(s, es[..|es| - 1]);
    }
  }

  lemma {:induction false} ApplyConcat(s: Store, a: seq<Entry>, b: seq<Entry>)
    ensures ApplyAll(s, a + b) == ApplyAll(ApplyAll(s, a), b)
  {
    if b == [] {
      assert a + b == a;
    } else {
      ApplyConcat(s, a, b[..|b| - 1]);
      assert (a + b)[..|a + b| - 1] == a + b[..|b| - 1];
    }
  }

  /** The last Normal entry of a batch at an index. */
  function LastNormalAt(es: seq<Entry>, i: u64): Option<Entry> {
    if es == [] then None
    else
      var e := es[|es| - 1];
      if e.payload.Normal? && e.id.index == i then Some(e) else LastNormalAt(es[..|es| - 1], i)
  }

  /** `t` is delta log `s` with the Normal entries of a batch written into it, the last one at an index winning. */
  predicate LogsBatch(s: map<u64, DeltaEntry>, es: seq<Entry>, t: map<u64, DeltaEntry>, i: u64) {
    var e := LastNormalAt(es, i);
    if e.Some? && e.value.payload.Normal? then
      i in t && t[i].term == e.value.id.term && t[i].index == i && t[i].payload == Valid(e.value.payload.req)
    else
      (i in t <==> i in s) && (i in t ==> t[i] == s[i])
  }

  /** Whether or not they were seen before, `append` and `apply` both write every Normal entry, and nothing
      else, into the delta log. */
  lemma {:induction false} BatchIsLogged(s: Store, es: seq<Entry>, i: u64)
    ensures LogsBatch(s.raftLogs, es, AppendAll(s, es).raftLogs, i)
    ensures LogsBatch(s.raftLogs, es, ApplyAll(s, es).raftLogs, i)
  {
    if es != [] {
      BatchIsLogged(s, es[..|es| - 1], i);
    }
  }

  function ApplyBatches(s: Store, bs: seq<seq<Entry>>): Store {
    if bs == [] then s else ApplyAll(ApplyBatches(s, bs[..|bs| - 1]), bs[|bs| - 1])
  }

  function Flatten(bs: seq<seq<Entry>>): seq<Entry> {
    if bs == [] then [] else Flatten(bs[..|bs| - 1]) + bs[|bs| - 1]
  }

  /** However the committed stream is split into batches: the map is the fold of the Normal entries,
      the applied state is the last entry's id, and the membership is the last one seen. */
  lemma {:induction false} BatchingIsInvisible(s: Store, bs: seq<seq<Entry>>)
    ensures ApplyBatches(s, bs) == ApplyAll(s, Flatten(bs))
    ensures var t, es := ApplyBatches(s, bs), Flatten(bs);
            && t.kv == R.Replay(s.kv, Normals(es))
            && (es != [] ==> t.applied == AppliedState(es[|es| - 1].id.index, es[|es| - 1].id.term))
            && t.membership == (if LastChange(es).Some? then LastChange(es).value else s.membership)
  {
    if bs != [] {
      BatchingIsInvisible(s, bs[..|bs| - 1]);
      ApplyConcat(s, Flatten(bs[..|bs| - 1]), bs[|bs| - 1]);
    }
    ApplyFoldsMap(s, Flatten(bs));
    ApplyKeepsLast(s, Flatten(bs));
  }

  // ---------------------------------------------------------------- the delta log against the Raft log

  /** What can happen to the log: appends, truncations, purges, and applying entries it holds. */
  datatype LogOp = Appends(es: seq<Entry>) | Truncates(last: Option<LogId>) | Purges(id: LogId) | Applies(es: seq<Entry>)

  function Step(s: Store, op: LogOp): Store {
    match op
    case Appends(es) => AppendAll(s, es)
    case Truncates(last) => Truncated(s, last)
    case Purges(id) => Purged(s, id)
    case Applies(es) => ApplyAll(s, es)
  }

  function Appended(h: map<u64, Entry>, es: seq<Entry>): map<u64, Entry> {
    if es == [] then h
    else var e := es[|es| - 1]; Appended(h, es[..|es| - 1])[e.id.index := e]
  }

  /** The Raft log with purged entries kept: what the node has appended and not truncated. */
  function History(h: map<u64, Entry>, op: LogOp): map<u64, Entry> {
    match op
    case Appends(es) => Appended(h, es)
    case Truncates(None) => map[]
    case Truncates(Some(id)) => map i | i in h && i <= id.index :: h[i]
    case Purges(_) => h
    case Applies(_) => h
  }

  predicate Legal(h: map<u64, Entry>, op: LogOp) {
    op.Applies? ==> forall e <- op.es :: e.id.index in h && h[e.id.index] == e
  }

  /** The delta-log record of a Normal entry. */
  function Logged(e: Entry): DeltaEntry
    requires e.payload.Normal?
  {
    DeltaEntry(e.id.term, e.id.index, Valid(e.payload.req))
  }

  predicate Keyed(h: map<u64, Entry>) { forall i | i in h :: h[i].id.index == i }

  /** Every Normal entry of the log is in the delta log as it stands. */
  predicate Covers(logs: map<u64, DeltaEntry>, h: map<u64, Entry>) {
    forall i | i in h && h[i].payload.Normal? :: i in logs && logs[i] == Logged(h[i])
  }

  /** The delta log holds nothing else. */
  predicate NoStale(logs: map<u64, DeltaEntry>, h: map<u64, Entry>) {
    forall i | i in logs :: i in h && h[i].payload.Normal?
  }

  function NormalMap(h: map<u64, Entry>): map<u64, DeltaEntry> {
    map i | i in h && h[i].payload.Normal? :: Logged(h[i])
  }

  lemma {:induction false} AppendCovers(s: Store, h: map<u64, Entry>, es: seq<Entry>)
    requires Keyed(h) && Covers(s.raftLogs, h)
    ensures Keyed(Appended(h, es)) && Covers(AppendAll(s, es).raftLogs, Appended(h, es))
  {
    if es != [] {
      AppendCovers(s, h, es[..|es| - 1]);
    }
  }

  lemma {:induction false} ApplyCovers(s: Store, h: map<u64, Entry>, es: seq<Entry>)
    requires Keyed(h) && Covers(s.raftLogs, h) && Legal(h, Applies(es))
    ensures Covers(ApplyAll(s, es).raftLogs, h)
    ensures forall i :: i in ApplyAll(s, es).raftLogs <==> i in s.raftLogs
  {
    if es != [] {
      var e := es[|es| - 1];
      assert e in es;
      ApplyCovers(s, h, es[..|es| - 1]);
    }
  }

  function Steps(s: Store, ops: seq<LogOp>): Store {
    if ops == [] then s else Step(Steps(s, ops[..|ops| - 1]), ops[|ops| - 1])
  }

  function Histories(h: map<u64, Entry>, ops: seq<LogOp>): map<u64, Entry> {
    if ops == [] then h else History(Histories(h, ops[..|ops| - 1]), ops[|ops| - 1])
  }

  predicate AllLegal(h: map<u64, Entry>, ops: seq<LogOp>) {
    ops == [] || (AllLegal(h, ops[..|ops| - 1]) && Legal(Histories(h, ops[..|ops| - 1]), ops[|ops| - 1]))
  }

  lemma StepCovers(s: Store, h: map<u64, Entry>, op: LogOp)
    requires Keyed(h) && Covers(s.raftLogs, h) && Legal(h, op)
    ensures Keyed(History(h, op)) && Covers(Step(s, op).raftLogs, History(h, op))
  {
    match op {
      case Appends(es) => AppendCovers(s, h, es);
      case Applies(es) => ApplyCovers(s, h, es);
      case Truncates(_) =>
      case Purges(_) =>
    }
  }

  lemma CoversExact(logs: map<u64, DeltaEntry>, h: map<u64, Entry>)
    requires Covers(logs, h)
    ensures logs == NormalMap(h) <==> NoStale(logs, h)
  {
  }

  /** The indices at which a batch appends a Normal entry. */
  function NormalIndices(es: seq<Entry>): set<u64> {
    if es == [] then {}
    else NormalIndices(es[..|es| - 1]) + var e := es[|es| - 1]; if e.payload.Normal? then {e.id.index} else {}
  }

  /** The indices at which a run ever appended a Normal entry. */
  function EverNormal(ops: seq<LogOp>): set<u64> {
    if ops == [] then {}
    else EverNormal(ops[..|ops| - 1]) + var op := ops[|ops| - 1]; if op.Appends? then NormalIndices(op.es) else {}
  }

  lemma {:induction false} AppendKeys(s: Store, es: seq<Entry>)
    ensures AppendAll(s, es).raftLogs.Keys == s.raftLogs.Keys + NormalIndices(es)
  {
    if es != [] {
      AppendKeys(s, es[..|es| - 1]);
    }
  }

  lemma {:induction false} RunCovers(s: Store, h: map<u64, Entry>, ops: seq<LogOp>)
    requires Keyed(h) && Covers(s.raftLogs, h) && AllLegal(h, ops)
    ensures Keyed(Histories(h, ops)) && Covers(Steps(s, ops).raftLogs, Histories(h, ops))
  {
    if ops != [] {
      var front := ops[..|ops| - 1];
      RunCovers(s, h, front);
      StepCovers(Steps(s, front), Histories(h, front), ops[|ops| - 1]);
    }
  }

  lemma {:induction false} RunKeys(s: Store, h: map<u64, Entry>, ops: seq<LogOp>)
    requires Keyed(h) && Covers(s.raftLogs, h) && AllLegal(h, ops)
    ensures Steps(s, ops).raftLogs.Keys == s.raftLogs.Keys + EverNormal(ops)
  {
    if ops != [] {
      var front, op := ops[..|ops| - 1], ops[|ops| - 1];
      RunKeys(s, h, front);
      RunCovers(s, h, front);
      match op {
        case Appends(es) => AppendKeys(Steps(s, front), es);
        case Applies(es) => ApplyCovers(Steps(s, front), Histories(h, front), es);
        case _ =>
      }
    }
  }

  /** Over every run, truncations and overwrites included: the delta log never misses or garbles a Normal
      entry of the log; its indices are all those at which a Normal entry was ever appended, truncated or
      not; so it is exactly the log's Normal entries if and only if each of those indices still holds one. */
  lemma DeltaLogCovers(s: Store, h: map<u64, Entry>, ops: seq<LogOp>)
    requires Keyed(h) && Covers(s.raftLogs, h) && AllLegal(h, ops)
    ensures var t, k := Steps(s, ops), Histories(h, ops);
            && Keyed(k) && Covers(t.raftLogs, k)
            && t.raftLogs.Keys == s.raftLogs.Keys + EverNormal(ops)
            && (t.raftLogs == NormalMap(k) <==>
                forall i | i in s.raftLogs.Keys + EverNormal(ops) :: i in k && k[i].payload.Normal?)
  {
    RunCovers(s, h, ops);
    RunKeys(s, h, ops);
    CoversExact(Steps(s, ops).raftLogs, Histories(h, ops));
  }

  /** Hence a delta built after the run holds exactly the log's Normal entries in its range if and only if
      each index in that range that ever had a Normal entry still has one. */
  lemma BuiltDeltaExact(s: Store, h: map<u64, Entry>, ops: seq<LogOp>, base: u64)
    requires Keyed(h) && Covers(s.raftLogs, h) && AllLegal(h, ops)
    ensures var t, k := Steps(s, ops), Histories(h, ops);
            DeltaFor(t, base) == Range(NormalMap(k), base + 1, t.applied.index) <==>
            forall i | i in s.raftLogs.Keys + EverNormal(ops) && base < i <= t.applied.index :: i in k && k[i].payload.Normal?
  {
    DeltaLogCovers(s, h, ops);
    var t, k := Steps(s, ops), Histories(h, ops);
    var top: int := t.applied.index;
    if forall i | i in t.raftLogs && base < i <= top :: i in NormalMap(k) {
      RangeFrame(t.raftLogs, NormalMap(k), base + 1, top);
    } else {
      var i :| i in t.raftLogs && base < i <= top && i !in NormalMap(k);
      LongerRange(NormalMap(k), t.raftLogs, base + 1, top, i);
    }
  }

  /** A range of a larger map is longer when one of the extra keys is inside it. */
  lemma {:induction false} LongerRange<T>(m: map<u64, T>, n: map<u64, T>, lo: int, hi: int, x: int)
    requires forall i | i in m :: i in n
    ensures |Range(m, lo, hi)| <= |Range(n, lo, hi)|
    ensures lo <= x <= hi && x in n && x !in m ==> |Range(m, lo, hi)| < |Range(n, lo, hi)|
    decreases hi - lo
  {
    if lo <= hi {
      LongerRange(m, n, lo, hi - 1, x);
    }
  }

  /** No truncation, and an index is only ever appended again with the same entry. */
  predicate Growing(h: map<u64, Entry>, op: LogOp) {
    && !op.Truncates?
    && (op.Appends? ==>
          forall n | 0 <= n < |op.es| ::
            var before := Appended(h, op.es[..n]);
            op.es[n].id.index in before ==> before[op.es[n].id.index] == op.es[n])
  }

  predicate AllGrowing(h: map<u64, Entry>, ops: seq<LogOp>) {
    ops == [] || (AllGrowing(h, ops[..|ops| - 1]) && Growing(Histories(h, ops[..|ops| - 1]), ops[|ops| - 1]))
  }

  lemma {:induction false} AppendNoStale(s: Store, h: map<u64, Entry>, es: seq<Entry>)
    requires Keyed(h) && NoStale(s.raftLogs, h) && Growing(h, Appends(es))
    ensures NoStale(AppendAll(s, es).raftLogs, Appended(h, es))
  {
    if es != [] {
      var front := es[..|es| - 1];
      forall n | 0 <= n < |front|
        ensures var before := Appended(h, front[..n]);
                front[n].id.index in before ==> before[front[n].id.index] == front[n]
      {
        assert front[..n] == es[..n] && front[n] == es[n];
      }
      AppendNoStale(s, h, front);
      assert es[..|es| - 1] == front;
    }
  }

  /** In runs without truncation or overwrite the delta log is exactly the Normal entries of the log. */
  lemma {:induction false} DeltaLogExact(s: Store, h: map<u64, Entry>, ops: seq<LogOp>)
    requires Keyed(h) && s.raftLogs == NormalMap(h) && AllLegal(h, ops) && AllGrowing(h, ops)
    ensures Steps(s, ops).raftLogs == NormalMap(Histories(h, ops))
  {
    DeltaLogCovers(s, h, ops);
    if ops != [] {
      var front, op := ops[..|ops| - 1], ops[|ops| - 1];
      DeltaLogExact(s, h, front);
      DeltaLogCovers(s, h, front);
      match op {
        case Appends(es) => AppendNoStale(Steps(s, front), Histories(h, front), es);
        case Applies(es) => ApplyCovers(Steps(s, front), Histories(h, front), es);
        case _ =>
      }
    }
  }

  /** With a truncation it is not: a truncated Normal entry whose index a Blank entry takes is still in the
      delta log and in the delta built from it, though no node ever applied it; and a follower with the same
      map that installs that delta ends with the request applied. */
  lemma TruncatedEntryStays(s: Store, r: KVRequest, term: u64)
    requires s.raftLogs == map[] && s.applied.index == 0
    ensures var normal := Entry(LogId(term, 1), Normal(r));
            var blank := Entry(LogId(term, 1), Blank);
            var ops := [Appends([normal]), Truncates(None), Appends([blank]), Applies([blank])];
            var t := Steps(s, ops);
            && AllLegal(map[], ops)
            && Histories(map[], ops) == map[1 := blank]
            && t.raftLogs == map[1 := Logged(normal)] && t.kv == s.kv && t.applied.index == 1
            && DeltaFor(t, 0) == [Logged(normal)]
            && CaughtUp(t, s).0.kv == R.ApplyRequest(s.kv, r)
  {
    var normal := Entry(LogId(term, 1), Normal(r));
    var blank := Entry(LogId(term, 1), Blank);
    var ops := [Appends([normal]), Truncates(None), Appends([blank]), Applies([blank])];
    OneMore(s, map[], [], ops[0]);
    OneMore(s, map[], [ops[0]], ops[1]);
    OneMore(s, map[], [ops[0], ops[1]], ops[2]);
    OneMore(s, map[], [ops[0], ops[1], ops[2]], ops[3]);
    assert [ops[0]] + [ops[1]] == [ops[0], ops[1]];
    assert [ops[0], ops[1]] + [ops[2]] == [ops[0], ops[1], ops[2]];
    assert [ops[0], ops[1], ops[2]] + [ops[3]] == ops;
    assert [] + [ops[0]] == [ops[0]];
    OneEntry(s, map[], normal);
    OneEntry(Steps(s, [ops[0], ops[1]]), map[], blank);
    OneEntry(Steps(s, [ops[0], ops[1], ops[2]]), map[], blank);
    StaleInstall(Steps(s, ops), s, Logged(normal));
  }

  lemma StaleInstall(source: Store, follower: Store, e: DeltaEntry)
    requires source.raftLogs == map[1 := e] && source.applied.index == 1 && e.index == 1 && e.payload.Valid?
    requires follower.applied.index == 0
    ensures DeltaFor(source, 0) == [e]
    ensures CaughtUp(source, follower).0.kv == R.ApplyRequest(follower.kv, e.payload.req)
  {
    assert Range(source.raftLogs, 1, 0) == [];
    CompleteInstall(follower, MetaFor(source), [e]);
    assert B.Requests([e]) == [e.payload.req];
    assert R.Replay(follower.kv, []) == follower.kv;
  }

  lemma OneMore(s: Store, h: map<u64, Entry>, ops: seq<LogOp>, op: LogOp)
    ensures Steps(s, ops + [op]) == Step(Steps(s, ops), op)
    ensures Histories(h, ops + [op]) == History(Histories(h, ops), op)
    ensures AllLegal(h, ops + [op]) == (AllLegal(h, ops) && Legal(Histories(h, ops), op))
  {
    assert (ops + [op])[..|ops|] == ops;
  }

  lemma OneEntry(s: Store, h: map<u64, Entry>, e: Entry)
    ensures AppendAll(s, [e]) == AppendOne(s, e)
    ensures ApplyAll(s, [e]) == ApplyOne(s, e)
    ensures Appended(h, [e]) == h[e.id.index := e]
  {
    assert [e][..0] == [];
    assert AppendAll(s, []) == s && ApplyAll(s, []) == s && Appended(h, []) == h;
  }

  // ---------------------------------------------------------------- the map, the applied index and the log

  /** Every key the entries in (i, j] touch already has its final value in `kv`. */
  ghost predicate Settled(kv: R.KV, logs: map<u64, DeltaEntry>, i: int, j: int)
    requires B.LogOk(logs)
  {
    B.RangeDecodes(logs, i + 1, j);
    var rs := B.Requests(Range(logs, i + 1, j));
    forall k: Str | R.Touches(rs, k) :: R.LastWrite(rs, k) == R.Get(kv, k)
  }

  lemma AtSettled(m: R.KV, logs: map<u64, DeltaEntry>, i: int, j: int)
    requires B.LogOk(logs) && -1 <= i <= j
    ensures B.At(m, logs, i) == B.At(m, logs, j) <==> Settled(B.At(m, logs, i), logs, i, j)
  {
    B.AtExtends(m, logs, i, j);
    R.ReplayChangesNothing(B.At(m, logs, i), B.Requests(Range(logs, i + 1, j)));
  }

  /** The index of the last entry applied, from `done` on. */
  function Done(done: int, ops: seq<LogOp>): int {
    if ops == [] then done
    else
      var op := ops[|ops| - 1];
      if op.Applies? && op.es != [] then op.es[|op.es| - 1].id.index else Done(done, ops[..|ops| - 1])
  }

  /** Appends and truncations stay above what is applied, and entries are applied one index after the other. */
  predicate Ordered(done: int, op: LogOp) {
    match op
    case Appends(es) => forall n | 0 <= n < |es| :: done < es[n].id.index
    case Truncates(None) => done < 0
    case Truncates(Some(id)) => done <= id.index
    case Purges(_) => true
    case Applies(es) => forall n | 0 <= n < |es| :: es[n].id.index == done + 1 + n
  }

  predicate AllOrdered(done: int, ops: seq<LogOp>) {
    ops == [] || (AllOrdered(done, ops[..|ops| - 1]) && Ordered(Done(done, ops[..|ops| - 1]), ops[|ops| - 1]))
  }

  lemma {:induction false} AppendedAbove(s: Store, h: map<u64, Entry>, es: seq<Entry>, done: int)
    requires Ordered(done, Appends(es)) && done <= s.applied.index
    ensures var t, k := AppendAll(s, es), Appended(h, es);
            && t.kv == s.kv && done <= t.applied.index
            && (forall i | i <= done :: (i in h <==> i in k) && (i in h ==> h[i] == k[i]))
  {
    if es != [] {
      AppendedAbove(s, h, es[..|es| - 1], done);
    }
  }

  lemma SameBelow(m: R.KV, h: map<u64, Entry>, k: map<u64, Entry>, done: int)
    requires Keyed(h) && Keyed(k)
    requires forall i | i <= done :: (i in h <==> i in k) && (i in h ==> h[i] == k[i])
    ensures B.At(m, NormalMap(h), done) == B.At(m, NormalMap(k), done)
  {
    RangeFrame(NormalMap(h), NormalMap(k), 0, done);
  }

  /** `logs` holds the Normal entries of `h`. */
  predicate IsNormalMap(logs: map<u64, DeltaEntry>, h: map<u64, Entry>) {
    logs == NormalMap(h) && B.LogOk(logs)
  }

  lemma ApplyOneKeepsMap(s: Store, h: map<u64, Entry>, logs: map<u64, DeltaEntry>, e: Entry, m: R.KV)
    requires IsNormalMap(logs, h) && e.id.index in h && h[e.id.index] == e
    requires s.kv == B.At(m, logs, e.id.index - 1)
    ensures ApplyOne(s, e).kv == B.At(m, logs, e.id.index) && ApplyOne(s, e).applied.index == e.id.index
  {
    B.AtStep(m, logs, e.id.index);
  }

  lemma OrderedFront(h: map<u64, Entry>, es: seq<Entry>, done: int)
    requires es != [] && Legal(h, Applies(es)) && Ordered(done, Applies(es))
    ensures var front, e := es[..|es| - 1], es[|es| - 1];
            && Legal(h, Applies(front)) && Ordered(done, Applies(front))
            && e.id.index == done + |es| && e.id.index in h && h[e.id.index] == e
  {
    assert es[|es| - 1] in es;
  }

  lemma {:induction false} ApplyKeepsMap(s: Store, h: map<u64, Entry>, logs: map<u64, DeltaEntry>, es: seq<Entry>, m: R.KV, done: int)
    requires IsNormalMap(logs, h) && Legal(h, Applies(es)) && Ordered(done, Applies(es))
    requires s.kv == B.At(m, logs, done)
    ensures var t := ApplyAll(s, es);
            t.kv == B.At(m, logs, done + |es|) && (if es == [] then t == s else t.applied.index == done + |es|)
  {
    if es != [] {
      var front, e := es[..|es| - 1], es[|es| - 1];
      OrderedFront(h, es, done);
      ApplyKeepsMap(s, h, logs, front, m, done);
      ApplyOneKeepsMap(ApplyAll(s, front), h, logs, e, m);
    }
  }

  /** One operation in order: the map stays the log's Normal entries replayed up to the last one applied. */
  lemma StepKeepsMap(s: Store, h: map<u64, Entry>, op: LogOp, m: R.KV, done: int, d: int)
    requires Keyed(h) && Legal(h, op) && Ordered(done, op) && Keyed(History(h, op))
    requires -1 <= done <= s.applied.index && s.kv == B.At(m, NormalMap(h), done)
    requires d == if op.Applies? && op.es != [] then op.es[|op.es| - 1].id.index else done
    ensures -1 <= d <= Step(s, op).applied.index && Step(s, op).kv == B.At(m, NormalMap(History(h, op)), d)
  {
    match op {
      case Appends(es) =>
        AppendedAbove(s, h, es, done);
        SameBelow(m, h, History(h, op), done);
      case Truncates(_) => SameBelow(m, h, History(h, op), done);
      case Purges(_) =>
      case Applies(es) => ApplyKeepsMap(s, h, NormalMap(h), es, m, done);
    }
  }

  /** Over every run that appends and truncates above what is applied and applies in order, the map is the
      log's Normal entries replayed up to the last entry applied, which the applied index never trails. */
  lemma {:induction false} MapIsReplay(s: Store, h: map<u64, Entry>, ops: seq<LogOp>, m: R.KV, done: int)
    requires Keyed(h) && Covers(s.raftLogs, h) && AllLegal(h, ops) && AllOrdered(done, ops)
    requires -1 <= done <= s.applied.index && s.kv == B.At(m, NormalMap(h), done)
    ensures var t, k, d := Steps(s, ops), Histories(h, ops), Done(done, ops);
            Keyed(k) && -1 <= d <= t.applied.index && t.kv == B.At(m, NormalMap(k), d)
  {
    DeltaLogCovers(s, h, ops);
    if ops != [] {
      var front, op := ops[..|ops| - 1], ops[|ops| - 1];
      DeltaLogCovers(s, h, front);
      MapIsReplay(s, h, front, m, done);
      StepKeepsMap(Steps(s, front), Histories(h, front), op, m, Done(done, front), Done(done, ops));
    }
  }

  lemma {:induction false} EntriesLogOk(s: Store, es: seq<Entry>)
    requires B.LogOk(s.raftLogs)
    ensures B.LogOk(AppendAll(s, es).raftLogs) && B.LogOk(ApplyAll(s, es).raftLogs)
  {
    if es != [] {
      EntriesLogOk(s, es[..|es| - 1]);
    }
  }

  lemma {:induction false} StepsLogOk(s: Store, ops: seq<LogOp>)
    requires B.LogOk(s.raftLogs)
    ensures B.LogOk(Steps(s, ops).raftLogs)
  {
    if ops != [] {
      var front, op := ops[..|ops| - 1], ops[|ops| - 1];
      StepsLogOk(s, front);
      if op.Appends? || op.Applies? {
        EntriesLogOk(Steps(s, front), op.es);
      }
    }
  }

  /** So, as long as no index up to the applied one has lost its Normal entry, the map is the delta log
      replayed up to the last entry applied; and it is the delta log replayed up to the applied index,
      which `append` moves ahead, exactly when the entries in between change nothing. */
  lemma AppliedIndexExact(s: Store, h: map<u64, Entry>, ops: seq<LogOp>, m: R.KV, done: int)
    requires Keyed(h) && Covers(s.raftLogs, h) && AllLegal(h, ops) && AllOrdered(done, ops)
    requires -1 <= done <= s.applied.index && s.kv == B.At(m, NormalMap(h), done)
    requires forall i | i in s.raftLogs.Keys + EverNormal(ops) && i <= Steps(s, ops).applied.index ::
               i in Histories(h, ops) && Histories(h, ops)[i].payload.Normal?
    requires B.LogOk(s.raftLogs)
    ensures B.LogOk(Steps(s, ops).raftLogs)
    ensures var t, d := Steps(s, ops), Done(done, ops);
            && t.kv == B.At(m, t.raftLogs, d)
            && (t.kv == B.At(m, t.raftLogs, t.applied.index) <==> Settled(t.kv, t.raftLogs, d, t.applied.index))
  {
    var t, k, d := Steps(s, ops), Histories(h, ops), Done(done, ops);
    DeltaLogCovers(s, h, ops);
    MapIsReplay(s, h, ops, m, done);
    StepsLogOk(s, ops);
    RangeFrame(t.raftLogs, NormalMap(k), 0, d);
    AtSettled(m, t.raftLogs, d, t.applied.index);
  }

  /** The id of the last Normal entry of a batch, if any. */
  function LastNormal(es: seq<Entry>): Option<LogId> {
    if es == [] then None
    else
      var e := es[|es| - 1];
      if e.payload.Normal? then Some(e.id) else LastNormal(es[..|es| - 1])
  }

  /** Whatever the batch, `append` moves the applied state to its last Normal entry and otherwise leaves it
      alone, as it does the map, the membership and the purge mark. */
  lemma {:induction false} AppendApplied(s: Store, es: seq<Entry>)
    ensures var t, id := AppendAll(s, es), LastNormal(es);
            && (id.Some? ==> t.applied.index == id.value.index && t.applied.term == id.value.term)
            && (id.None? ==> t.applied == s.applied)
            && (t.kv, t.membership, t.purged) == (s.kv, s.membership, s.purged)
  {
    if es != [] {
      AppendApplied(s, es[..|es| - 1]);
    }
  }

  /** The id an operation leaves applied, if it moves it: the last entry appended as Normal, or applied. */
  function Mark(op: LogOp): Option<LogId> {
    match op
    case Appends(es) => LastNormal(es)
    case Applies(es) => if es == [] then None else Some(es[|es| - 1].id)
    case Truncates(_) => None
    case Purges(_) => None
  }

  function LastMark(ops: seq<LogOp>): Option<LogId> {
    if ops == [] then None
    else if Mark(ops[|ops| - 1]).Some? then Mark(ops[|ops| - 1])
    else LastMark(ops[..|ops| - 1])
  }

  /** Over every run the applied state is the id of the last entry that was applied, or appended as Normal. */
  lemma {:induction false} RunApplied(s: Store, ops: seq<LogOp>)
    ensures var t, id := Steps(s, ops), LastMark(ops);
            && (id.Some? ==> t.applied.index == id.value.index && t.applied.term == id.value.term)
            && (id.None? ==> t.applied == s.applied)
  {
    if ops != [] {
      var front, op := ops[..|ops| - 1], ops[|ops| - 1];
      RunApplied(s, front);
      if op.Appends? {
        AppendApplied(Steps(s, front), op.es);
      } else if op.Applies? {
        ApplyKeepsLast(Steps(s, front), op.es);
      }
    }
  }

  /** All entries a run applied, in order. */
  function AppliedEntries(ops: seq<LogOp>): seq<Entry> {
    if ops == [] then []
    else AppliedEntries(ops[..|ops| - 1]) + if ops[|ops| - 1].Applies? then ops[|ops| - 1].es else []
  }

  function LastPurge(ops: seq<LogOp>): Option<LogId> {
    if ops == [] then None
    else if ops[|ops| - 1].Purges? then Some(ops[|ops| - 1].id)
    else LastPurge(ops[..|ops| - 1])
  }

  /** Over every run, in whatever order: the map is the fold of the Normal entries applied, the membership the last one
      applied, and the purge mark the last one set. Appending, truncating and purging touch neither of the first two. */
  lemma {:induction false} RunFolds(s: Store, ops: seq<LogOp>)
    ensures var t, es := Steps(s, ops), AppliedEntries(ops);
            && t.kv == R.Replay(s.kv, Normals(es))
            && t.membership == (if LastChange(es).Some? then LastChange(es).value else s.membership)
            && t.purged == (if LastPurge(ops).Some? then LastPurge(ops) else s.purged)
  {
    if ops != [] {
      var front, op := ops[..|ops| - 1], ops[|ops| - 1];
      RunFolds(s, front);
      if op.Applies? {
        AppliesFold(s.kv, s.membership, Steps(s, front), AppliedEntries(front), op.es);
      } else {
        OthersKeep(Steps(s, front), op);
        assert AppliedEntries(ops) == AppliedEntries(front);
      }
    }
  }

  lemma OthersKeep(s: Store, op: LogOp)
    requires !op.Applies?
    ensures var t := Step(s, op);
            (t.kv, t.membership, t.purged) == (s.kv, s.membership, if op.Purges? then Some(op.id) else s.purged)
  {
    if op.Appends? {
      AppendApplied(s, op.es);
    }
  }

  lemma AppliesFold(kv: R.KV, membership: StoredMembership, s: Store, before: seq<Entry>, es: seq<Entry>)
    requires s.kv == R.Replay(kv, Normals(before))
    requires s.membership == if LastChange(before).Some? then LastChange(before).value else membership
    ensures var t := ApplyAll(s, es);
            && t.kv == R.Replay(kv, Normals(before + es))
            && t.membership == (if LastChange(before + es).Some? then LastChange(before + es).value else membership)
            && t.purged == s.purged
  {
    ApplyFoldsMap(s, es);
    ApplyKeepsLast(s, es);
    NormalsConcat(before, es);
    R.ReplayConcat(kv, Normals(before), Normals(es));
  }

  lemma {:induction false} NormalsConcat(a: seq<Entry>, b: seq<Entry>)
    ensures Normals(a + b) == Normals(a) + Normals(b)
    ensures LastChange(a + b) == if LastChange(b).Some? then LastChange(b) else LastChange(a)
  {
    if b == [] {
      assert a + b == a;
    } else {
      NormalsConcat(a, b[..|b| - 1]);
      assert (a + b)[..|a + b| - 1] == a + b[..|b| - 1];
    }
  }

  /** `append` puts the applied index at the last Normal entry appended, before it is committed, and `apply`
      moves it back to wherever the commit has got. */
  lemma AppliedMovesBack(s: Store, es: seq<Entry>, n: nat)
    requires n < |es| && es[|es| - 1].payload.Normal?
    ensures AppendAll(s, es).applied.index == es[|es| - 1].id.index
    ensures ApplyAll(AppendAll(s, es), es[..n + 1]).applied.index == es[n].id.index
  {
    ApplyKeepsLast(AppendAll(s, es), es[..n + 1]);
  }

  /** `truncate_after` and a new `append` replace what the delta log holds at an index the applied index had
      already reached. */
  lemma AppliedEntryReplaced(s: Store, a: Entry, b: Entry, keep: LogId)
    requires a.payload.Normal? && b.payload.Normal? && a.id.index == b.id.index && keep.index < a.id.index
    ensures var before := Steps(s, [Appends([a])]);
            var after := Steps(s, [Appends([a]), Truncates(Some(keep)), Appends([b])]);
            && before.applied.index == a.id.index == after.applied.index
            && a.id.index in before.raftLogs && before.raftLogs[a.id.index] == Logged(a)
            && a.id.index in after.raftLogs && after.raftLogs[a.id.index] == Logged(b)
  {
    var ops := [Appends([a]), Truncates(Some(keep)), Appends([b])];
    OneMore(s, map[], [], ops[0]);
    OneMore(s, map[], [ops[0]], ops[1]);
    OneMore(s, map[], [ops[0], ops[1]], ops[2]);
    assert [] + [ops[0]] == [ops[0]] && [ops[0]] + [ops[1]] == [ops[0], ops[1]];
    assert [ops[0], ops[1]] + [ops[2]] == ops;
    OneEntry(s, map[], a);
    OneEntry(Steps(s, [ops[0], ops[1]]), map[], b);
  }

  // ---------------------------------------------------------------- installing a delta

  function DeltaMap(es: seq<DeltaEntry>): map<u64, DeltaEntry> {
    if es == [] then map[] else DeltaMap(es[..|es| - 1])[es[|es| - 1].index := es[|es| - 1]]
  }

  /** Replaying a delta: the entries go to the delta log and the last one is applied. */
  lemma {:induction false} ReplayDeltaFold(s: Store, es: seq<DeltaEntry>)
    requires B.Decodable(es)
    ensures var t := ReplayDelta(s, es);
            && t.raftLogs == s.raftLogs + DeltaMap(es)
            && t.applied == (if es == [] then s.applied else AppliedState(es[|es| - 1].index, es[|es| - 1].term))
            && (t.entries, t.purged, t.membership) == (s.entries, s.purged, s.membership)
  {
    if es != [] {
      var front := es[..|es| - 1];
      assert es[|es| - 1] in es;
      ReplayDeltaFold(s, front);
    }
  }

  lemma {:induction false} ReplayDeltaMap(s: Store, es: seq<DeltaEntry>)
    requires B.Decodable(es)
    ensures ReplayDelta(s, es).kv == R.Replay(s.kv, B.Requests(es))
  {
    if es != [] {
      var front := es[..|es| - 1];
      assert es[|es| - 1] in es;
      ReplayDeltaMap(s, front);
      assert B.Requests(es)[..|es| - 1] == B.Requests(front);
    }
  }

  /** The id a delta of decodable entries leaves applied: its last entry's. */
  function LastReplayed(s: Store, es: seq<DeltaEntry>): AppliedState {
    if es == [] then s.applied else AppliedState(es[|es| - 1].index, es[|es| - 1].term)
  }

  /** An install succeeds exactly on a full snapshot that restores, or a delta off the applied index whose
      entries all decode. Either way it then takes the snapshot's membership and its last id, and without
      one keeps the id of the last entry replayed. A full snapshot leaves the map and the delta log alone.
      A failed install leaves everything as it was, unless delta entries were replayed before a corrupt
      one; the Raft log and, on failure, the membership are never touched. */
  lemma InstallOutcome(s: Store, meta: SnapshotMeta, incoming: Incoming)
    ensures var (t, err) := Installed(s, meta, incoming);
            && (err == None <==>
                || (incoming.FullSnapshot? && incoming.restores)
                || (incoming.DeltaSnapshot? && incoming.baseIndex == s.applied.index && B.Decodable(incoming.entries)))
            && (err == None ==> t.membership == meta.membership)
            && (err == None && meta.last.Some? ==>
                  t.applied.index == meta.last.value.index && t.applied.term == meta.last.value.term)
            && (err == None && meta.last.None? ==>
                  t.applied == if incoming.DeltaSnapshot? then LastReplayed(s, incoming.entries) else s.applied)
            && (incoming.FullSnapshot? ==> (t.kv, t.raftLogs) == (s.kv, s.raftLogs))
            && (t.entries, t.purged) == (s.entries, s.purged)
            && (err.Some? ==> t.membership == s.membership)
            && (err.Some? && t != s ==> incoming.DeltaSnapshot? && err.value.DeltaApplyDecode? && Sound(incoming.entries) != [])
  {
    if incoming.DeltaSnapshot? {
      var es := incoming.entries;
      if Sound(es) != es {
        assert es[|Sound(es)|] in es;
      }
      ReplayDeltaFold(s, Sound(es));
      if B.Decodable(es) {
        AllSound(es);
      }
    }
  }

  /** Which error a refused install reports. */
  lemma InstallErrors(s: Store, meta: SnapshotMeta, incoming: Incoming)
    ensures var err := Installed(s, meta, incoming).1;
            && (incoming.Undecodable? <==> err == Some(DeltaDecode))
            && (incoming.Unknown? <==> err == Some(InvalidPayload))
            && (incoming == FullSnapshot(false) <==> err == Some(RestoreFailed))
            && (incoming.DeltaSnapshot? && incoming.baseIndex != s.applied.index <==>
                err.Some? && err.value.BaseMismatch?)
            && (err.Some? && err.value.BaseMismatch? ==>
                  err.value.expected == incoming.baseIndex && err.value.got == s.applied.index)
  {
  }

  /** If entry i is the first that does not decode, the state is the replay of the first i entries,
      applied up to entry i-1, and the error names entry i. */
  lemma FailedInstall(s: Store, es: seq<DeltaEntry>, i: nat)
    requires i < |es| && B.Decodable(es[..i]) && es[i].payload.Corrupt?
    ensures var (t, err) := InstalledAuto(s, DeltaSnapshot(s.applied.index, es));
            && err == Some(DeltaApplyDecode(es[i].index))
            && t.kv == R.Replay(s.kv, B.Requests(es[..i]))
            && t.raftLogs == s.raftLogs + DeltaMap(es[..i])
            && t.applied == (if i == 0 then s.applied else AppliedState(es[i - 1].index, es[i - 1].term))
  {
    SoundLength(es, i);
    ReplayDeltaFold(s, es[..i]);
    ReplayDeltaMap(s, es[..i]);
  }

  lemma {:induction false} SoundLength(es: seq<DeltaEntry>, i: nat)
    requires i <= |es| && B.Decodable(es[..i]) && (i < |es| ==> es[i].payload.Corrupt?)
    ensures Sound(es) == es[..i]
  {
    if i > 0 {
      assert es[..i][0] in es[..i];
      assert es[1..][..i - 1] == es[..i][1..];
      SoundLength(es[1..], i - 1);
    }
  }

  /** After an install that replayed at least one entry, however it ended, any delta off the same base
      is turned away and nothing changes, exactly when the last replayed entry is not the base itself. */
  lemma ReinstallRejected(s: Store, es: seq<DeltaEntry>, again: seq<DeltaEntry>)
    requires Sound(es) != []
    ensures var base := s.applied.index;
            var t := InstalledAuto(s, DeltaSnapshot(base, es)).0;
            var last := Sound(es)[|Sound(es)| - 1].index;
            (last != base <==> InstalledAuto(t, DeltaSnapshot(base, again)) == (t, Some(BaseMismatch(base, last))))
  {
    ReplayDeltaFold(s, Sound(es));
  }

  /** And after a complete install through the state machine, which takes the snapshot's applied id, any
      delta off the same base is turned away exactly when that id is not the base. */
  lemma ReinstallAfterComplete(s: Store, meta: SnapshotMeta, es: seq<DeltaEntry>, again: seq<DeltaEntry>)
    requires B.Decodable(es) && meta.last.Some?
    ensures var base, last := s.applied.index, meta.last.value.index;
            var t := Installed(s, meta, DeltaSnapshot(base, es)).0;
            (last != base <==> InstalledAuto(t, DeltaSnapshot(base, again)) == (t, Some(BaseMismatch(base, last))))
  {
    CompleteInstall(s, meta, es);
  }

  lemma {:induction false} RangeAsMap(logs: map<u64, DeltaEntry>, lo: int, hi: int)
    requires B.LogOk(logs)
    ensures DeltaMap(Range(logs, lo, hi)) == map i | i in logs && lo <= i <= hi :: logs[i]
    decreases hi - lo
  {
    if lo <= hi {
      RangeAsMap(logs, lo, hi - 1);
      if hi in logs {
        assert Range(logs, lo, hi)[..|Range(logs, lo, hi - 1)|] == Range(logs, lo, hi - 1);
        assert DeltaMap(Range(logs, lo, hi)) == DeltaMap(Range(logs, lo, hi - 1))[hi := logs[hi]];
      } else {
        assert Range(logs, lo, hi) == Range(logs, lo, hi - 1);
      }
    }
  }

  lemma AllSound(es: seq<DeltaEntry>)
    requires B.Decodable(es)
    ensures Sound(es) == es
  {
    assert es[..|es|] == es;
    SoundLength(es, |es|);
  }

  /** A delta whose entries all decode, installed at its base. */
  lemma CompleteInstall(s: Store, meta: SnapshotMeta, es: seq<DeltaEntry>)
    requires B.Decodable(es) && meta.last.Some?
    ensures var (t, err) := Installed(s, meta, DeltaSnapshot(s.applied.index, es));
            && err == None
            && t.kv == R.Replay(s.kv, B.Requests(es))
            && t.raftLogs == s.raftLogs + DeltaMap(es)
            && t.applied == AppliedState(meta.last.value.index, meta.last.value.term)
            && t.membership == meta.membership
  {
    AllSound(es);
    ReplayDeltaFold(s, es);
    ReplayDeltaMap(s, es);
  }

  /** The delta a source builds for a follower at `base`, and the metadata that goes with it. */
  function DeltaFor(source: Store, base: u64): seq<DeltaEntry> {
    Range(source.raftLogs, base + 1, source.applied.index)
  }

  function MetaFor(source: Store): SnapshotMeta {
    SnapshotMeta(Some(LogId(source.applied.term, source.applied.index)), source.membership)
  }

  function CaughtUp(source: Store, follower: Store): (Store, Option<InstallError>) {
    Installed(follower, MetaFor(source), DeltaSnapshot(follower.applied.index, DeltaFor(source, follower.applied.index)))
  }

  /** Installing the source's delta moves the follower to the source's applied index and membership, and its
      map to the log replayed up to there, exactly when the follower's map agrees with the log replayed up
      to the base on every key the delta leaves alone. Neither map need be up to date. */
  lemma DeltaInstallExact(source: Store, follower: Store, m: R.KV)
    requires B.LogOk(source.raftLogs) && follower.applied.index <= source.applied.index
    ensures B.Decodable(DeltaFor(source, follower.applied.index))
    ensures var (t, err) := CaughtUp(source, follower);
            var base, top := follower.applied.index, source.applied.index;
            && err == None && (t.applied, t.membership) == (source.applied, source.membership)
            && (t.kv == B.At(m, source.raftLogs, top) <==>
                forall k: Str | !R.Touches(B.Requests(DeltaFor(source, base)), k) ::
                  R.Get(follower.kv, k) == R.Get(B.At(m, source.raftLogs, base), k))
  {
    var base, top := follower.applied.index, source.applied.index;
    B.AtExtends(m, source.raftLogs, base, top);
    CompleteInstall(follower, MetaFor(source), DeltaFor(source, base));
    R.ReplayAgrees(follower.kv, B.At(m, source.raftLogs, base), B.Requests(DeltaFor(source, base)));
  }

  /** In particular a follower whose map is the log replayed up to the base catches up. The source itself
      may have applied only up to `done`; the two maps are then equal exactly when the entries the source
      has yet to apply change nothing. */
  lemma FollowerCatchesUp(source: Store, follower: Store, m: R.KV, done: int)
    requires B.LogOk(source.raftLogs) && follower.applied.index <= source.applied.index
    requires -1 <= done <= source.applied.index && source.kv == B.At(m, source.raftLogs, done)
    requires follower.kv == B.At(m, source.raftLogs, follower.applied.index)
    ensures var (t, err) := CaughtUp(source, follower);
            && err == None && (t.applied, t.membership) == (source.applied, source.membership)
            && t.kv == B.At(m, source.raftLogs, source.applied.index)
            && (t.kv == source.kv <==> Settled(source.kv, source.raftLogs, done, source.applied.index))
            && (done == source.applied.index ==> t.kv == source.kv)
  {
    DeltaInstallExact(source, follower, m);
    AtSettled(m, source.raftLogs, done, source.applied.index);
  }

  /** A full install, by contrast, moves the applied index and loads nothing: the follower's map is the log
      replayed up to there exactly when every key touched by the entries it skipped already has its final
      value. */
  lemma FullInstallExact(source: Store, follower: Store, m: R.KV)
    requires B.LogOk(source.raftLogs) && follower.applied.index <= source.applied.index
    requires follower.kv == B.At(m, source.raftLogs, follower.applied.index)
    ensures var (t, err) := Installed(follower, MetaFor(source), FullSnapshot(true));
            var base, top := follower.applied.index, source.applied.index;
            && err == None && (t.applied, t.membership) == (source.applied, source.membership)
            && (t.kv, t.raftLogs) == (follower.kv, follower.raftLogs)
            && (t.kv == B.At(m, source.raftLogs, top) <==> Settled(follower.kv, source.raftLogs, base, top))
  {
    AtSettled(m, source.raftLogs, follower.applied.index, source.applied.index);
  }

  /** An instance: a fresh follower that installs a full snapshot of a node with one key is told it is at
      index 1 and does not have the key. */
  lemma FullInstallLosesKey(key: Str, value: Bytes, who: StoredMembership)
    ensures var e := DeltaEntry(1, 1, Valid(Set(key, value)));
            var source := Store(map[key := value], map[1 := e], AppliedState(1, 1), map[], None, who);
            var follower := Store(map[], map[], AppliedState(0, 0), map[], None, who);
            var (t, err) := Installed(follower, MetaFor(source), FullSnapshot(true));
            && source.kv == B.At(map[], source.raftLogs, 1) && follower.kv == B.At(map[], source.raftLogs, 0)
            && err == None && t.applied == source.applied && key !in t.kv
  {
    var e := DeltaEntry(1, 1, Valid(Set(key, value)));
    var logs: map<u64, DeltaEntry> := map[1 := e];
    assert Range(logs, 0, -1) == [] && Range(logs, 0, 0) == [] && Range(logs, 0, 1) == [e];
    assert B.Requests([e]) == [Set(key, value)];
    assert R.Replay(map[], []) == map[];
  }

  /** After a delta install the follower can rebuild the very same delta exactly when it held no entry of
      its own, in the delta's range, at an index the source lacks. */
  lemma FollowerRebuildsDelta(source: Store, follower: Store)
    requires B.LogOk(source.raftLogs) && B.LogOk(follower.raftLogs)
    ensures var base, top := follower.applied.index, source.applied.index;
            DeltaFor(CaughtUp(source, follower).0, base) == DeltaFor(source, base) <==>
            forall i | i in follower.raftLogs && base < i <= top :: i in source.raftLogs
  {
    var base: int, top: int := follower.applied.index, source.applied.index;
    InstalledLogs(source, follower);
    SameRangeExact(source.raftLogs, follower.raftLogs, base, top);
  }

  lemma InstalledLogs(source: Store, follower: Store)
    requires B.LogOk(source.raftLogs)
    ensures var base, top, t := follower.applied.index, source.applied.index, CaughtUp(source, follower).0;
            && t.applied.index == top
            && t.raftLogs == follower.raftLogs + (map i | i in source.raftLogs && base + 1 <= i <= top :: source.raftLogs[i])
  {
    var base: int, top: int := follower.applied.index, source.applied.index;
    B.RangeDecodes(source.raftLogs, base + 1, top);
    CompleteInstall(follower, MetaFor(source), DeltaFor(source, base));
    RangeAsMap(source.raftLogs, base + 1, top);
  }

  /** Laying a range of one log over another gives that range back exactly when the other had nothing
      extra inside it. */
  lemma SameRangeExact(source: map<u64, DeltaEntry>, own: map<u64, DeltaEntry>, base: int, top: int)
    requires B.LogOk(source) && B.LogOk(own)
    ensures var laid := own + (map i | i in source && base + 1 <= i <= top :: source[i]);
            Range(laid, base + 1, top) == Range(source, base + 1, top) <==>
            forall i | i in own && base < i <= top :: i in source
  {
    var laid := own + (map i | i in source && base + 1 <= i <= top :: source[i]);
    if forall i | i in own && base < i <= top :: i in source {
      RangeFrame(laid, source, base + 1, top);
    } else {
      var i :| i in own && base < i <= top && i !in source;
      RangeHolds(laid, base + 1, top, laid[i]);
      RangeHolds(source, base + 1, top, laid[i]);
    }
  }
}
