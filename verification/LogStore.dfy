/** The map-based log store refines an offset sequence, over every run. */
module LogStore {
  import opened Types
  import opened Ranges
  import opened Storage

  /** The log as Raft thinks of it: everything up to `purged` is gone, the rest is a sequence. */
  datatype AbstractLog = AbstractLog(purged: Option<LogId>, tail: seq<Entry>)

  function First(a: AbstractLog): int { if a.purged.Some? then a.purged.value.index + 1 else 0 }
  function NextIndex(a: AbstractLog): int { First(a) + |a.tail| }

  predicate WellFormed(a: AbstractLog) {
    forall i | 0 <= i < |a.tail| :: a.tail[i].id.index == First(a) + i
  }

  /** The id of the last entry, purged or not. */
  function LastId(a: AbstractLog): Option<LogId> {
    if a.tail != [] then Some(a.tail[|a.tail| - 1].id) else a.purged
  }

  /** The map holds exactly the contiguous interval above the purge mark. */
  ghost predicate Refines(s: Store, a: AbstractLog) {
    && WellFormed(a)
    && s.purged == a.purged
    && (forall i: int :: i in s.entries <==> First(a) <= i < NextIndex(a))
    && (forall i: int | First(a) <= i < NextIndex(a) :: s.entries[i] == a.tail[i - First(a)])
  }

  datatype Op = DoAppend(es: seq<Entry>) | DoTruncate(last: Option<LogId>) | DoPurge(id: LogId)

  function Perform(s: Store, op: Op): Store {
    match op
    case DoAppend(es) => AppendAll(s, es)
    case DoTruncate(last) => Truncated(s, last)
    case DoPurge(id) => Purged(s, id)
  }

  function Clamp(i: int, n: nat): nat { if i < 0 then 0 else if i > n then n else i }

  function PerformAbstract(a: AbstractLog, op: Op): AbstractLog {
    match op
    case DoAppend(es) => a.(tail := a.tail + es)
    case DoTruncate(None) => a.(tail := [])
    case DoTruncate(Some(id)) => a.(tail := a.tail[..Clamp(id.index + 1 - First(a), |a.tail|)])
    case DoPurge(id) => AbstractLog(Some(id), a.tail[Clamp(id.index + 1 - First(a), |a.tail|)..])
  }

  /** What OpenRaft promises: appends continue the log, purges do not go back. */
  predicate Allowed(a: AbstractLog, op: Op) {
    match op
    case DoAppend(es) => forall i | 0 <= i < |es| :: es[i].id.index == NextIndex(a) + i
    case DoTruncate(_) => true
    case DoPurge(id) => First(a) <= id.index + 1
  }

  lemma AppendOneRefines(s: Store, a: AbstractLog, e: Entry)
    requires Refines(s, a) && e.id.index == NextIndex(a)
    ensures Refines(AppendOne(s, e), a.(tail := a.tail + [e]))
  {
    var t, b := AppendOne(s, e), a.(tail := a.tail + [e]);
    assert t.entries == s.entries[e.id.index := e] && t.purged == s.purged;
    assert First(b) == First(a) && NextIndex(b) == NextIndex(a) + 1;
  }

  lemma {:induction false} AppendRefines(s: Store, a: AbstractLog, es: seq<Entry>)
    requires Refines(s, a) && Allowed(a, DoAppend(es))
    ensures Refines(AppendAll(s, es), a.(tail := a.tail + es))
    decreases |es|
  {
    if es == [] {
      assert a.tail + es == a.tail;
    } else {
      var front, e := es[..|es| - 1], es[|es| - 1];
      AppendRefines(s, a, front);
      AppendOneRefines(AppendAll(s, front), a.(tail := a.tail + front), e);
      assert a.tail + es == (a.tail + front) + [e];
    }
  }

  lemma TruncateRefines(s: Store, a: AbstractLog, id: LogId)
    requires Refines(s, a)
    ensures Refines(Truncated(s, Some(id)), PerformAbstract(a, DoTruncate(Some(id))))
  {
    var t, b := Truncated(s, Some(id)), PerformAbstract(a, DoTruncate(Some(id)));
    assert First(b) == First(a);
    forall i: int ensures i in t.entries <==> First(b) <= i < NextIndex(b)
    {
      assert i in s.entries <==> First(a) <= i < NextIndex(a);
    }
  }

  lemma PurgeRefines(s: Store, a: AbstractLog, id: LogId)
    requires Refines(s, a) && First(a) <= id.index + 1
    ensures Refines(Purged(s, id), PerformAbstract(a, DoPurge(id)))
  {
    var t, b := Purged(s, id), PerformAbstract(a, DoPurge(id));
    assert First(b) == id.index + 1;
    forall i: int ensures i in t.entries <==> First(b) <= i < NextIndex(b)
    {
      assert i in s.entries <==> First(a) <= i < NextIndex(a);
    }
    forall i: int | First(b) <= i < NextIndex(b) ensures t.entries[i] == b.tail[i - First(b)]
    {
      assert b.tail[i - First(b)] == a.tail[i - First(a)];
    }
  }

  /** Each disciplined operation on the map is the operation on the sequence. */
  lemma OpRefines(s: Store, a: AbstractLog, op: Op)
    requires Refines(s, a) && Allowed(a, op)
    ensures Refines(Perform(s, op), PerformAbstract(a, op))
  {
    match op {
      case DoAppend(es) => AppendRefines(s, a, es);
      case DoTruncate(None) =>
      case DoTruncate(Some(id)) => TruncateRefines(s, a, id);
      case DoPurge(id) => PurgeRefines(s, a, id);
    }
  }

  function PerformAll(s: Store, ops: seq<Op>): Store {
    if ops == [] then s else Perform(PerformAll(s, ops[..|ops| - 1]), ops[|ops| - 1])
  }

  function PerformAllAbstract(a: AbstractLog, ops: seq<Op>): AbstractLog {
    if ops == [] then a else PerformAbstract(PerformAllAbstract(a, ops[..|ops| - 1]), ops[|ops| - 1])
  }

  predicate AllAllowed(a: AbstractLog, ops: seq<Op>) {
    ops == [] ||
    (AllAllowed(a, ops[..|ops| - 1]) && Allowed(PerformAllAbstract(a, ops[..|ops| - 1]), ops[|ops| - 1]))
  }

  /** The last key of the map is the last index of the sequence, so `get_log_state` reports the last id. */
  lemma LastKeyIsLastId(s: Store, a: AbstractLog, k: u64)
    requires Refines(s, a)
    ensures s.entries == map[] <==> a.tail == []
    ensures IsLast(s.entries, k) ==> LastId(a) == Some(s.entries[k].id)
    ensures s.entries == map[] ==> LastId(a) == s.purged
  {
    if a.tail != [] {
      assert First(a) in s.entries;
      assert NextIndex(a) - 1 in s.entries;
    }
    if s.entries != map[] {
      var i :| i in s.entries;
    }
  }

  /** A purge keeps the last id, or raises it to the purge id when it passes the end of the log. */
  lemma PurgeKeepsLast(a: AbstractLog, id: LogId)
    requires WellFormed(a) && First(a) <= id.index + 1
    ensures LastId(PerformAbstract(a, DoPurge(id))) ==
            if id.index + 1 < NextIndex(a) then LastId(a) else Some(id)
  {
  }

  /** What a purge may do to the last id. */
  predicate LastKept(before: AbstractLog, after: AbstractLog, id: LogId) {
    && LastId(after) == (if id.index + 1 < NextIndex(before) then LastId(before) else Some(id))
    && NextIndex(before) <= NextIndex(after)
  }

  lemma {:induction false} OpsRefine(s: Store, a: AbstractLog, ops: seq<Op>)
    requires Refines(s, a) && AllAllowed(a, ops)
    ensures Refines(PerformAll(s, ops), PerformAllAbstract(a, ops))
  {
    if ops != [] {
      OpsRefine(s, a, ops[..|ops| - 1]);
      OpRefines(PerformAll(s, ops[..|ops| - 1]), PerformAllAbstract(a, ops[..|ops| - 1]), ops[|ops| - 1]);
    }
  }

  lemma {:induction false} AllowedPrefix(a: AbstractLog, ops: seq<Op>, n: nat)
    requires AllAllowed(a, ops) && n < |ops|
    ensures AllAllowed(a, ops[..n]) && Allowed(PerformAllAbstract(a, ops[..n]), ops[n])
    ensures PerformAllAbstract(a, ops[..n + 1]) == PerformAbstract(PerformAllAbstract(a, ops[..n]), ops[n])
  {
    if n < |ops| - 1 {
      var front := ops[..|ops| - 1];
      AllowedPrefix(a, front, n);
      assert front[..n] == ops[..n] && front[..n + 1] == ops[..n + 1];
    } else {
      assert ops[..n + 1] == ops;
    }
  }

  /** Over every disciplined run the store is the sequence, the id at its last key, or else the purge id, is
      the sequence's last id, and no purge on the way lowered that. */
  lemma RunRefines(s: Store, a: AbstractLog, ops: seq<Op>)
    requires Refines(s, a) && AllAllowed(a, ops)
    ensures var t, b := PerformAll(s, ops), PerformAllAbstract(a, ops);
            && Refines(t, b)
            && (forall k | IsLast(t.entries, k) :: LastId(b) == Some(t.entries[k].id))
            && (t.entries == map[] ==> LastId(b) == t.purged)
    ensures forall n | 0 <= n < |ops| && ops[n].DoPurge? ::
              LastKept(PerformAllAbstract(a, ops[..n]), PerformAllAbstract(a, ops[..n + 1]), ops[n].id)
  {
    var t, b := PerformAll(s, ops), PerformAllAbstract(a, ops);
    OpsRefine(s, a, ops);
    forall k | IsLast(t.entries, k) ensures LastId(b) == Some(t.entries[k].id)
    {
      LastKeyIsLastId(t, b, k);
    }
    LastKeyIsLastId(t, b, 0);
    forall n | 0 <= n < |ops| && ops[n].DoPurge?
      ensures LastKept(PerformAllAbstract(a, ops[..n]), PerformAllAbstract(a, ops[..n + 1]), ops[n].id)
    {
      AllowedPrefix(a, ops, n);
      OpsRefine(s, a, ops[..n]);
      PurgeKeepsLast(PerformAllAbstract(a, ops[..n]), ops[n].id);
    }
  }

  /** Going back with a purge breaks the refinement whenever the log is not empty: the mark no longer
      touches the entries. So for a log that has entries, the purge rule is exact. */
  lemma PurgeRuleExact(s: Store, a: AbstractLog, id: LogId)
    requires Refines(s, a) && a.tail != []
    ensures First(a) <= id.index + 1 <==> exists b :: Refines(Purged(s, id), b)
  {
    if First(a) <= id.index + 1 {
      OpRefines(s, a, DoPurge(id));
    } else {
      assert First(a) in Purged(s, id).entries;
      assert id.index + 1 !in Purged(s, id).entries;
    }
  }

  // ---------------------------------------------------------------- reads

  /** `i` is inside the bounds, as ranges of integers mean it. */
  predicate Inside(start: Bound, end: Bound, i: int) {
    && (match start case Included(v) => v <= i case Excluded(v) => v < i case Unbounded => true)
    && (match end case Included(v) => i <= v case Excluded(v) => i < v case Unbounded => true)
  }

  function TrueStart(b: Bound): int {
    match b case Included(v) => v case Excluded(v) => v + 1 case Unbounded => 0
  }

  function TrueEnd(b: Bound): int {
    match b case Included(v) => v case Excluded(v) => v - 1 case Unbounded => U64_MAX
  }

  /** What a read should give, and what it gives. */
  function Wanted(m: map<u64, Entry>, start: Bound, end: Bound): seq<Entry> {
    Range(m, TrueStart(start), TrueEnd(end))
  }

  function Given(m: map<u64, Entry>, start: Bound, end: Bound): seq<Entry> {
    Range(m, RangeStart(start), RangeEndInclusive(end))
  }

  lemma WantedHolds(m: map<u64, Entry>, start: Bound, end: Bound, e: Entry)
    ensures e in Wanted(m, start, end) <==> exists i :: i in m && Inside(start, end, i) && m[i] == e
  {
    RangeHolds(m, TrueStart(start), TrueEnd(end), e);
    if i :| i in m && Inside(start, end, i) && m[i] == e {
      assert TrueStart(start) <= i <= TrueEnd(end);
    }
    if i :| TrueStart(start) <= i <= TrueEnd(end) && i in m && m[i] == e {
      assert Inside(start, end, i);
    }
  }

  /** A read gives what it should exactly when it does not run into a saturated bound: an end before
      index 0 with an entry at 0 in reach, or a start after the last index with an entry there in reach. */
  lemma ReadExact(m: map<u64, Entry>, start: Bound, end: Bound)
    ensures Given(m, start, end) == Wanted(m, start, end) <==>
            && !(end == Excluded(0) && RangeStart(start) == 0 && 0 in m)
            && !(start == Excluded(U64_MAX) && RangeEndInclusive(end) == U64_MAX && U64_MAX in m)
  {
    var lo, hi := RangeStart(start), RangeEndInclusive(end);
    if end == Excluded(0) && lo == 0 {
      assert Range(m, 0, -1) == [];
      assert Range(m, 0, 0) == if 0 in m then [m[0]] else [];
    } else if start == Excluded(U64_MAX) && hi == U64_MAX {
      assert Range(m, U64_MAX, U64_MAX - 1) == [];
      assert Range(m, U64_MAX, U64_MAX) == if U64_MAX in m then [m[U64_MAX]] else [];
    } else {
      RangeEmpty(m, lo, hi);
    }
  }

  lemma TailAt(s: Store, a: AbstractLog)
    requires Refines(s, a)
    ensures forall i :: i in s.entries <==> First(a) <= i < First(a) + |a.tail|
    ensures forall i | i in s.entries :: s.entries[i] == a.tail[i - First(a)]
  {
  }

  lemma ClampIsSlice(first: int, len: nat, lo: int, hi: int)
    ensures var l, h := Clamp(lo - first, len), Clamp(hi + 1 - first, len);
            && SliceStart(first, len, lo) == l
            && SliceEnd(first, len, lo, hi) == if l <= h then h else l
  {
  }

  /** On a store that refines a sequence, a read away from the saturated bounds is a slice of it. */
  lemma ReadIsSlice(s: Store, a: AbstractLog, start: Bound, end: Bound)
    requires Refines(s, a)
    requires end != Excluded(0) && start != Excluded(U64_MAX)
    ensures var lo := Clamp(TrueStart(start) - First(a), |a.tail|);
            var hi := Clamp(TrueEnd(end) + 1 - First(a), |a.tail|);
            Given(s.entries, start, end) == if lo <= hi then a.tail[lo..hi] else []
  {
    ReadExact(s.entries, start, end);
    TailAt(s, a);
    RangeOfSequence(s.entries, a.tail, First(a), TrueStart(start), TrueEnd(end));
    ClampIsSlice(First(a), |a.tail|, TrueStart(start), TrueEnd(end));
  }
}
