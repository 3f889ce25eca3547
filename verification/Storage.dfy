/** The Raft log store and state machine, as they change in place, against functions on their values. */
module Storage {
  import opened Types
  import opened Records
  import opened Ranges
  import R = Replay

  datatype LogId = LogId(term: u64, index: u64)
  type Membership = set<u64>
  datatype EntryPayload = Blank | Normal(req: KVRequest) | Change(membership: Membership)
  datatype Entry = Entry(id: LogId, payload: EntryPayload)
  datatype StoredMembership = StoredMembership(at: Option<LogId>, members: Membership)

  /** An incoming snapshot payload after decoding. */
  datatype Incoming =
    | DeltaSnapshot(baseIndex: u64, entries: seq<DeltaEntry>)
    | FullSnapshot(restores: bool)
    | Unknown
    | Undecodable

  datatype SnapshotMeta = SnapshotMeta(last: Option<LogId>, membership: StoredMembership)

  datatype InstallError =
    | BaseMismatch(expected: u64, got: u64)
    | InvalidPayload
    | DeltaDecode
    | DeltaApplyDecode(index: u64)
    | RestoreFailed

  /** The value of a storage object. */
  datatype Store = Store(
    kv: R.KV,
    raftLogs: map<u64, DeltaEntry>,
    applied: AppliedState,
    entries: map<u64, Entry>,
    purged: Option<LogId>,
    membership: StoredMembership)

  datatype Bound = Included(v: u64) | Excluded(v: u64) | Unbounded

  function RangeStart(b: Bound): u64 {
    match b
    case Included(v) => v
    case Excluded(v) => SatAdd(v, 1)
    case Unbounded => 0
  }

  function RangeEndInclusive(b: Bound): u64 {
    match b
    case Included(v) => v
    case Excluded(v) => SatSub(v, 1)
    case Unbounded => U64_MAX
  }

  // ---------------------------------------------------------------- what the operations do to a value

  function LogRequest(s: Store, term: u64, index: u64, req: KVRequest): Store {
    s.(raftLogs := s.raftLogs[index := DeltaEntry(term, index, Valid(req))],
       applied := AppliedState(index, term))
  }

  function AppendOne(s: Store, e: Entry): Store {
    var logged := if e.payload.Normal? then LogRequest(s, e.id.term, e.id.index, e.payload.req) else s;
    logged.(entries := logged.entries[e.id.index := e])
  }

  function AppendAll(s: Store, es: seq<Entry>): Store {
    if es == [] then s else AppendOne(AppendAll(s, es[..|es| - 1]), es[|es| - 1])
  }

  function Truncated(s: Store, last: Option<LogId>): Store {
    match last
    case None => s.(entries := map[])
    case Some(id) => s.(entries := map i | i in s.entries && i <= id.index :: s.entries[i])
  }

  function Purged(s: Store, id: LogId): Store {
    s.(entries := map i | i in s.entries && i > id.index :: s.entries[i], purged := Some(id))
  }

  function ApplyOne(s: Store, e: Entry): Store {
    var done :=
      match e.payload
      case Blank => s
      case Change(m) => s.(membership := StoredMembership(Some(e.id), m))
      case Normal(req) => LogRequest(s.(kv := R.ApplyRequest(s.kv, req)), e.id.term, e.id.index, req);
    done.(applied := AppliedState(e.id.index, e.id.term))
  }

  function ApplyAll(s: Store, es: seq<Entry>): Store {
    if es == [] then s else ApplyOne(ApplyAll(s, es[..|es| - 1]), es[|es| - 1])
  }

  /** The decodable entries of a delta before its first corrupt one. */
  function Sound(es: seq<DeltaEntry>): (r: seq<DeltaEntry>)
    ensures r <= es
    ensures forall e <- r :: e.payload.Valid?
    ensures |r| < |es| ==> es[|r|].payload.Corrupt?
  {
    if es == [] || es[0].payload.Corrupt? then [] else [es[0]] + Sound(es[1..])
  }

  function ReplayDelta(s: Store, es: seq<DeltaEntry>): Store
    requires forall e <- es :: e.payload.Valid?
  {
    if es == [] then s
    else
      var e := es[|es| - 1];
      assert e in es;
      var before := ReplayDelta(s, es[..|es| - 1]);
      LogRequest(before.(kv := R.ApplyRequest(before.kv, e.payload.req)), e.term, e.index, e.payload.req)
  }

  /** The last key of an ordered map. */
  ghost predicate IsLast<T>(m: map<u64, T>, k: u64) {
    k in m && forall i | i in m :: i <= k
  }

  lemma {:induction false} HasLast(ks: set<u64>) returns (top: u64)
    requires ks != {}
    ensures top in ks && forall i | i in ks :: i <= top
    decreases |ks|
  {
    var x :| x in ks;
    top := x;
    var rest := ks - {x};
    if rest != {} {
      var y := HasLast(rest);
      top := if x < y then y else x;
      forall i | i in ks ensures i <= top
      {
        assert i == x || i in rest;
      }
    } else {
      assert ks == {x};
    }
  }

  // ---------------------------------------------------------------- the object

  class SurrealStorage {
    var kv: R.KV
    var raftLogs: map<u64, DeltaEntry>
    var applied: AppliedState
    var raftEntries: map<u64, Entry>
    var lastPurged: Option<LogId>
    var membership: StoredMembership
    var currentSnapshot: Option<(SnapshotMeta, Incoming)>

    ghost function View(): Store
      reads this
    {
      Store(kv, raftLogs, applied, raftEntries, lastPurged, membership)
    }

    constructor (durable: AppliedState)
      ensures View() == Store(map[], map[], durable, map[], None, StoredMembership(None, {1}))
      ensures currentSnapshot == None
    {
      kv, raftLogs, applied, raftEntries, lastPurged := map[], map[], durable, map[], None;
      membership, currentSnapshot := StoredMembership(None, {1}), None;
    }

    method ApplyRequest(req: KVRequest)
      modifies this`kv
      ensures kv == R.ApplyRequest(old(kv), req)
    {
      match req {
        case Set(k, v) => kv := kv[k := v];
        case Delete(k) => kv := kv - {k};
      }
    }

    method AppendLogEntry(term: u64, index: u64, req: KVRequest)
      modifies this`raftLogs, this`applied
      ensures View() == LogRequest(old(View()), term, index, req)
    {
      raftLogs := raftLogs[index := DeltaEntry(term, index, Valid(req))];
      applied := AppliedState(index, term);
    }

    /** The logged entries in [start, end], in index order. */
    method LogEntries(start: u64, end: u64) returns (out: seq<DeltaEntry>)
      ensures out == Range(raftLogs, start, end)
    {
      out := [];
      var i: int := start;
      while i <= end
        invariant start <= i && (i <= end + 1 || i == start)
        invariant out == Range(raftLogs, start, i - 1)
      {
        if i in raftLogs {
          out := out + [raftLogs[i]];
        }
        i := i + 1;
      }
      if end < start {
        assert Range(raftLogs, start, end) == [];
      }
    }

    method Append(es: seq<Entry>)
      modifies this`raftLogs, this`applied, this`raftEntries
      ensures View() == AppendAll(old(View()), es)
    {
      for n := 0 to |es|
        invariant View() == AppendAll(old(View()), es[..n])
      {
        var e := es[n];
        if e.payload.Normal? {
          AppendLogEntry(e.id.term, e.id.index, e.payload.req);
        }
        raftEntries := raftEntries[e.id.index := e];
        assert es[..n + 1][..n] == es[..n];
      }
      assert es[..|es|] == es;
    }

    method TruncateAfter(last: Option<LogId>)
      modifies this`raftEntries
      ensures View() == Truncated(old(View()), last)
    {
      match last {
        case Some(id) => raftEntries := map i | i in raftEntries && i <= id.index :: raftEntries[i];
        case None => raftEntries := map[];
      }
    }

    method Purge(id: LogId)
      modifies this`raftEntries, this`lastPurged
      ensures View() == Purged(old(View()), id)
    {
      raftEntries := map i | i in raftEntries && i > id.index :: raftEntries[i];
      lastPurged := Some(id);
    }

    method GetLogState() returns (purged: Option<LogId>, last: Option<LogId>)
      ensures purged == lastPurged
      ensures raftEntries == map[] ==> last == lastPurged
      ensures raftEntries != map[] ==>
              exists k :: IsLast(raftEntries, k) && last == Some(raftEntries[k].id)
    {
      purged, last := lastPurged, lastPurged;
      if |raftEntries| > 0 {
        ghost var top := HasLast(raftEntries.Keys);
        var k :| k in raftEntries && forall i | i in raftEntries :: i <= k;
        assert IsLast(raftEntries, k);
        last := Some(raftEntries[k].id);
      }
    }

    /** The log entries between two bounds, in index order: an entry is returned exactly when it is stored
        at an index between the saturated bounds. */
    method TryGetLogEntries(start: Bound, end: Bound) returns (out: seq<Entry>)
      ensures out == Range(raftEntries, RangeStart(start), RangeEndInclusive(end))
      ensures forall e :: e in out <==>
                exists i :: RangeStart(start) <= i <= RangeEndInclusive(end) && i in raftEntries && raftEntries[i] == e
    {
      var lo: int, hi: int := RangeStart(start), RangeEndInclusive(end);
      out := [];
      if hi < lo {
        return;
      }
      var i := lo;
      while i <= hi
        invariant lo <= i <= hi + 1
        invariant out == Range(raftEntries, lo, i - 1)
      {
        if i in raftEntries {
          out := out + [raftEntries[i]];
        }
        i := i + 1;
      }
      forall e ensures e in out <==> exists i :: lo <= i <= hi && i in raftEntries && raftEntries[i] == e
      {
        RangeHolds(raftEntries, lo, hi, e);
      }
    }

    /** Apply a batch of committed entries. */
    method Apply(es: seq<Entry>)
      modifies this`kv, this`raftLogs, this`applied, this`membership
      ensures View() == ApplyAll(old(View()), es)
    {
      for n := 0 to |es|
        invariant View() == ApplyAll(old(View()), es[..n])
      {
        var e := es[n];
        match e.payload {
          case Blank =>
          case Change(m) => membership := StoredMembership(Some(e.id), m);
          case Normal(req) =>
            ApplyRequest(req);
            AppendLogEntry(e.id.term, e.id.index, req);
        }
        applied := AppliedState(e.id.index, e.id.term);
        assert es[..n + 1][..n] == es[..n];
      }
      assert es[..|es|] == es;
    }

    /** Replay delta entries one by one, stopping at the first that does not decode. The state is the
        replay of exactly the entries before it. */
    method ApplyDeltaEntries(es: seq<DeltaEntry>) returns (err: Option<InstallError>)
      modifies this`kv, this`raftLogs, this`applied
      ensures View() == ReplayDelta(old(View()), Sound(es))
      ensures err == if Sound(es) == es then None else Some(DeltaApplyDecode(es[|Sound(es)|].index))
    {
      for n := 0 to |es|
        invariant n <= |Sound(es)|
        invariant View() == ReplayDelta(old(View()), Sound(es)[..n])
      {
        var e := es[n];
        if e.payload.Corrupt? {
          assert Sound(es)[..n] == Sound(es);
          return Some(DeltaApplyDecode(e.index));
        }
        ApplyRequest(e.payload.req);
        AppendLogEntry(e.term, e.index, e.payload.req);
        assert Sound(es)[..n + 1][..n] == Sound(es)[..n];
      }
      assert Sound(es)[..|es|] == Sound(es);
      err := None;
    }

    method InstallSnapshotAuto(incoming: Incoming) returns (err: Option<InstallError>)
      modifies this`kv, this`raftLogs, this`applied
      ensures (View(), err) == InstalledAuto(old(View()), incoming)
    {
      match incoming {
        case Undecodable => return Some(DeltaDecode);
        case Unknown => return Some(InvalidPayload);
        case FullSnapshot(ok) => return if ok then None else Some(RestoreFailed);
        case DeltaSnapshot(base, es) =>
          if applied.index != base {
            return Some(BaseMismatch(base, applied.index));
          }
          err := ApplyDeltaEntries(es);
      }
    }

    /** The state-machine entry point: install, then take the snapshot's applied id and membership. */
    method InstallSnapshot(meta: SnapshotMeta, incoming: Incoming) returns (err: Option<InstallError>)
      modifies this`kv, this`raftLogs, this`applied, this`membership, this`currentSnapshot
      ensures (View(), err) == Installed(old(View()), meta, incoming)
      ensures currentSnapshot == if err.None? then Some((meta, incoming)) else old(currentSnapshot)
    {
      err := InstallSnapshotAuto(incoming);
      if err.Some? {
        return;
      }
      if meta.last.Some? {
        applied := AppliedState(meta.last.value.index, meta.last.value.term);
      }
      membership := meta.membership;
      currentSnapshot := Some((meta, incoming));
    }
  }

  function InstalledAuto(s: Store, incoming: Incoming): (Store, Option<InstallError>) {
    match incoming
    case Undecodable => (s, Some(DeltaDecode))
    case Unknown => (s, Some(InvalidPayload))
    case FullSnapshot(ok) => (s, if ok then None else Some(RestoreFailed))
    case DeltaSnapshot(base, es) =>
      if s.applied.index != base then (s, Some(BaseMismatch(base, s.applied.index)))
      else
        (ReplayDelta(s, Sound(es)),
         if Sound(es) == es then None else Some(DeltaApplyDecode(es[|Sound(es)|].index)))
  }

  function Installed(s: Store, meta: SnapshotMeta, incoming: Incoming): (Store, Option<InstallError>) {
    var (t, err) := InstalledAuto(s, incoming);
    if err.Some? then (t, err)
    else
      (t.(applied := if meta.last.Some? then AppliedState(meta.last.value.index, meta.last.value.term) else t.applied,
          membership := meta.membership), None)
  }
}
