/** Replaying Set/Delete requests over a key-value map. */
module Replay {
  import opened Types

  type KV = map<Str, Bytes>

  function ApplyRequest(m: KV, r: KVRequest): KV {
    match r
    case Set(k, v) => m[k := v]
    case Delete(k) => m - {k}
  }

  function Replay(m: KV, rs: seq<KVRequest>): KV {
    if rs == [] then m else ApplyRequest(Replay(m, rs[..|rs| - 1]), rs[|rs| - 1])
  }

  function Get(m: KV, k: Str): Option<Bytes> {
    if k in m then Some(m[k]) else None
  }

  /** Some request in `rs` writes or deletes `k`. */
  predicate Touches(rs: seq<KVRequest>, k: Str) {
    exists i | 0 <= i < |rs| :: rs[i].key == k
  }

  /** The effect of the last request on `k`: the value it sets, or None for a delete. */
  function LastWrite(rs: seq<KVRequest>, k: Str): Option<Bytes>
    requires Touches(rs, k)
  {
    var r := rs[|rs| - 1];
    if r.key == k then (if r.Set? then Some(r.value) else None)
    else
      assert Touches(rs[..|rs| - 1], k) by {
        var i :| 0 <= i < |rs| && rs[i].key == k;
        assert rs[..|rs| - 1][i].key == k;
      }
      LastWrite(rs[..|rs| - 1], k)
  }

  /** Replay is last-writer-wins, key by key: an untouched key keeps the baseline's value. */
  lemma {:induction false} ReplayLookup(m: KV, rs: seq<KVRequest>, k: Str)
    ensures Get(Replay(m, rs), k) == if Touches(rs, k) then LastWrite(rs, k) else Get(m, k)
  {
    if rs != [] {
      var front, r := rs[..|rs| - 1], rs[|rs| - 1];
      ReplayLookup(m, front, k);
      if r.key != k {
        if Touches(rs, k) {
          var i :| 0 <= i < |rs| && rs[i].key == k;
          assert front[i].key == k;
        } else {
          forall i | 0 <= i < |front| ensures front[i].key != k { assert rs[i].key != k; }
        }
      }
    }
  }

  lemma SameLookups(a: KV, b: KV)
    requires forall k: Str :: Get(a, k) == Get(b, k)
    ensures a == b
  {
    forall k: Str ensures k in a <==> k in b
    {
      assert Get(a, k) == Get(b, k);
    }
    forall k: Str | k in a ensures a[k] == b[k]
    {
      assert Get(a, k) == Get(b, k);
    }
  }

  /** Two baselines replay to the same map exactly when they agree on every key the log leaves alone. */
  lemma ReplayAgrees(a: KV, b: KV, rs: seq<KVRequest>)
    ensures Replay(a, rs) == Replay(b, rs) <==>
            forall k: Str | !Touches(rs, k) :: Get(a, k) == Get(b, k)
  {
    forall k: Str
      ensures Get(Replay(a, rs), k) == if Touches(rs, k) then LastWrite(rs, k) else Get(a, k)
      ensures Get(Replay(b, rs), k) == if Touches(rs, k) then LastWrite(rs, k) else Get(b, k)
    {
      ReplayLookup(a, rs, k);
      ReplayLookup(b, rs, k);
    }
    if forall k: Str | !Touches(rs, k) :: Get(a, k) == Get(b, k) {
      SameLookups(Replay(a, rs), Replay(b, rs));
    }
  }

  /** A log changes nothing exactly when every key it touches already has its final value. */
  lemma ReplayChangesNothing(m: KV, rs: seq<KVRequest>)
    ensures Replay(m, rs) == m <==> forall k: Str | Touches(rs, k) :: LastWrite(rs, k) == Get(m, k)
  {
    forall k: Str
      ensures Get(Replay(m, rs), k) == if Touches(rs, k) then LastWrite(rs, k) else Get(m, k)
    {
      ReplayLookup(m, rs, k);
    }
    if forall k: Str | Touches(rs, k) :: LastWrite(rs, k) == Get(m, k) {
      SameLookups(Replay(m, rs), m);
    }
  }

  lemma {:induction false} ReplayConcat(m: KV, p: seq<KVRequest>, q: seq<KVRequest>)
    ensures Replay(m, p + q) == Replay(Replay(m, p), q)
  {
    if q == [] {
      assert p + q == p;
    } else {
      ReplayConcat(m, p, q[..|q| - 1]);
      assert (p + q)[..|p + q| - 1] == p + q[..|q| - 1];
    }
  }

  /** Replaying a log over a state that already holds a prefix of it changes nothing more. */
  lemma ReplayAbsorbs(m: KV, p: seq<KVRequest>, q: seq<KVRequest>)
    ensures Replay(Replay(m, p), p + q) == Replay(m, p + q)
  {
    forall k: Str | !Touches(p + q, k) ensures Get(Replay(m, p), k) == Get(m, k)
    {
      forall i | 0 <= i < |p| ensures p[i].key != k { assert (p + q)[i].key != k; }
      ReplayLookup(m, p, k);
    }
    ReplayAgrees(Replay(m, p), m, p + q);
  }

  /** The replay of a whole chain of logs, one after the other. */
  function ReplayChain(m: KV, chain: seq<seq<KVRequest>>): KV {
    if chain == [] then m
    else Replay(ReplayChain(m, chain[..|chain| - 1]), chain[|chain| - 1])
  }

  /** Every log of the chain extends the one before it. */
  predicate Cumulative(chain: seq<seq<KVRequest>>) {
    forall i, j | 0 <= i <= j < |chain| :: chain[i] <= chain[j]
  }

  /** A chain of cumulative logs replays to what its last log alone replays to. */
  lemma {:induction false} CumulativeChain(m: KV, chain: seq<seq<KVRequest>>)
    requires Cumulative(chain) && chain != []
    ensures ReplayChain(m, chain) == Replay(m, chain[|chain| - 1])
  {
    var front, last := chain[..|chain| - 1], chain[|chain| - 1];
    if front == [] {
      assert ReplayChain(m, front) == m;
    } else {
      CumulativeChain(m, front);
      var p := front[|front| - 1];
      assert p == chain[|chain| - 2];
      assert p <= last;
      assert last == p + last[|p|..];
      ReplayAbsorbs(m, p, last[|p|..]);
    }
  }

  /** A chain as one log. */
  function Flat(chain: seq<seq<KVRequest>>): seq<KVRequest> {
    if chain == [] then [] else Flat(chain[..|chain| - 1]) + chain[|chain| - 1]
  }

  lemma {:induction false} ChainIsFlat(m: KV, chain: seq<seq<KVRequest>>)
    ensures ReplayChain(m, chain) == Replay(m, Flat(chain))
  {
    if chain != [] {
      ChainIsFlat(m, chain[..|chain| - 1]);
      ReplayConcat(m, Flat(chain[..|chain| - 1]), chain[|chain| - 1]);
    }
  }

  /** On every key the last log leaves alone, the logs before it end at the baseline's value. */
  ghost predicate NoTrace(m: KV, early: seq<KVRequest>, last: seq<KVRequest>) {
    forall k: Str | !Touches(last, k) && Touches(early, k) :: LastWrite(early, k) == Get(m, k)
  }

  /** For any chain at all: it replays like its last log alone exactly when the earlier logs leave no trace. */
  lemma ChainLikeLast(m: KV, chain: seq<seq<KVRequest>>)
    requires chain != []
    ensures var last := chain[|chain| - 1];
            ReplayChain(m, chain) == Replay(m, last) <==> NoTrace(m, Flat(chain[..|chain| - 1]), last)
  {
    var front, last := chain[..|chain| - 1], chain[|chain| - 1];
    ChainIsFlat(m, front);
    ReplayAgrees(ReplayChain(m, front), m, last);
    forall k: Str
      ensures Get(ReplayChain(m, front), k) == if Touches(Flat(front), k) then LastWrite(Flat(front), k) else Get(m, k)
    {
      ReplayLookup(m, Flat(front), k);
    }
  }

  predicate AllUpTo(ends: seq<nat>, bound: int) {
    forall i | 0 <= i < |ends| :: ends[i] <= bound
  }

  /** The logs of a chain of cumulative deltas: prefixes of one log, of the given lengths. */
  function Prefixes(log: seq<KVRequest>, ends: seq<nat>): seq<seq<KVRequest>>
    requires AllUpTo(ends, |log|)
  {
    if ends == [] then []
    else Prefixes(log, ends[..|ends| - 1]) + [log[..ends[|ends| - 1]]]
  }

  lemma {:induction false} PrefixesAt(log: seq<KVRequest>, ends: seq<nat>)
    requires AllUpTo(ends, |log|)
    ensures |Prefixes(log, ends)| == |ends|
    ensures forall i | 0 <= i < |ends| :: Prefixes(log, ends)[i] == log[..ends[i]]
  {
    if ends != [] {
      PrefixesAt(log, ends[..|ends| - 1]);
    }
  }

  /** The chain replays like its last delta, whatever the log and the baseline. */
  ghost predicate ReplaysLikeLast(ends: seq<nat>)
    requires ends != []
  {
    forall m: KV, log: seq<KVRequest> | AllUpTo(ends, |log|) ::
      ReplayChain(m, Prefixes(log, ends)) == Replay(m, log[..ends[|ends| - 1]])
  }

  lemma {:induction false} PrefixesUntouched(m: KV, log: seq<KVRequest>, ends: seq<nat>, bound: nat, k: Str)
    requires AllUpTo(ends, bound) && bound <= |log| && !Touches(log[..bound], k)
    ensures Get(ReplayChain(m, Prefixes(log, ends)), k) == Get(m, k)
  {
    if ends != [] {
      var front, e := ends[..|ends| - 1], ends[|ends| - 1];
      PrefixesUntouched(m, log, front, bound, k);
      forall i | 0 <= i < e ensures log[..e][i].key != k { assert log[..bound][i].key != k; }
      ReplayLookup(ReplayChain(m, Prefixes(log, front)), log[..e], k);
    }
  }

  /** A log in which a key is first written right after position `at`. */
  function LateWrite(at: nat, len: nat): seq<KVRequest> {
    seq(len, i => if i < at then Delete([]) else Set([0x61], []))
  }

  lemma {:induction false} LateWriteSurvives(ends: seq<nat>, at: nat, len: nat)
    requires AllUpTo(ends, len)
    requires !AllUpTo(ends, at)
    ensures [0x61] in ReplayChain(map[], Prefixes(LateWrite(at, len), ends))
  {
    var log := LateWrite(at, len);
    var front, e := ends[..|ends| - 1], ends[|ends| - 1];
    var before := ReplayChain(map[], Prefixes(log, front));
    ReplayLookup(before, log[..e], [0x61]);
    if e > at {
      assert log[..e][at].key == [0x61];
      LateLast(log[..e], at);
    } else {
      assert !Touches(log[..e], [0x61]);
      LateWriteSurvives(front, at, len);
    }
    assert Get(Replay(before, log[..e]), [0x61]).Some?;
  }

  lemma LateLast(log: seq<KVRequest>, at: nat)
    requires at < |log| && log == LateWrite(at, |log|)
    ensures Touches(log, [0x61]) && LastWrite(log, [0x61]) == Some([])
  {
    assert log[at].key == [0x61];
    assert log[|log| - 1] == Set([0x61], []);
  }

  /** A chain of cumulative deltas is sound for every log and baseline exactly when no delta in it
      reaches further than the last one. */
  lemma PrefixChainExact(ends: seq<nat>)
    requires ends != []
    ensures ReplaysLikeLast(ends) <==> AllUpTo(ends, ends[|ends| - 1])
  {
    var front, last := ends[..|ends| - 1], ends[|ends| - 1];
    if AllUpTo(ends, last) {
      forall m: KV, log: seq<KVRequest> | AllUpTo(ends, |log|)
        ensures ReplayChain(m, Prefixes(log, ends)) == Replay(m, log[..last])
      {
        forall k: Str | !Touches(log[..last], k)
          ensures Get(ReplayChain(m, Prefixes(log, front)), k) == Get(m, k)
        {
          PrefixesUntouched(m, log, front, last, k);
        }
        ReplayAgrees(ReplayChain(m, Prefixes(log, front)), m, log[..last]);
      }
    } else {
      var len := MaxOf(ends);
      var log := LateWrite(last, len);
      LateWriteSurvives(ends, last, len);
      assert !Touches(log[..last], [0x61]);
      ReplayLookup(map[], log[..last], [0x61]);
      assert Get(Replay(map[], log[..last]), [0x61]).None?;
    }
  }

  function MaxOf(s: seq<nat>): (r: nat)
    ensures AllUpTo(s, r)
  {
    if s == [] then 0
    else
      var r := MaxOf(s[..|s| - 1]);
      if s[|s| - 1] > r then s[|s| - 1] else r
  }
}
