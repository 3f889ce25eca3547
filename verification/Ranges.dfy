/** Ordered reads of a map keyed by log index, as a BTreeMap range iterator gives them. */
module Ranges {
  import opened Types

  /** The values at the keys in [lo, hi], in key order. */
  function Range<T>(m: map<u64, T>, lo: int, hi: int): seq<T>
    decreases hi - lo
  {
    if hi < lo then []
    else Range(m, lo, hi - 1) + if hi in m then [m[hi]] else []
  }

  lemma {:induction false} RangeSplit<T>(m: map<u64, T>, lo: int, mid: int, hi: int)
    requires lo - 1 <= mid <= hi
    ensures Range(m, lo, hi) == Range(m, lo, mid) + Range(m, mid + 1, hi)
    decreases hi - mid
  {
    if mid == hi {
      assert Range(m, mid + 1, hi) == [];
    } else {
      RangeSplit(m, lo, mid, hi - 1);
      var last := if hi in m then [m[hi]] else [];
      assert Range(m, mid + 1, hi) == Range(m, mid + 1, hi - 1) + last;
      assert Range(m, lo, hi) == (Range(m, lo, mid) + Range(m, mid + 1, hi - 1)) + last;
    }
  }

  lemma {:induction false} RangeFrame<T>(m: map<u64, T>, n: map<u64, T>, lo: int, hi: int)
    requires forall i | lo <= i <= hi :: (i in m <==> i in n) && (i in m ==> m[i] == n[i])
    ensures Range(m, lo, hi) == Range(n, lo, hi)
    decreases hi - lo
  {
    if lo <= hi {
      RangeFrame(m, n, lo, hi - 1);
    }
  }

  lemma {:induction false} RangeEmpty<T>(m: map<u64, T>, lo: int, hi: int)
    ensures Range(m, lo, hi) == [] <==> forall i | lo <= i <= hi :: i !in m
    decreases hi - lo
  {
    if lo <= hi {
      RangeEmpty(m, lo, hi - 1);
    }
  }

  /** Membership in both directions: a range holds exactly the values at keys inside it. */
  lemma {:induction false} RangeHolds<T>(m: map<u64, T>, lo: int, hi: int, v: T)
    ensures v in Range(m, lo, hi) <==> exists i :: lo <= i <= hi && i in m && m[i] == v
    decreases hi - lo
  {
    if lo <= hi {
      RangeHolds(m, lo, hi - 1, v);
    }
  }

  /** Where a range over keys that start at `first` begins and ends in the sequence that backs them. */
  function SliceStart(first: int, len: nat, lo: int): nat {
    if lo < first then 0 else if lo - first > len then len else lo - first
  }

  function SliceEnd(first: int, len: nat, lo: int, hi: int): nat {
    var a := SliceStart(first, len, lo);
    if hi + 1 < first + a then a else if hi + 1 - first > len then len else hi + 1 - first
  }

  lemma SliceGrows<T>(s: seq<T>, first: int, lo: int, hi: int)
    requires lo <= hi
    ensures var a, b, c := SliceStart(first, |s|, lo), SliceEnd(first, |s|, lo, hi - 1), SliceEnd(first, |s|, lo, hi);
            && a <= b <= c <= |s|
            && s[a..c] == s[a..b] + if first <= hi < first + |s| then [s[hi - first]] else []
  {
  }

  /** A range over contiguous keys is a slice of the sequence that backs them. */
  lemma {:induction false} RangeOfSequence<T>(m: map<u64, T>, s: seq<T>, first: int, lo: int, hi: int)
    requires forall i :: i in m <==> first <= i < first + |s|
    requires forall i | i in m :: m[i] == s[i - first]
    ensures SliceStart(first, |s|, lo) <= SliceEnd(first, |s|, lo, hi) <= |s|
    ensures Range(m, lo, hi) == s[SliceStart(first, |s|, lo)..SliceEnd(first, |s|, lo, hi)]
    decreases hi - lo
  {
    if lo <= hi {
      RangeOfSequence(m, s, first, lo, hi - 1);
      SliceGrows(s, first, lo, hi);
      assert (if hi in m then [m[hi]] else []) == if first <= hi < first + |s| then [s[hi - first]] else [];
    }
  }
}
