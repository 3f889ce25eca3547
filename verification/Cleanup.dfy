/** Removing delta files and old checkpoint directories after a merge. */
module Cleanup {
  import opened Types
  import opened Records

  /** A directory entry: path and modification time. */
  datatype DirEntry = DirEntry(path: Path, modified: nat)

  predicate Sorted(ds: seq<DirEntry>) {
    forall i, j | 0 <= i <= j < |ds| :: ds[i].modified <= ds[j].modified
  }

  function Insert(ds: seq<DirEntry>, d: DirEntry): seq<DirEntry> {
    if ds == [] || ds[|ds| - 1].modified <= d.modified then ds + [d]
    else Insert(ds[..|ds| - 1], d) + [ds[|ds| - 1]]
  }

  /** Stable sort by modification time, oldest first. */
  function SortByTime(ds: seq<DirEntry>): seq<DirEntry> {
    if ds == [] then [] else Insert(SortByTime(ds[..|ds| - 1]), ds[|ds| - 1])
  }

  lemma {:induction false} InsertSorted(ds: seq<DirEntry>, d: DirEntry, top: nat)
    requires Sorted(ds) && d.modified <= top && (ds != [] ==> ds[|ds| - 1].modified <= top)
    ensures Sorted(Insert(ds, d))
    ensures forall i | 0 <= i < |Insert(ds, d)| :: Insert(ds, d)[i].modified <= top
  {
    if ds != [] && ds[|ds| - 1].modified > d.modified {
      InsertSorted(ds[..|ds| - 1], d, ds[|ds| - 1].modified);
    }
  }

  lemma {:induction false} InsertBag(ds: seq<DirEntry>, d: DirEntry)
    ensures multiset(Insert(ds, d)) == multiset(ds) + multiset{d}
  {
    if ds != [] && ds[|ds| - 1].modified > d.modified {
      InsertBag(ds[..|ds| - 1], d);
      assert ds == ds[..|ds| - 1] + [ds[|ds| - 1]];
    }
  }

  lemma InsertIsSort(s: seq<DirEntry>, front: seq<DirEntry>, d: DirEntry)
    requires Sorted(s) && multiset(s) == multiset(front)
    ensures Sorted(Insert(s, d)) && multiset(Insert(s, d)) == multiset(front + [d])
  {
    InsertSorted(s, d, if s == [] || s[|s| - 1].modified <= d.modified then d.modified else s[|s| - 1].modified);
    InsertBag(s, d);
  }

  /** Sorted, and a permutation. */
  lemma {:induction false} SortIsSort(ds: seq<DirEntry>)
    ensures Sorted(SortByTime(ds)) && multiset(SortByTime(ds)) == multiset(ds)
  {
    if ds != [] {
      var front, d := ds[..|ds| - 1], ds[|ds| - 1];
      SortIsSort(front);
      InsertIsSort(SortByTime(front), front, d);
      assert ds == front + [d];
    }
  }

  predicate Distinct(ds: seq<DirEntry>) {
    forall i, j | 0 <= i < j < |ds| :: ds[i].path != ds[j].path
  }

  /** No entry occurs twice, said of the bag. */
  lemma DistinctBag(a: seq<DirEntry>, b: seq<DirEntry>)
    requires Distinct(a) && multiset(a) == multiset(b)
    ensures Distinct(b) && |a| == |b|
  {
    assert |a| == |multiset(a)| == |multiset(b)| == |b|;
    forall i, j | 0 <= i < j < |b| ensures b[i].path != b[j].path
    {
      assert b[i] in multiset(b) && b[j] in multiset(b);
      assert b[i] in multiset(a) && b[j] in multiset(a);
      var k :| 0 <= k < |a| && a[k] == b[i];
      var l :| 0 <= l < |a| && a[l] == b[j];
      if k == l {
        Twice(b, i, j);
        Once(a, k);
      }
    }
  }

  lemma Twice(b: seq<DirEntry>, i: nat, j: nat)
    requires i < j < |b| && b[i] == b[j]
    ensures multiset(b)[b[i]] >= 2
  {
    assert b == b[..j] + b[j..];
    assert b[..j][i] == b[i] && b[j..][0] == b[j];
    assert b[i] in multiset(b[..j]) && b[j] in multiset(b[j..]);
  }

  lemma Once(a: seq<DirEntry>, k: nat)
    requires Distinct(a) && k < |a|
    ensures multiset(a)[a[k]] == 1
  {
    assert a == a[..k] + ([a[k]] + a[k + 1..]);
    assert a[k] !in a[..k] && a[k] !in a[k + 1..];
  }

  /** Keep the newest `retain` checkpoint directories. `listing` is the directory as read: each path
      once, in any order. Exactly min(n, retain) directories are left, the rest are gone, and none of
      those left is older than one that went. */
  method CleanupOldCheckpoints(listing: seq<DirEntry>, retain: nat) returns (kept: seq<DirEntry>, removed: nat)
    requires Distinct(listing)
    ensures |kept| == Min(|listing|, retain) && removed == |listing| - |kept|
    ensures Distinct(kept) && forall d <- kept :: d in listing
    ensures forall d <- listing, k <- kept :: d in kept || d.modified <= k.modified
  {
    if |listing| <= retain {
      return listing, 0;
    }
    var dirs := SortByTime(listing);
    SortIsSort(listing);
    DistinctBag(listing, dirs);
    removed := |dirs| - retain;
    kept := dirs;
    for i := 0 to removed
      invariant kept == dirs[i..]
    {
      kept := kept[1..];
    }
    TailIsNewest(listing, dirs, removed);
  }

  lemma TailIsNewest(listing: seq<DirEntry>, dirs: seq<DirEntry>, n: nat)
    requires n <= |dirs| && Distinct(dirs) && Sorted(dirs) && multiset(dirs) == multiset(listing)
    ensures Distinct(dirs[n..]) && forall d <- dirs[n..] :: d in listing
    ensures forall d <- listing, k <- dirs[n..] :: d in dirs[n..] || d.modified <= k.modified
  {
    forall d | d in dirs[n..] ensures d in listing
    {
      assert d in multiset(dirs) && d in multiset(listing);
    }
    forall d, k | d in listing && k in dirs[n..] ensures d in dirs[n..] || d.modified <= k.modified
    {
      assert d in multiset(listing) && d in multiset(dirs);
      var i :| 0 <= i < |dirs| && dirs[i] == d;
      var j :| 0 <= j < |dirs[n..]| && dirs[n..][j] == k;
      if i >= n {
        assert dirs[n..][i - n] == d;
      } else {
        assert dirs[n + j] == k;
      }
    }
  }

  /** The checkpoint a merge just committed survives cleanup when at least one is retained and nothing
      else is as new. */
  lemma NewestSurvives(listing: seq<DirEntry>, kept: seq<DirEntry>, retain: nat, d: DirEntry)
    requires retain >= 1 && d in listing && forall e <- listing :: e == d || e.modified < d.modified
    requires |kept| == Min(|listing|, retain) && forall e <- kept :: e in listing
    requires forall e <- listing, k <- kept :: e in kept || e.modified <= k.modified
    ensures d in kept
  {
    assert |kept| > 0;
    assert kept[0] in kept;
  }

  /** Delta files a record names that have reached the age limit. */
  predicate Expired(chain: seq<DeltaInfo>, now: u64, maxAge: u64, p: Path) {
    exists d <- chain :: d.path == Some(p) && SatSub(now, d.createdAt) >= maxAge
  }

  method CleanupDeltaFiles(chain: seq<DeltaInfo>, files: set<Path>, now: u64, maxAge: u64) returns (left: set<Path>, removed: nat)
    ensures left == set p | p in files && !Expired(chain, now, maxAge, p)
    ensures removed == |files| - |left|
  {
    left, removed := files, 0;
    for i := 0 to |chain|
      invariant left == set p | p in files && !Expired(chain[..i], now, maxAge, p)
      invariant removed == |files| - |left|
    {
      var d := chain[i];
      ExpiredStep(chain, i, now, maxAge);
      if d.path.Some? && SatSub(now, d.createdAt) >= maxAge && d.path.value in left {
        left := left - {d.path.value};
        removed := removed + 1;
      }
    }
    assert chain[..|chain|] == chain;
  }

  lemma ExpiredStep(chain: seq<DeltaInfo>, i: nat, now: u64, maxAge: u64)
    requires i < |chain|
    ensures forall p :: Expired(chain[..i + 1], now, maxAge, p) <==>
                        Expired(chain[..i], now, maxAge, p) ||
                        (chain[i].path == Some(p) && SatSub(now, chain[i].createdAt) >= maxAge)
  {
    assert chain[..i + 1] == chain[..i] + [chain[i]];
  }

  /** Cleanup runs on the record the merge committed, whose chain is empty: it removes no delta file,
      not even those the merge has just folded in. */
  method CleanupAfterMerge(rec: SnapshotMetaState, started: u64, path: Option<Path>, files: set<Path>, maxAge: u64)
    returns (left: set<Path>, removed: nat)
    ensures left == files && removed == 0
  {
    left, removed := CleanupDeltaFiles(Merged(rec, started, path).chain, files, started, maxAge);
  }
}
