/** The checkpoint merge backend: load the baseline into a temporary tree, replay the delta files,
    and hand back what the new checkpoint holds. */
module Backend {
  import opened Types
  import opened Records
  import opened Ranges
  import R = Replay

  datatype MergeError =
    | BaselineMissing
    | BaselinePathRequired
    | BaselinePathMissing(path: Path)
    | FileUnreadable(path: Path)
    | EntryUndecodable(index: u64)

  /** The requests of a decodable entry list. */
  function Requests(es: seq<DeltaEntry>): seq<KVRequest>
    requires forall e <- es :: e.payload.Valid?
  {
    seq(|es|, i requires 0 <= i < |es| => es[i].payload.req)
  }

  predicate Decodable(es: seq<DeltaEntry>) {
    forall e <- es :: e.payload.Valid?
  }

  /** A log keyed by index whose entries all decode. */
  predicate LogOk(log: map<u64, DeltaEntry>) {
    forall i | i in log :: log[i].index == i && log[i].payload.Valid?
  }

  lemma {:induction false} RangeDecodes(log: map<u64, DeltaEntry>, lo: int, hi: int)
    requires LogOk(log)
    ensures Decodable(Range(log, lo, hi))
    ensures forall e <- Range(log, lo, hi) :: lo <= e.index <= hi
    decreases hi - lo
  {
    if lo <= hi {
      RangeDecodes(log, lo, hi - 1);
    }
  }

  /** The state a log builds up to index `i`, over `m`. */
  function At(m: R.KV, log: map<u64, DeltaEntry>, i: int): R.KV
    requires LogOk(log)
  {
    RangeDecodes(log, 0, i);
    R.Replay(m, Requests(Range(log, 0, i)))
  }

  lemma AtStep(m: R.KV, log: map<u64, DeltaEntry>, i: int)
    requires LogOk(log) && 0 <= i
    ensures At(m, log, i) ==
            if i in log then R.ApplyRequest(At(m, log, i - 1), log[i].payload.req) else At(m, log, i - 1)
  {
    RangeDecodes(log, 0, i - 1);
    if i in log {
      assert Requests(Range(log, 0, i))[..|Range(log, 0, i - 1)|] == Requests(Range(log, 0, i - 1));
    } else {
      assert Range(log, 0, i) == Range(log, 0, i - 1);
    }
  }

  lemma AtExtends(m: R.KV, log: map<u64, DeltaEntry>, i: int, j: int)
    requires LogOk(log) && -1 <= i <= j
    ensures Decodable(Range(log, i + 1, j))
    ensures At(m, log, j) == R.Replay(At(m, log, i), Requests(Range(log, i + 1, j)))
  {
    RangeDecodes(log, 0, i);
    RangeDecodes(log, 0, j);
    RangeDecodes(log, i + 1, j);
    RangeSplit(log, 0, i, j);
    assert Requests(Range(log, 0, j)) == Requests(Range(log, 0, i)) + Requests(Range(log, i + 1, j));
    R.ReplayConcat(m, Requests(Range(log, 0, i)), Requests(Range(log, i + 1, j)));
  }

  /** The delta files a replay opens: those with a recorded path, in chain order. */
  function Named(chain: seq<DeltaInfo>): seq<Path> {
    if chain == [] then []
    else Named(chain[..|chain| - 1]) + var d := chain[|chain| - 1]; if d.path.Some? then [d.path.value] else []
  }

  /** All named files are there and every entry in them decodes. */
  predicate Readable(files: map<Path, seq<DeltaEntry>>, names: seq<Path>) {
    forall p <- names :: p in files && Decodable(files[p])
  }

  function Logs(files: map<Path, seq<DeltaEntry>>, names: seq<Path>): seq<seq<KVRequest>>
    requires Readable(files, names)
  {
    if names == [] then []
    else
      var last := names[|names| - 1];
      assert last in names;
      Logs(files, names[..|names| - 1]) + [Requests(files[last])]
  }

  /** The baseline directory a merge starts from. */
  function Baseline(rec: SnapshotMetaState, dirs: map<Path, R.KV>): Result<Path, MergeError> {
    match rec.checkpoint
    case None => Failure(BaselineMissing)
    case Some(cp) =>
      match cp.path
      case None => Failure(BaselinePathRequired)
      case Some(p) => if p in dirs then Success(p) else Failure(BaselinePathMissing(p))
  }

  /** A merge can read all it needs. */
  predicate CanMerge(rec: SnapshotMetaState, dirs: map<Path, R.KV>, files: map<Path, seq<DeltaEntry>>) {
    Baseline(rec, dirs).Success? && Readable(files, Named(rec.chain))
  }

  /** The content of the checkpoint a merge makes. */
  function MergedContent(rec: SnapshotMetaState, dirs: map<Path, R.KV>, files: map<Path, seq<DeltaEntry>>): R.KV
    requires CanMerge(rec, dirs, files)
  {
    R.ReplayChain(dirs[Baseline(rec, dirs).value], Logs(files, Named(rec.chain)))
  }

  /** `err` names the first entry of a file that does not decode. */
  predicate FirstCorrupt(es: seq<DeltaEntry>, err: MergeError) {
    exists j | 0 <= j < |es| ::
      Decodable(es[..j]) && es[j].payload.Corrupt? && err == EntryUndecodable(es[j].index)
  }

  /** `err` names the first delta of a chain that cannot be read: its missing file, or the first entry of
      its file that does not decode. */
  predicate FirstFault(chain: seq<DeltaInfo>, files: map<Path, seq<DeltaEntry>>, err: MergeError) {
    exists i | 0 <= i < |chain| ::
      && Readable(files, Named(chain[..i])) && chain[i].path.Some?
      && var p := chain[i].path.value;
      if p in files then FirstCorrupt(files[p], err) else err == FileUnreadable(p)
  }

  /** What a merge hands back: the new checkpoint's content, index and term, and the size reported. */
  datatype Execution = Execution(content: R.KV, index: u64, term: u64, size: u64)

  /** The temporary tree a merge works in. */
  class TempTree {
    var kv: R.KV

    constructor (baseline: R.KV)
      ensures kv == baseline
    {
      kv := baseline;
    }

    method ApplyEntry(e: DeltaEntry) returns (err: Option<MergeError>)
      modifies this
      ensures err == None <==> e.payload.Valid?
      ensures e.payload.Valid? ==> kv == R.Replay(old(kv), [e.payload.req])
      ensures e.payload.Corrupt? ==> err == Some(EntryUndecodable(e.index)) && kv == old(kv)
    {
      match e.payload {
        case Valid(Set(k, v)) =>
          kv := kv[k := v];
          err := None;
          assert R.Replay(old(kv), []) == old(kv);
        case Valid(Delete(k)) =>
          kv := kv - {k};
          err := None;
          assert R.Replay(old(kv), []) == old(kv);
        case Corrupt => err := Some(EntryUndecodable(e.index));
      }
    }

    method ApplyEntries(es: seq<DeltaEntry>) returns (err: Option<MergeError>)
      modifies this
      ensures err == None <==> Decodable(es)
      ensures err == None ==> kv == R.Replay(old(kv), Requests(es))
      ensures err.Some? ==> FirstCorrupt(es, err.value)
    {
      err := None;
      for i := 0 to |es|
        invariant err == None && Decodable(es[..i])
        invariant kv == R.Replay(old(kv), Requests(es[..i]))
      {
        err := ApplyEntry(es[i]);
        if err.Some? {
          assert es[i] in es;
          return;
        }
        assert es[..i + 1] == es[..i] + [es[i]];
        assert Requests(es[..i + 1]) == Requests(es[..i]) + [es[i].payload.req];
        R.ReplayConcat(old(kv), Requests(es[..i]), [es[i].payload.req]);
      }
      assert es[..|es|] == es;
    }

    /** Replay the delta files of a chain, skipping a delta with no recorded path. It succeeds
        exactly when every named file is there and decodes, and then the tree holds the replay
        of the files in chain order; otherwise the first fault is reported. */
    method ReplayDeltas(chain: seq<DeltaInfo>, files: map<Path, seq<DeltaEntry>>) returns (err: Option<MergeError>)
      modifies this
      ensures err == None <==> Readable(files, Named(chain))
      ensures err == None ==> kv == R.ReplayChain(old(kv), Logs(files, Named(chain)))
      ensures err.Some? ==> FirstFault(chain, files, err.value)
    {
      err := None;
      for i := 0 to |chain|
        invariant err == None && Readable(files, Named(chain[..i]))
        invariant kv == R.ReplayChain(old(kv), Logs(files, Named(chain[..i])))
      {
        NamedStep(chain, i);
        if chain[i].path.Some? {
          var p := chain[i].path.value;
          NamedIn(chain, i);
          if p !in files {
            return Some(FileUnreadable(p));
          }
          err := ApplyEntries(files[p]);
          if err.Some? {
            return;
          }
          ReadOneMore(files, Named(chain[..i]), p, old(kv));
          assert Named(chain[..i + 1]) == Named(chain[..i]) + [p];
        } else {
          assert Named(chain[..i + 1]) == Named(chain[..i]);
        }
      }
      assert chain[..|chain|] == chain;
    }
  }

  lemma NamedStep(chain: seq<DeltaInfo>, i: nat)
    requires i < |chain|
    ensures Named(chain[..i + 1]) ==
            Named(chain[..i]) + if chain[i].path.Some? then [chain[i].path.value] else []
  {
    assert chain[..i + 1][..i] == chain[..i];
  }

  lemma ReadOneMore(files: map<Path, seq<DeltaEntry>>, names: seq<Path>, p: Path, base: R.KV)
    requires Readable(files, names) && p in files && Decodable(files[p])
    ensures Readable(files, names + [p])
    ensures R.ReplayChain(base, Logs(files, names + [p])) ==
            R.Replay(R.ReplayChain(base, Logs(files, names)), Requests(files[p]))
  {
    assert (names + [p])[..|names|] == names;
  }

  lemma NamedIn(chain: seq<DeltaInfo>, i: nat)
    requires i < |chain| && chain[i].path.Some?
    ensures chain[i].path.value in Named(chain)
  {
    NamedStep(chain, i);
    NamedGrows(chain, i + 1);
    assert chain[i].path.value in Named(chain[..i + 1]);
  }

  lemma {:induction false} NamedGrows(chain: seq<DeltaInfo>, n: nat)
    requires n <= |chain|
    ensures Named(chain[..n]) <= Named(chain)
    decreases |chain| - n
  {
    if n == |chain| {
      assert chain[..n] == chain;
    } else {
      NamedGrows(chain, n + 1);
      assert chain[..n + 1][..n] == chain[..n];
    }
  }

  /** Strict baseline, then replay, then a checkpoint at the merge index with the baseline's term.
      `dirSize` is the size on disk of a checkpoint directory. It succeeds exactly when the baseline
      directory and every named delta file can be read; otherwise the first thing missing is reported. */
  method ExecuteMerge(rec: SnapshotMetaState, dirs: map<Path, R.KV>, files: map<Path, seq<DeltaEntry>>, dirSize: R.KV -> u64)
    returns (r: Result<Execution, MergeError>)
    ensures r.Success? <==> CanMerge(rec, dirs, files)
    ensures r.Success? ==>
            && r.value.content == MergedContent(rec, dirs, files)
            && r.value.index == MergeIndex(rec) && r.value.term == rec.checkpoint.value.term
            && r.value.size >= rec.totalBytes && r.value.size >= dirSize(r.value.content)
            && r.value.size in {rec.totalBytes, dirSize(r.value.content)}
    ensures r.Failure? ==>
            if rec.checkpoint.None? then r.error == BaselineMissing
            else if rec.checkpoint.value.path.None? then r.error == BaselinePathRequired
            else if rec.checkpoint.value.path.value !in dirs then r.error == BaselinePathMissing(rec.checkpoint.value.path.value)
            else FirstFault(rec.chain, files, r.error)
  {
    var baseline := Baseline(rec, dirs);
    if baseline.Failure? {
      return Failure(baseline.error);
    }
    var tree := new TempTree(dirs[baseline.value]);
    var err := tree.ReplayDeltas(rec.chain, files);
    if err.Some? {
      return Failure(err.value);
    }
    var applied, term :=
      if |rec.chain| > 0 then rec.chain[|rec.chain| - 1].end else rec.checkpoint.value.index,
      rec.checkpoint.value.term;
    var size := dirSize(tree.kv);
    return Success(Execution(tree.kv, applied, term, if size < rec.totalBytes then rec.totalBytes else size));
  }
}
