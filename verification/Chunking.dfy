/** Sending a snapshot in chunks. */
module Chunking {
  import opened Types

  const ISIZE_MAX: int := 0x7FFF_FFFF_FFFF_FFFF

  datatype Chunk = Chunk(offset: u64, data: Bytes, done: bool)

  const DEFAULT_CHUNK := 1024 * 1024

  function ChunkSize(option: Option<u64>): (r: u64)
    ensures option.None? ==> r == 1_048_576
    ensures option.Some? ==> r == if option.value == 0 then 1 else option.value
  {
    var asked := if option.Some? then option.value else DEFAULT_CHUNK;
    if asked < 1 then 1 else asked
  }

  function Concat(cs: seq<Chunk>): Bytes {
    if cs == [] then [] else Concat(cs[..|cs| - 1]) + cs[|cs| - 1].data
  }

  /** Each chunk starts where those before it end. */
  predicate Placed(cs: seq<Chunk>) {
    cs == [] || (Placed(cs[..|cs| - 1]) && cs[|cs| - 1].offset == |Concat(cs[..|cs| - 1])|)
  }

  /** How a call ends: with the receiver's vote, with a failure, or because replication was closed. */
  datatype Reply<V> = Answered(vote: V) | Failed | Closed

  /** Every call but the last was answered. */
  predicate AnsweredBefore<V>(reply: nat -> Reply<V>, n: int) {
    forall i: nat | i < n - 1 :: reply(i).Answered?
  }

  /** The request loop of `full_snapshot`; `reply` gives the reply to each call in turn, and `cs` are the
      chunks of the calls made. However it ends, they put together a prefix of the snapshot, each one starts
      where the last ended, only the one that ends the snapshot says done, and none is larger than the
      chunk size. The first call that is not answered ends the loop and is what is returned. Otherwise the
      chunks are the whole snapshot, as few as the size allows but at least one, and the last vote is
      returned. `offset + size` stays inside 64 bits although the size is the caller's. */
  method SendChunks<V>(bytes: Bytes, option: Option<u64>, reply: nat -> Reply<V>) returns (cs: seq<Chunk>, r: Reply<V>)
    requires |bytes| <= ISIZE_MAX
    ensures Concat(cs) <= bytes && Placed(cs)
    ensures |cs| >= 1 && Flagged(cs, Concat(cs) == bytes)
    ensures AnsweredBefore(reply, |cs|) && r == reply(|cs| - 1)
    ensures r.Answered? ==> Concat(cs) == bytes
    ensures bytes == [] ==> cs == [Chunk(0, [], true)]
    ensures bytes != [] ==> Bounded(cs, ChunkSize(option)) && (Concat(cs) == bytes ==> Fewest(|cs|, |bytes|, ChunkSize(option)))
  {
    var size := ChunkSize(option);
    if bytes == [] {
      cs, r := [Chunk(0, [], true)], reply(0);
      return;
    }
    var offset: int;
    cs, r, offset := SendAll(bytes, size, reply);
    SentMeans(bytes, cs, offset, size);
  }

  /** The loop itself, up to `offset`. */
  method SendAll<V>(bytes: Bytes, size: u64, reply: nat -> Reply<V>) returns (cs: seq<Chunk>, r: Reply<V>, offset: int)
    requires 0 < |bytes| <= ISIZE_MAX && size >= 1
    ensures 0 < offset <= |bytes| && |cs| >= 1
    ensures Sent(bytes, cs, offset, size)
    ensures AnsweredBefore(reply, |cs|) && r == reply(|cs| - 1)
    ensures r.Answered? ==> offset == |bytes|
  {
    cs, r, offset := [], Closed, 0;
    while offset < |bytes|
      invariant 0 <= offset <= |bytes| && (offset > 0 ==> |cs| >= 1)
      invariant Sent(bytes, cs, offset, size)
      invariant AnsweredBefore(reply, |cs| + 1)
      invariant cs != [] ==> r == reply(|cs| - 1)
    {
      NoOverflow(bytes, cs, offset, size);
      var end: u64 := if offset + size <= |bytes| then offset + size else |bytes|;
      SentSnoc(bytes, cs, offset, end, size);
      r := reply(|cs|);
      cs := cs + [Chunk(offset, bytes[offset..end], end == |bytes|)];
      offset := end;
      if !r.Answered? {
        return;
      }
    }
  }

  /** The chunks sent so far, up to `offset`: each is cut where the one before it ended. */
  predicate Sent(bytes: Bytes, cs: seq<Chunk>, offset: int, size: u64) {
    if cs == [] then offset == 0
    else
      var c := cs[|cs| - 1];
      && c.offset < |bytes| && Sent(bytes, cs[..|cs| - 1], c.offset, size)
      && offset == Min(c.offset + size, |bytes|)
      && c.offset <= offset && c.data == bytes[c.offset..offset] && c.done == (offset == |bytes|)
  }

  lemma SentSnoc(bytes: Bytes, cs: seq<Chunk>, offset: u64, end: u64, size: u64)
    requires offset < |bytes| && end == Min(offset + size, |bytes|) && Sent(bytes, cs, offset, size)
    ensures Sent(bytes, cs + [Chunk(offset, bytes[offset..end], end == |bytes|)], end, size)
  {
    assert (cs + [Chunk(offset, bytes[offset..end], end == |bytes|)])[..|cs|] == cs;
  }

  /** A second chunk is only reached when the size is below the length. */
  lemma NoOverflow(bytes: Bytes, cs: seq<Chunk>, offset: int, size: u64)
    requires 0 <= offset < |bytes| <= ISIZE_MAX && Sent(bytes, cs, offset, size)
    ensures offset + size <= U64_MAX
  {
  }

  lemma PrefixGrows(bytes: Bytes, lo: nat, hi: nat)
    requires lo <= hi <= |bytes|
    ensures bytes[..hi] == bytes[..lo] + bytes[lo..hi]
  {
  }

  lemma {:induction false} SentPieces(bytes: Bytes, cs: seq<Chunk>, offset: int, size: u64)
    requires Sent(bytes, cs, offset, size) && 0 <= offset <= |bytes|
    ensures Concat(cs) == bytes[..offset] && Placed(cs)
  {
    if cs != [] {
      var c := cs[|cs| - 1];
      SentPieces(bytes, cs[..|cs| - 1], c.offset, size);
      PrefixGrows(bytes, c.offset, offset);
    }
  }

  lemma {:induction false} SentFlags(bytes: Bytes, cs: seq<Chunk>, offset: int, size: u64)
    requires Sent(bytes, cs, offset, size) && size >= 1
    ensures Flagged(cs, offset == |bytes|) && Bounded(cs, size)
  {
    if cs != [] {
      var front, c := cs[..|cs| - 1], cs[|cs| - 1];
      SentFlags(bytes, front, c.offset, size);
      FlaggedSnoc(front, c, size);
      assert cs == front + [c];
    }
  }

  /** All chunks but the last are full. */
  lemma {:induction false} SentCount(bytes: Bytes, cs: seq<Chunk>, offset: int, size: u64)
    requires Sent(bytes, cs, offset, size) && size >= 1
    ensures offset < |bytes| ==> Times(|cs|, size) == offset
    ensures offset == |bytes| > 0 ==> |cs| > 0 && Times(|cs| - 1, size) < offset <= Times(|cs|, size)
  {
    if cs != [] {
      SentCount(bytes, cs[..|cs| - 1], cs[|cs| - 1].offset, size);
    }
  }

  lemma SentMeans(bytes: Bytes, cs: seq<Chunk>, offset: int, size: u64)
    requires 0 <= offset <= |bytes| && bytes != [] && size >= 1 && Sent(bytes, cs, offset, size)
    ensures Concat(cs) <= bytes && Placed(cs) && Bounded(cs, size)
    ensures offset == |bytes| <==> Concat(cs) == bytes
    ensures Flagged(cs, Concat(cs) == bytes)
    ensures offset == |bytes| ==> Fewest(|cs|, |bytes|, size)
  {
    SentPieces(bytes, cs, offset, size);
    SentFlags(bytes, cs, offset, size);
    SentCount(bytes, cs, offset, size);
    assert |bytes[..offset]| == offset;
    if offset == |bytes| {
      FewestChunks(|cs|, |bytes|, size);
    }
  }

  /** `n` is the length divided by the size, rounded up. */
  predicate Fewest(n: int, len: nat, size: nat) { (n - 1) * size < len <= n * size }

  lemma FewestChunks(n: nat, len: nat, size: nat)
    requires n > 0 && Times(n - 1, size) < len <= Times(n, size)
    ensures Fewest(n, len, size)
  {
    TimesIsProduct(n, size);
    TimesIsProduct(n - 1, size);
  }

  /** Only the last chunk can say done, and it does when `finished`. */
  predicate Flagged(cs: seq<Chunk>, finished: bool) {
    forall i | 0 <= i < |cs| :: cs[i].done <==> i == |cs| - 1 && finished
  }

  predicate Bounded(cs: seq<Chunk>, size: u64) {
    forall i | 0 <= i < |cs| :: 1 <= |cs[i].data| <= size
  }

  lemma FlaggedSnoc(cs: seq<Chunk>, c: Chunk, size: u64)
    requires Flagged(cs, false) && Bounded(cs, size) && 1 <= |c.data| <= size
    ensures Flagged(cs + [c], c.done) && Bounded(cs + [c], size)
  {
  }

  /** n * size, by repeated addition. */
  function Times(n: nat, size: nat): nat { if n == 0 then 0 else Times(n - 1, size) + size }

  lemma {:induction false} TimesIsProduct(n: nat, size: nat)
    ensures Times(n, size) == n * size
  {
    if n > 0 { TimesIsProduct(n - 1, size); }
  }

  // ---------------------------------------------------------------- the receiver

  /** Write at an offset, as a file does: zero-filled up to the offset if it is past the end. */
  function WriteAt(buf: Bytes, offset: nat, data: Bytes): Bytes {
    seq(if offset + |data| > |buf| then offset + |data| else |buf|,
        j => if offset <= j < offset + |data| then data[j - offset] else if 0 <= j < |buf| then buf[j] else 0)
  }

  predicate Numbers(cs: seq<Chunk>, arrivals: seq<nat>) {
    forall k | 0 <= k < |arrivals| :: arrivals[k] < |cs|
  }

  /** What is there after chunks have arrived, by number, in this order. */
  function Receive(cs: seq<Chunk>, arrivals: seq<nat>): Bytes
    requires Numbers(cs, arrivals)
  {
    if arrivals == [] then []
    else
      var last := arrivals[|arrivals| - 1];
      WriteAt(Receive(cs, arrivals[..|arrivals| - 1]), cs[last].offset, cs[last].data)
  }

  lemma SliceOfPrefix(a: Bytes, b: Bytes, lo: nat, hi: nat)
    requires lo <= hi <= |a|
    ensures (a + b)[lo..hi] == a[lo..hi]
  {
  }

  lemma {:induction false} ConcatSplit(cs: seq<Chunk>, i: nat)
    requires Placed(cs) && i < |cs|
    ensures var whole := Concat(cs);
            cs[i].offset + |cs[i].data| <= |whole| &&
            whole[cs[i].offset..cs[i].offset + |cs[i].data|] == cs[i].data
  {
    var front := cs[..|cs| - 1];
    if i < |cs| - 1 {
      ConcatSplit(front, i);
      SliceOfPrefix(Concat(front), cs[|cs| - 1].data, cs[i].offset, cs[i].offset + |cs[i].data|);
    }
  }

  /** A byte has arrived. */
  predicate Arrived(cs: seq<Chunk>, arrivals: seq<nat>, j: nat)
    requires Numbers(cs, arrivals)
  {
    exists k | 0 <= k < |arrivals| :: Holds(cs[arrivals[k]], j)
  }

  predicate Holds(c: Chunk, j: nat) { c.offset <= j < c.offset + |c.data| }

  /** Nothing is ever written past the end of the snapshot. */
  lemma {:induction false} ReceivedLength(cs: seq<Chunk>, arrivals: seq<nat>)
    requires Placed(cs) && Numbers(cs, arrivals)
    ensures |Receive(cs, arrivals)| <= |Concat(cs)|
  {
    if arrivals != [] {
      var front, n := arrivals[..|arrivals| - 1], arrivals[|arrivals| - 1];
      ReceivedLength(cs, front);
      ConcatSplit(cs, n);
    }
  }

  /** A byte that has arrived is the snapshot's byte. */
  lemma {:induction false} ReceivedByte(cs: seq<Chunk>, arrivals: seq<nat>, j: nat)
    requires Placed(cs) && Numbers(cs, arrivals) && Arrived(cs, arrivals, j)
    ensures j < |Receive(cs, arrivals)| && j < |Concat(cs)| && Receive(cs, arrivals)[j] == Concat(cs)[j]
  {
    var front, n := arrivals[..|arrivals| - 1], arrivals[|arrivals| - 1];
    var whole, c := Concat(cs), cs[n];
    if Holds(c, j) {
      ConcatSplit(cs, n);
      assert whole[c.offset..c.offset + |c.data|][j - c.offset] == whole[j];
    } else {
      var k :| 0 <= k < |arrivals| && Holds(cs[arrivals[k]], j);
      assert front[k] == arrivals[k];
      ReceivedByte(cs, front, j);
    }
  }

  lemma {:induction false} ByteIsInSomeChunk(cs: seq<Chunk>, j: nat) returns (i: nat)
    requires Placed(cs) && j < |Concat(cs)|
    ensures i < |cs| && cs[i].offset <= j < cs[i].offset + |cs[i].data|
  {
    var front := cs[..|cs| - 1];
    if j < |Concat(front)| {
      i := ByteIsInSomeChunk(front, j);
    } else {
      i := |cs| - 1;
    }
  }

  predicate EachArrives(cs: seq<Chunk>, arrivals: seq<nat>) {
    forall i: nat | i < |cs| :: i in arrivals
  }

  /** A receiver that writes each chunk at its offset ends up with the snapshot whatever the order of
      arrival and however often chunks are sent again, as long as every chunk arrives. */
  lemma AnyArrivalOrderRebuilds(cs: seq<Chunk>, arrivals: seq<nat>)
    requires Placed(cs) && Numbers(cs, arrivals) && EachArrives(cs, arrivals)
    ensures Receive(cs, arrivals) == Concat(cs)
  {
    var whole, got := Concat(cs), Receive(cs, arrivals);
    ReceivedLength(cs, arrivals);
    forall j: nat | j < |whole| ensures j < |got| && got[j] == whole[j]
    {
      RebuiltByte(cs, arrivals, j);
    }
    if |whole| > 0 {
      RebuiltByte(cs, arrivals, |whole| - 1);
    }
  }

  lemma RebuiltByte(cs: seq<Chunk>, arrivals: seq<nat>, j: nat)
    requires Placed(cs) && Numbers(cs, arrivals) && EachArrives(cs, arrivals) && j < |Concat(cs)|
    ensures j < |Receive(cs, arrivals)| && Receive(cs, arrivals)[j] == Concat(cs)[j]
  {
    var i := ByteIsInSomeChunk(cs, j);
    assert i in arrivals;
    var k :| 0 <= k < |arrivals| && arrivals[k] == i;
    assert Holds(cs[arrivals[k]], j);
    ReceivedByte(cs, arrivals, j);
  }
}
