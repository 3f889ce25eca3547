/** The postcard layouts the snapshot envelope rests on: "Varint Encoded Integers", "option", "seq",
    "string" and "struct_variant" of the Postcard Wire Format specification. */
module Wire {
  import opened Types

  datatype WireError = UnexpectedEnd | BadVarint | BadOption | BadUtf8 | BadVariant

  /** A value and the bytes after it. */
  datatype Parsed<+T> = Ok(value: T, rest: Bytes) | Bad(error: WireError)

  function Pow128(k: nat): nat { if k == 0 then 1 else 128 * Pow128(k - 1) }

  function PutVarint(n: nat): Bytes {
    if n < 128 then [n] else [n % 128 + 128] + PutVarint(n / 128)
  }

  /** Read at most `k` bytes; the k-th may be at most `top`. */
  function GetVarint(bs: Bytes, k: nat, top: u8): (r: Parsed<nat>)
    requires k > 0
    ensures r.Bad? ==> r.error == UnexpectedEnd || r.error == BadVarint
  {
    if bs == [] then Bad(UnexpectedEnd)
    else if bs[0] < 128 then (if k == 1 && bs[0] > top then Bad(BadVarint) else Ok(bs[0], bs[1..]))
    else if k == 1 then Bad(BadVarint)
    else
      match GetVarint(bs[1..], k - 1, top)
      case Ok(v, rest) => Ok(bs[0] - 128 + 128 * v, rest)
      case Bad(e) => Bad(e)
  }

  lemma {:induction false} VarintTrip(n: nat, k: nat, top: u8, rest: Bytes)
    requires k > 0 && top < 128 && n < (top + 1) * Pow128(k - 1)
    ensures GetVarint(PutVarint(n) + rest, k, top) == Ok(n, rest)
  {
    var bs := PutVarint(n) + rest;
    if n < 128 {
      assert bs[1..] == rest;
      if k == 1 { assert n < (top + 1) * 1; }
    } else {
      assert (top + 1) * Pow128(0) == top + 1;
      assert k > 1;
      var p := Pow128(k - 2);
      assert (top + 1) * (128 * p) == 128 * ((top + 1) * p) by { Reassociate(top + 1, p); }
      assert n / 128 < (top + 1) * p;
      VarintTrip(n / 128, k - 1, top, rest);
      assert bs[1..] == PutVarint(n / 128) + rest;
    }
  }

  lemma Reassociate(a: int, p: int)
    ensures a * (128 * p) == 128 * (a * p)
  {
  }

  lemma {:induction false} VarintValue(bs: Bytes, k: nat, top: u8)
    requires k > 0 && top < 128 && GetVarint(bs, k, top).Ok?
    ensures GetVarint(bs, k, top).value < (top + 1) * Pow128(k - 1)
  {
    if k == 1 {
      assert (top + 1) * Pow128(0) == top + 1;
    } else if bs[0] < 128 {
      assert Pow128(k - 1) >= 128 by { PowPositive(k - 2); }
      assert (top + 1) * Pow128(k - 1) >= 1 * Pow128(k - 1) by { Grows(top, Pow128(k - 1)); }
    } else {
      VarintValue(bs[1..], k - 1, top);
      var v, p := GetVarint(bs[1..], k - 1, top).value, Pow128(k - 2);
      assert (top + 1) * (128 * p) == 128 * ((top + 1) * p) by { Reassociate(top + 1, p); }
    }
  }

  lemma {:induction false} PowPositive(k: nat)
    ensures Pow128(k) >= 1
  {
    if k > 0 { PowPositive(k - 1); }
  }

  lemma Grows(a: nat, p: nat)
    ensures (a + 1) * p >= p
  {
  }

  lemma U64Bound()
    ensures 2 * Pow128(9) == U64_MAX + 1
    ensures 4 * Pow128(2) == 0x1_0000
    ensures 16 * Pow128(4) == 0x1_0000_0000
  {
    assert Pow128(1) == 128;
    assert Pow128(2) == 0x4000;
    assert Pow128(3) == 0x20_0000;
    assert Pow128(4) == 0x1000_0000;
    assert Pow128(5) == 0x8_0000_0000;
    assert Pow128(6) == 0x400_0000_0000;
    assert Pow128(7) == 0x2_0000_0000_0000;
    assert Pow128(8) == 0x100_0000_0000_0000;
    assert Pow128(9) == 0x8000_0000_0000_0000;
  }

  type u16 = x: int | 0 <= x < 0x1_0000
  type u32 = x: int | 0 <= x < 0x1_0000_0000

  function GetU64(bs: Bytes): (r: Parsed<u64>) {
    match GetVarint(bs, 10, 1)
    case Ok(v, rest) => VarintValue(bs, 10, 1); U64Bound(); Ok(v, rest)
    case Bad(e) => Bad(e)
  }

  function GetU16(bs: Bytes): (r: Parsed<u16>) {
    match GetVarint(bs, 3, 3)
    case Ok(v, rest) => VarintValue(bs, 3, 3); U64Bound(); Ok(v, rest)
    case Bad(e) => Bad(e)
  }

  function GetU32(bs: Bytes): (r: Parsed<u32>) {
    match GetVarint(bs, 5, 15)
    case Ok(v, rest) => VarintValue(bs, 5, 15); U64Bound(); Ok(v, rest)
    case Bad(e) => Bad(e)
  }

  lemma U64Trip(n: u64, rest: Bytes)
    ensures GetU64(PutVarint(n) + rest) == Ok(n, rest)
  {
    U64Bound();
    VarintTrip(n, 10, 1, rest);
  }

  lemma U16Trip(n: u16, rest: Bytes)
    ensures GetU16(PutVarint(n) + rest) == Ok(n, rest)
  {
    U64Bound();
    VarintTrip(n, 3, 3, rest);
  }

  lemma U32Trip(n: u32, rest: Bytes)
    ensures GetU32(PutVarint(n) + rest) == Ok(n, rest)
  {
    U64Bound();
    VarintTrip(n, 5, 15, rest);
  }

  /** Lengths are 64-bit. */
  predicate Sized<T>(s: seq<T>) { |s| <= U64_MAX }

  function PutBytes(b: Bytes): Bytes { PutVarint(|b|) + b }

  function GetBytes(bs: Bytes): Parsed<Bytes> {
    match GetU64(bs)
    case Bad(e) => Bad(e)
    case Ok(n, rest) => if n <= |rest| then Ok(rest[..n], rest[n..]) else Bad(UnexpectedEnd)
  }

  lemma BytesTrip(b: Bytes, rest: Bytes)
    requires Sized(b)
    ensures GetBytes(PutBytes(b) + rest) == Ok(b, rest)
  {
    assert PutBytes(b) + rest == PutVarint(|b|) + (b + rest);
    U64Trip(|b|, b + rest);
  }

  function GetStr(bs: Bytes): Parsed<Str> {
    match GetBytes(bs)
    case Bad(e) => Bad(e)
    case Ok(b, rest) => if Utf8(b) then Ok(b, rest) else Bad(BadUtf8)
  }

  function PutOption(o: Option<Str>): Bytes {
    if o.Some? then [1] + PutBytes(o.value) else [0]
  }

  function GetOption(bs: Bytes): Parsed<Option<Str>> {
    if bs == [] then Bad(UnexpectedEnd)
    else if bs[0] == 0 then Ok(None, bs[1..])
    else if bs[0] == 1 then
      (match GetStr(bs[1..])
       case Bad(e) => Bad(e)
       case Ok(s, rest) => Ok(Some(s), rest))
    else Bad(BadOption)
  }

  lemma OptionTrip(o: Option<Str>, rest: Bytes)
    requires o.Some? ==> Sized(o.value)
    ensures GetOption(PutOption(o) + rest) == Ok(o, rest)
  {
    var bs := PutOption(o) + rest;
    if o.Some? {
      assert bs[1..] == PutBytes(o.value) + rest;
      BytesTrip(o.value, rest);
    } else {
      assert bs[1..] == rest;
    }
  }

  // ---------------------------------------------------------------- requests and delta entries

  function PutRequest(r: KVRequest): Bytes {
    match r
    case Set(k, v) => [0] + PutBytes(k) + PutBytes(v)
    case Delete(k) => [1] + PutBytes(k)
  }

  function GetRequest(bs: Bytes): Parsed<KVRequest> {
    match GetU32(bs)
    case Bad(e) => Bad(e)
    case Ok(tag, rest) =>
      if tag > 1 then Bad(BadVariant)
      else
        match GetStr(rest)
        case Bad(e) => Bad(e)
        case Ok(k, rest2) =>
          if tag == 1 then Ok(Delete(k), rest2)
          else
            match GetBytes(rest2)
            case Bad(e) => Bad(e)
            case Ok(v, rest3) => Ok(Set(k, v), rest3)
  }

  predicate SizedRequest(r: KVRequest) { Sized(r.key) && (r.Set? ==> Sized(r.value)) }

  /** Encoding then decoding a request gives it back, whatever follows; and no encoding is shorter
      than two bytes. */
  lemma RequestTrip(r: KVRequest, rest: Bytes)
    requires SizedRequest(r)
    ensures GetRequest(PutRequest(r) + rest) == Ok(r, rest)
    ensures |PutRequest(r)| >= 2
  {
    var tail := match r case Set(k, v) => PutBytes(k) + (PutBytes(v) + rest) case Delete(k) => PutBytes(k) + rest;
    var tag := if r.Set? then 0 else 1;
    assert PutRequest(r) + rest == PutVarint(tag) + tail;
    U32Trip(tag, tail);
    match r {
      case Set(k, v) =>
        BytesTrip(k, PutBytes(v) + rest);
        BytesTrip(v, rest);
      case Delete(k) => BytesTrip(k, rest);
    }
    assert |PutVarint(|r.key|)| >= 1;
  }

  // ---------------------------------------------------------------- malformed input

  /** `p` is the encoding `whole` cut short. */
  predicate Cut(p: Bytes, whole: Bytes) { p <= whole && |p| < |whole| }

  lemma {:induction false} VarintCut(n: nat, k: nat, top: u8, p: Bytes)
    requires k > 0 && top < 128 && n < (top + 1) * Pow128(k - 1) && Cut(p, PutVarint(n))
    ensures GetVarint(p, k, top) == Bad(UnexpectedEnd)
  {
    if p != [] {
      assert n >= 128 && p[0] == PutVarint(n)[0];
      assert (top + 1) * Pow128(0) == top + 1;
      assert k > 1;
      var q := Pow128(k - 2);
      assert (top + 1) * (128 * q) == 128 * ((top + 1) * q) by { Reassociate(top + 1, q); }
      assert PutVarint(n)[1..] == PutVarint(n / 128);
      VarintCut(n / 128, k - 1, top, p[1..]);
    }
  }

  lemma U64Cut(n: u64, p: Bytes)
    requires Cut(p, PutVarint(n))
    ensures GetU64(p) == Bad(UnexpectedEnd)
  {
    U64Bound();
    VarintCut(n, 10, 1, p);
  }

  /** Cut inside the first part, or the first part whole and a cut of the second. */
  lemma CutSplit(p: Bytes, a: Bytes, b: Bytes)
    requires Cut(p, a + b)
    ensures Cut(p, a) || (|a| <= |p| && p == a + p[|a|..] && Cut(p[|a|..], b))
  {
    if |p| >= |a| {
      assert p[..|a|] == (a + b)[..|a|] == a;
      assert p[|a|..] == (a + b)[..|p|][|a|..] == b[..|p| - |a|];
    } else {
      assert p == (a + b)[..|p|] == a[..|p|];
    }
  }

  lemma BytesCut(b: Bytes, p: Bytes)
    requires Sized(b) && Cut(p, PutBytes(b))
    ensures GetBytes(p) == Bad(UnexpectedEnd)
  {
    CutSplit(p, PutVarint(|b|), b);
    if Cut(p, PutVarint(|b|)) {
      U64Cut(|b|, p);
    } else {
      U64Trip(|b|, p[|PutVarint(|b|)|..]);
    }
  }

  /** An encoded request that is cut short anywhere is refused for ending too soon; so no encoding is the
      beginning of another. */
  lemma RequestCut(r: KVRequest, p: Bytes)
    requires SizedRequest(r) && Cut(p, PutRequest(r))
    ensures GetRequest(p) == Bad(UnexpectedEnd)
  {
    if p != [] {
      var tag := if r.Set? then 0 else 1;
      var key, value := PutBytes(r.key), if r.Set? then PutBytes(r.value) else [];
      assert PutRequest(r) == [tag] + (key + value);
      CutSplit(p, [tag], key + value);
      var q := p[1..];
      assert p == PutVarint(tag) + q;
      U32Trip(tag, q);
      CutSplit(q, key, value);
      if Cut(q, key) {
        BytesCut(r.key, q);
      } else {
        BytesTrip(r.key, q[|key|..]);
        if r.Set? {
          BytesCut(r.value, q[|key|..]);
        }
      }
    }
  }

  /** A request of an unknown kind is refused whatever follows. */
  lemma UnknownRequest(tag: u32, rest: Bytes)
    requires tag > 1
    ensures GetRequest(PutVarint(tag) + rest) == Bad(BadVariant)
    ensures Decoded(PutVarint(tag) + rest) == Corrupt
  {
    U32Trip(tag, rest);
  }

  /** A delta entry with its payload as stored. */
  datatype RawEntry = RawEntry(term: u64, index: u64, payload: Bytes)

  function PutEntry(e: RawEntry): Bytes { PutVarint(e.term) + PutVarint(e.index) + PutBytes(e.payload) }

  function GetEntry(bs: Bytes): Parsed<RawEntry> {
    match GetU64(bs)
    case Bad(e) => Bad(e)
    case Ok(term, r1) =>
      match GetU64(r1)
      case Bad(e) => Bad(e)
      case Ok(index, r2) =>
        match GetBytes(r2)
        case Bad(e) => Bad(e)
        case Ok(payload, r3) => Ok(RawEntry(term, index, payload), r3)
  }

  lemma EntryTrip(e: RawEntry, rest: Bytes)
    requires Sized(e.payload)
    ensures GetEntry(PutEntry(e) + rest) == Ok(e, rest)
  {
    var t2 := PutBytes(e.payload) + rest;
    var t1 := PutVarint(e.index) + t2;
    assert PutEntry(e) + rest == PutVarint(e.term) + t1;
    U64Trip(e.term, t1);
    U64Trip(e.index, t2);
    BytesTrip(e.payload, rest);
  }

  function PutEntriesBody(es: seq<RawEntry>): Bytes {
    if es == [] then [] else PutEntry(es[0]) + PutEntriesBody(es[1..])
  }

  function PutEntries(es: seq<RawEntry>): Bytes { PutVarint(|es|) + PutEntriesBody(es) }

  function GetEntriesBody(bs: Bytes, n: nat): (r: Parsed<seq<RawEntry>>)
    ensures r.Ok? ==> |r.value| == n
    decreases n
  {
    if n == 0 then Ok([], bs)
    else
      match GetEntry(bs)
      case Bad(e) => Bad(e)
      case Ok(e, r1) =>
        match GetEntriesBody(r1, n - 1)
        case Bad(err) => Bad(err)
        case Ok(es, r2) => Ok([e] + es, r2)
  }

  function GetEntries(bs: Bytes): (r: Parsed<seq<RawEntry>>)
    ensures r.Ok? ==> Sized(r.value)
  {
    match GetU64(bs)
    case Bad(e) => Bad(e)
    case Ok(n, rest) => GetEntriesBody(rest, n)
  }

  predicate SizedEntries(es: seq<RawEntry>) { Sized(es) && forall e <- es :: Sized(e.payload) }

  lemma Assoc(a: Bytes, b: Bytes, c: Bytes)
    ensures (a + b) + c == a + (b + c)
  {
  }

  lemma BodyStep(es: seq<RawEntry>, tail: Bytes, rest: Bytes)
    requires es != []
    requires GetEntry(PutEntry(es[0]) + tail) == Ok(es[0], tail)
    requires GetEntriesBody(tail, |es| - 1) == Ok(es[1..], rest)
    ensures GetEntriesBody(PutEntry(es[0]) + tail, |es|) == Ok(es, rest)
  {
    assert [es[0]] + es[1..] == es;
  }

  lemma {:induction false} EntriesBodyTrip(es: seq<RawEntry>, rest: Bytes)
    requires forall e <- es :: Sized(e.payload)
    ensures GetEntriesBody(PutEntriesBody(es) + rest, |es|) == Ok(es, rest)
  {
    if es == [] {
      assert PutEntriesBody(es) + rest == rest;
    } else {
      assert es[0] in es;
      var tail := PutEntriesBody(es[1..]) + rest;
      EntryTrip(es[0], tail);
      EntriesBodyTrip(es[1..], rest);
      Assoc(PutEntry(es[0]), PutEntriesBody(es[1..]), rest);
      BodyStep(es, tail, rest);
    }
  }

  lemma EntriesTrip(es: seq<RawEntry>, rest: Bytes)
    requires SizedEntries(es)
    ensures GetEntries(PutEntries(es) + rest) == Ok(es, rest)
  {
    assert PutEntries(es) + rest == PutVarint(|es|) + (PutEntriesBody(es) + rest);
    U64Trip(|es|, PutEntriesBody(es) + rest);
    EntriesBodyTrip(es, rest);
  }

  /** The abstract payload a stored payload stands for. */
  function Decoded(payload: Bytes): Payload {
    match GetRequest(payload)
    case Ok(r, _) => Valid(r)
    case Bad(_) => Corrupt
  }

  /** Decoding a stored request and encoding it again, as a delta install does, keeps the bytes. */
  lemma ReencodeKeepsBytes(r: KVRequest)
    requires SizedRequest(r)
    ensures Decoded(PutRequest(r)) == Valid(r)
    ensures PutRequest(Decoded(PutRequest(r)).req) == PutRequest(r)
  {
    assert PutRequest(r) + [] == PutRequest(r);
    RequestTrip(r, []);
  }
}
