/** The snapshot envelope, its legacy form, and the decoder that tries one and then the other. */
module Envelope {
  import opened Types
  import opened Wire

  datatype CheckpointMeta = CheckpointMeta(
    appliedIndex: u64, term: u64, sequenceNumber: u64, timestamp: u64, crc32: u32, dir: Str, compressedSize: u64)

  datatype Format = Full(checkpoint: CheckpointMeta) | Delta(baseIndex: u64, entryCount: u64)

  /** The fields that follow the format, the same in both versions. */
  datatype Trailer = Trailer(sizeBytes: u64, createdAt: u64, filePath: Option<Str>, version: u16)

  datatype Envelope = Envelope(format: Format, trailer: Trailer, payload: Bytes)

  datatype LegacyFormat = LegacyFull(checkpoint: CheckpointMeta) | LegacyDelta(baseIndex: u64, entries: seq<RawEntry>)

  datatype LegacyEnvelope = LegacyEnvelope(format: LegacyFormat, trailer: Trailer, payload: Bytes)

  // ---------------------------------------------------------------- encoding

  function PutCheckpoint(c: CheckpointMeta): Bytes {
    PutVarint(c.appliedIndex) + (PutVarint(c.term) + (PutVarint(c.sequenceNumber) + (PutVarint(c.timestamp) +
    (PutVarint(c.crc32) + (PutBytes(c.dir) + PutVarint(c.compressedSize))))))
  }

  function PutTrailer(t: Trailer, payload: Bytes): Bytes {
    PutVarint(t.sizeBytes) + (PutVarint(t.createdAt) + (PutOption(t.filePath) + (PutVarint(t.version) + PutBytes(payload))))
  }

  function PutFormat(f: Format): Bytes {
    match f
    case Full(c) => [0] + PutCheckpoint(c)
    case Delta(base, count) => [1] + (PutVarint(base) + PutVarint(count))
  }

  function PutLegacyFormat(f: LegacyFormat): Bytes {
    match f
    case LegacyFull(c) => [0] + PutCheckpoint(c)
    case LegacyDelta(base, es) => [1] + (PutVarint(base) + PutEntries(es))
  }

  function Put(e: Envelope): Bytes { PutFormat(e.format) + PutTrailer(e.trailer, e.payload) }

  function PutLegacy(e: LegacyEnvelope): Bytes { PutLegacyFormat(e.format) + PutTrailer(e.trailer, e.payload) }

  // ---------------------------------------------------------------- decoding

  function GetCheckpoint(bs: Bytes): Parsed<CheckpointMeta> {
    match GetU64(bs)
    case Bad(e) => Bad(e)
    case Ok(index, r1) =>
      match GetU64(r1)
      case Bad(e) => Bad(e)
      case Ok(term, r2) =>
        match GetU64(r2)
        case Bad(e) => Bad(e)
        case Ok(seqno, r3) =>
          match GetU64(r3)
          case Bad(e) => Bad(e)
          case Ok(ts, r4) =>
            match GetU32(r4)
            case Bad(e) => Bad(e)
            case Ok(crc, r5) =>
              match GetStr(r5)
              case Bad(e) => Bad(e)
              case Ok(dir, r6) =>
                match GetU64(r6)
                case Bad(e) => Bad(e)
                case Ok(size, r7) => Ok(CheckpointMeta(index, term, seqno, ts, crc, dir, size), r7)
  }

  /** The trailer and the payload after it. */
  function GetTrailer(bs: Bytes): Parsed<(Trailer, Bytes)> {
    match GetU64(bs)
    case Bad(e) => Bad(e)
    case Ok(size, r1) =>
      match GetU64(r1)
      case Bad(e) => Bad(e)
      case Ok(created, r2) =>
        match GetOption(r2)
        case Bad(e) => Bad(e)
        case Ok(path, r3) =>
          match GetU16(r3)
          case Bad(e) => Bad(e)
          case Ok(version, r4) =>
            match GetBytes(r4)
            case Bad(e) => Bad(e)
            case Ok(payload, r5) => Ok((Trailer(size, created, path, version), payload), r5)
  }

  function GetDeltaFormat(bs: Bytes): Parsed<Format> {
    match GetU64(bs)
    case Bad(e) => Bad(e)
    case Ok(base, r1) =>
      match GetU64(r1)
      case Bad(e) => Bad(e)
      case Ok(count, r2) => Ok(Delta(base, count), r2)
  }

  function GetFormat(bs: Bytes): Parsed<Format> {
    match GetU32(bs)
    case Bad(e) => Bad(e)
    case Ok(tag, r) =>
      if tag == 0 then
        (match GetCheckpoint(r) case Bad(e) => Bad(e) case Ok(c, r2) => Ok(Full(c), r2))
      else if tag == 1 then GetDeltaFormat(r)
      else Bad(BadVariant)
  }

  function GetLegacyDelta(bs: Bytes): (r: Parsed<LegacyFormat>)
    ensures r.Ok? ==> r.value.LegacyDelta? && Sized(r.value.entries)
  {
    match GetU64(bs)
    case Bad(e) => Bad(e)
    case Ok(base, r1) =>
      match GetEntries(r1)
      case Bad(e) => Bad(e)
      case Ok(es, r2) => Ok(LegacyDelta(base, es), r2)
  }

  function GetLegacyFormat(bs: Bytes): (r: Parsed<LegacyFormat>)
    ensures r.Ok? && r.value.LegacyDelta? ==> Sized(r.value.entries)
  {
    match GetU32(bs)
    case Bad(e) => Bad(e)
    case Ok(tag, r1) =>
      if tag == 0 then
        (match GetCheckpoint(r1) case Bad(e) => Bad(e) case Ok(c, r2) => Ok(LegacyFull(c), r2))
      else if tag == 1 then GetLegacyDelta(r1)
      else Bad(BadVariant)
  }

  function Get(bs: Bytes): Parsed<Envelope> {
    match GetFormat(bs)
    case Bad(e) => Bad(e)
    case Ok(f, r1) =>
      match GetTrailer(r1)
      case Bad(e) => Bad(e)
      case Ok((t, payload), r2) => Ok(Envelope(f, t, payload), r2)
  }

  function GetLegacy(bs: Bytes): (r: Parsed<LegacyEnvelope>)
    ensures r.Ok? && r.value.format.LegacyDelta? ==> Sized(r.value.format.entries)
  {
    match GetLegacyFormat(bs)
    case Bad(e) => Bad(e)
    case Ok(f, r1) =>
      match GetTrailer(r1)
      case Bad(e) => Bad(e)
      case Ok((t, payload), r2) => Ok(LegacyEnvelope(f, t, payload), r2)
  }

  /** The compressor, taken as given. */
  datatype Zstd = Zstd(compress: Bytes -> Bytes, decompress: Bytes -> Option<Bytes>)

  ghost predicate Lossless(z: Zstd) { forall b :: z.decompress(z.compress(b)) == Some(b) }

  function EncodeEntries(z: Zstd, es: seq<RawEntry>): Bytes { z.compress(PutEntries(es)) }

  function DecodeEntries(z: Zstd, bs: Bytes): Option<seq<RawEntry>> {
    match z.decompress(bs)
    case None => None
    case Some(raw) => match GetEntries(raw) case Ok(es, _) => Some(es) case Bad(_) => None
  }

  datatype Decoded =
    | DecodedFull(format: Format, trailer: Trailer)
    | DecodedDelta(format: Format, trailer: Trailer, entries: seq<RawEntry>)
    | Unrecognised
    | Corrupted

  /** `decode_snapshot_payload`. Bytes after the envelope are ignored. */
  function Decode(z: Zstd, bs: Bytes): Decoded {
    match Get(bs)
    case Ok(e, _) =>
      (if e.format.Full? then DecodedFull(e.format, e.trailer)
       else
         match DecodeEntries(z, e.payload)
         case None => Corrupted
         case Some(es) => DecodedDelta(e.format, e.trailer, es))
    case Bad(_) =>
      match GetLegacy(bs)
      case Bad(_) => Unrecognised
      case Ok(LegacyEnvelope(LegacyFull(c), t, _), _) => DecodedFull(Full(c), t.(version := 2))
      case Ok(LegacyEnvelope(LegacyDelta(base, es), t, _), _) =>
        DecodedDelta(Delta(base, |es|), t.(version := 2), es)
  }

  // ---------------------------------------------------------------- round trips

  predicate SizedTrailer(t: Trailer, payload: Bytes) {
    Sized(payload) && (t.filePath.Some? ==> Sized(t.filePath.value))
  }

  predicate SizedEnvelope(e: Envelope) {
    SizedTrailer(e.trailer, e.payload) && (e.format.Full? ==> Sized(e.format.checkpoint.dir))
  }

  predicate SizedLegacy(e: LegacyEnvelope) {
    && SizedTrailer(e.trailer, e.payload)
    && (e.format.LegacyFull? ==> Sized(e.format.checkpoint.dir))
    && (e.format.LegacyDelta? ==> SizedEntries(e.format.entries))
  }

  lemma CheckpointTrip(c: CheckpointMeta, rest: Bytes)
    requires Sized(c.dir)
    ensures GetCheckpoint(PutCheckpoint(c) + rest) == Ok(c, rest)
  {
    var t6 := PutVarint(c.compressedSize) + rest;
    var t5 := PutBytes(c.dir) + t6;
    var t4 := PutVarint(c.crc32) + t5;
    var t3 := PutVarint(c.timestamp) + t4;
    var t2 := PutVarint(c.sequenceNumber) + t3;
    var t1 := PutVarint(c.term) + t2;
    assert PutCheckpoint(c) + rest == PutVarint(c.appliedIndex) + t1;
    U64Trip(c.appliedIndex, t1);
    U64Trip(c.term, t2);
    U64Trip(c.sequenceNumber, t3);
    U64Trip(c.timestamp, t4);
    U32Trip(c.crc32, t5);
    BytesTrip(c.dir, t6);
    U64Trip(c.compressedSize, rest);
  }

  lemma TrailerTrip(t: Trailer, payload: Bytes, rest: Bytes)
    requires SizedTrailer(t, payload)
    ensures GetTrailer(PutTrailer(t, payload) + rest) == Ok((t, payload), rest)
  {
    var t4 := PutBytes(payload) + rest;
    var t3 := PutVarint(t.version) + t4;
    var t2 := PutOption(t.filePath) + t3;
    var t1 := PutVarint(t.createdAt) + t2;
    assert PutTrailer(t, payload) + rest == PutVarint(t.sizeBytes) + t1;
    U64Trip(t.sizeBytes, t1);
    U64Trip(t.createdAt, t2);
    OptionTrip(t.filePath, t3);
    U16Trip(t.version, t4);
    BytesTrip(payload, rest);
  }

  lemma DeltaFormatTrip(base: u64, count: u64, rest: Bytes)
    ensures GetDeltaFormat(PutVarint(base) + (PutVarint(count) + rest)) == Ok(Delta(base, count), rest)
  {
    U64Trip(base, PutVarint(count) + rest);
    U64Trip(count, rest);
  }

  lemma FormatTrip(f: Format, rest: Bytes)
    requires f.Full? ==> Sized(f.checkpoint.dir)
    ensures GetFormat(PutFormat(f) + rest) == Ok(f, rest)
  {
    match f {
      case Full(c) =>
        assert PutFormat(f) + rest == PutVarint(0) + (PutCheckpoint(c) + rest);
        U32Trip(0, PutCheckpoint(c) + rest);
        CheckpointTrip(c, rest);
      case Delta(base, count) =>
        var tail := PutVarint(base) + (PutVarint(count) + rest);
        assert PutFormat(f) + rest == PutVarint(1) + tail;
        U32Trip(1, tail);
        DeltaFormatTrip(base, count, rest);
    }
  }

  lemma LegacyFormatTrip(f: LegacyFormat, rest: Bytes)
    requires f.LegacyFull? ==> Sized(f.checkpoint.dir)
    requires f.LegacyDelta? ==> SizedEntries(f.entries)
    ensures GetLegacyFormat(PutLegacyFormat(f) + rest) == Ok(f, rest)
  {
    match f {
      case LegacyFull(c) =>
        assert PutLegacyFormat(f) + rest == PutVarint(0) + (PutCheckpoint(c) + rest);
        U32Trip(0, PutCheckpoint(c) + rest);
        CheckpointTrip(c, rest);
      case LegacyDelta(base, es) =>
        var tail := PutVarint(base) + (PutEntries(es) + rest);
        assert PutLegacyFormat(f) + rest == PutVarint(1) + tail;
        U32Trip(1, tail);
        U64Trip(base, PutEntries(es) + rest);
        EntriesTrip(es, rest);
    }
  }

  lemma EnvelopeTrip(e: Envelope, junk: Bytes)
    requires SizedEnvelope(e)
    ensures Get(Put(e) + junk) == Ok(e, junk)
  {
    assert Put(e) + junk == PutFormat(e.format) + (PutTrailer(e.trailer, e.payload) + junk);
    FormatTrip(e.format, PutTrailer(e.trailer, e.payload) + junk);
    TrailerTrip(e.trailer, e.payload, junk);
  }

  lemma LegacyTrip(e: LegacyEnvelope, junk: Bytes)
    requires SizedLegacy(e)
    ensures GetLegacy(PutLegacy(e) + junk) == Ok(e, junk)
  {
    assert PutLegacy(e) + junk == PutLegacyFormat(e.format) + (PutTrailer(e.trailer, e.payload) + junk);
    LegacyFormatTrip(e.format, PutTrailer(e.trailer, e.payload) + junk);
    TrailerTrip(e.trailer, e.payload, junk);
  }

  /** Decoding inverts the current encoding: a delta envelope gives back its entries, a full one its
      metadata, and a delta whose payload does not decode is reported, never taken for a legacy one. */
  lemma DecodeInvertsEncode(z: Zstd, e: Envelope, junk: Bytes)
    requires SizedEnvelope(e)
    ensures e.format.Full? ==> Decode(z, Put(e) + junk) == DecodedFull(e.format, e.trailer)
    ensures e.format.Delta? ==>
              Decode(z, Put(e) + junk) ==
              (if DecodeEntries(z, e.payload).None? then Corrupted
               else DecodedDelta(e.format, e.trailer, DecodeEntries(z, e.payload).value))
    ensures forall es | Lossless(z) && SizedEntries(es) && e.payload == EncodeEntries(z, es) ::
              DecodeEntries(z, e.payload) == Some(es)
  {
    EnvelopeTrip(e, junk);
    forall es | Lossless(z) && SizedEntries(es) && e.payload == EncodeEntries(z, es)
      ensures DecodeEntries(z, e.payload) == Some(es)
    {
      assert z.decompress(z.compress(PutEntries(es))) == Some(PutEntries(es));
      assert PutEntries(es) + [] == PutEntries(es);
      EntriesTrip(es, []);
    }
  }

  // ---------------------------------------------------------------- the fallback

  /** What follows the index of the first entry in a legacy delta. */
  function AfterFirstIndex(es: seq<RawEntry>, tail: Bytes): Bytes
    requires es != []
  {
    PutBytes(es[0].payload) + (PutEntriesBody(es[1..]) + tail)
  }

  /** Read as a current envelope, a legacy delta with entries yields the entry count as the count,
      the first entry's term and index as the two times, and then its payload length as an option tag. */
  lemma LegacyReadAsCurrent(base: u64, es: seq<RawEntry>, tail: Bytes)
    requires es != [] && Sized(es)
    ensures var bs := PutLegacyFormat(LegacyDelta(base, es)) + tail;
            var x := PutVarint(es[0].term) + (PutVarint(es[0].index) + AfterFirstIndex(es, tail));
            && GetFormat(bs) == Ok(Delta(base, |es|), x)
            && GetU64(x) == Ok(es[0].term, PutVarint(es[0].index) + AfterFirstIndex(es, tail))
            && GetU64(PutVarint(es[0].index) + AfterFirstIndex(es, tail)) == Ok(es[0].index, AfterFirstIndex(es, tail))
  {
    var bs := PutLegacyFormat(LegacyDelta(base, es)) + tail;
    var x := PutVarint(es[0].term) + (PutVarint(es[0].index) + AfterFirstIndex(es, tail));
    assert PutEntriesBody(es) + tail == x by {
      assert PutEntriesBody(es) == PutEntry(es[0]) + PutEntriesBody(es[1..]);
    }
    var body := PutVarint(base) + (PutVarint(|es|) + x);
    assert bs == PutVarint(1) + body by {
      assert bs == [1] + (PutVarint(base) + (PutVarint(|es|) + (PutEntriesBody(es) + tail)));
    }
    U32Trip(1, body);
    DeltaFormatTrip(base, |es|, x);
    U64Trip(es[0].term, PutVarint(es[0].index) + AfterFirstIndex(es, tail));
    U64Trip(es[0].index, AfterFirstIndex(es, tail));
  }

  lemma FirstByte(n: nat)
    ensures |PutVarint(n)| > 0
    ensures PutVarint(n)[0] <= 1 <==> n <= 1
  {
  }

  lemma TrailerWithBadTag(size: u64, created: u64, r: Bytes, x: Bytes, y: Bytes)
    requires GetU64(x) == Ok(size, y) && GetU64(y) == Ok(created, r) && r != []
    ensures r[0] > 1 <==> GetTrailer(x) == Bad(BadOption)
  {
  }

  /** The current parser stops at the option tag of a legacy delta exactly when it has an entry and
      the first one's payload is at least two bytes long. */
  lemma StopsAtOptionTag(e: LegacyEnvelope, junk: Bytes)
    requires SizedLegacy(e) && e.format.LegacyDelta?
    ensures Get(PutLegacy(e) + junk) == Bad(BadOption) <==>
            e.format.entries != [] && |e.format.entries[0].payload| >= 2
  {
    var es, base := e.format.entries, e.format.baseIndex;
    var tail := PutTrailer(e.trailer, e.payload) + junk;
    assert PutLegacy(e) + junk == PutLegacyFormat(e.format) + tail;
    if es == [] {
      EmptyLegacyCoincides(e);
      EnvelopeTrip(Envelope(Delta(base, 0), e.trailer, e.payload), junk);
    } else {
      LegacyReadAsCurrent(base, es, tail);
      FirstByte(|es[0].payload|);
      var r := AfterFirstIndex(es, tail);
      assert r[0] == PutVarint(|es[0].payload|)[0];
      TrailerWithBadTag(es[0].term, es[0].index, r,
        PutVarint(es[0].term) + (PutVarint(es[0].index) + r), PutVarint(es[0].index) + r);
    }
  }

  /** A legacy delta without entries has the bytes of a current delta that counts none. */
  lemma EmptyLegacyCoincides(e: LegacyEnvelope)
    requires e.format.LegacyDelta? && e.format.entries == []
    ensures PutLegacy(e) == Put(Envelope(Delta(e.format.baseIndex, 0), e.trailer, e.payload))
  {
    assert PutEntries([]) == PutVarint(0);
  }

  /** A legacy delta that the current parser does not accept, for whatever reason, gives back the same
      entries, counted, at version 2. */
  lemma LegacyFallsThrough(z: Zstd, e: LegacyEnvelope, junk: Bytes)
    requires SizedLegacy(e) && e.format.LegacyDelta? && Get(PutLegacy(e) + junk).Bad?
    ensures Decode(z, PutLegacy(e) + junk) ==
            DecodedDelta(Delta(e.format.baseIndex, |e.format.entries|), e.trailer.(version := 2), e.format.entries)
  {
    LegacyTrip(e, junk);
  }

  /** In particular every legacy delta whose first payload has two bytes or more, as every encoded request
      has. */
  lemma LegacyDeltaRecovered(z: Zstd, e: LegacyEnvelope, junk: Bytes)
    requires SizedLegacy(e) && e.format.LegacyDelta? && e.format.entries != []
    requires |e.format.entries[0].payload| >= 2
    ensures Decode(z, PutLegacy(e) + junk) ==
            DecodedDelta(Delta(e.format.baseIndex, |e.format.entries|), e.trailer.(version := 2), e.format.entries)
  {
    StopsAtOptionTag(e, junk);
    LegacyFallsThrough(z, e, junk);
  }

  /** A legacy delta without entries is decoded as a current one: it keeps its own version number and
      its entries are whatever the payload holds. */
  lemma EmptyLegacyTakenAsCurrent(z: Zstd, e: LegacyEnvelope, junk: Bytes)
    requires SizedLegacy(e) && e.format.LegacyDelta? && e.format.entries == []
    ensures Decode(z, PutLegacy(e) + junk) ==
            if DecodeEntries(z, e.payload).None? then Corrupted
            else DecodedDelta(Delta(e.format.baseIndex, 0), e.trailer, DecodeEntries(z, e.payload).value)
  {
    EmptyLegacyCoincides(e);
    EnvelopeTrip(Envelope(Delta(e.format.baseIndex, 0), e.trailer, e.payload), junk);
  }

  /** Outside the condition the two versions can be confused: with an empty first payload the current
      parser accepts this legacy delta and reads the wrong creation time and payload. */
  lemma EmptyPayloadMisread()
    ensures var e := LegacyEnvelope(LegacyDelta(7, [RawEntry(3, 8, [])]), Trailer(0, 0, None, 1), []);
            && SizedLegacy(e)
            && Get(PutLegacy(e)).Ok?
            && Get(PutLegacy(e)).value == Envelope(Delta(7, 1), Trailer(3, 8, None, 0), [])
  {
    var e := LegacyEnvelope(LegacyDelta(7, [RawEntry(3, 8, [])]), Trailer(0, 0, None, 1), []);
    var misread := Envelope(Delta(7, 1), Trailer(3, 8, None, 0), []);
    MisreadBytes(e.trailer, misread.trailer);
    assert PutLegacy(e) == Put(misread) + [0, 1, 0];
    EnvelopeTrip(misread, [0, 1, 0]);
  }

  lemma MisreadBytes(t: Trailer, m: Trailer)
    requires t == Trailer(0, 0, None, 1) && m == Trailer(3, 8, None, 0)
    ensures PutLegacyFormat(LegacyDelta(7, [RawEntry(3, 8, [])])) == [1, 7, 1, 3, 8, 0]
    ensures PutTrailer(t, []) == [0, 0, 0, 1, 0]
    ensures PutFormat(Delta(7, 1)) == [1, 7, 1]
    ensures PutTrailer(m, []) == [3, 8, 0, 0, 0]
  {
    var entry := RawEntry(3, 8, []);
    assert PutBytes([]) == [0];
    assert PutEntry(entry) == [3, 8, 0];
    assert [entry][1..] == [];
    assert PutEntriesBody([entry]) == [3, 8, 0];
    assert PutEntries([entry]) == [1, 3, 8, 0];
  }

  /** On every byte string: if the legacy parser reads a full snapshot, so does the current one, with
      the same fields. The legacy Full branch is never taken. */
  lemma LegacyFullNeverReached(bs: Bytes)
    requires GetLegacy(bs).Ok? && GetLegacy(bs).value.format.LegacyFull?
    ensures var l := GetLegacy(bs);
            Get(bs) == Ok(Envelope(Full(l.value.format.checkpoint), l.value.trailer, l.value.payload), l.rest)
  {
    var tag := GetU32(bs);
    assert GetLegacyFormat(bs).Ok? && GetLegacyFormat(bs).value.LegacyFull?;
    assert tag.value == 0;
  }

  /** An envelope of an unknown format is not recognised in either version, whatever follows. */
  lemma UnknownFormat(z: Zstd, tag: u32, rest: Bytes)
    requires tag > 1
    ensures Decode(z, PutVarint(tag) + rest) == Unrecognised
  {
    U32Trip(tag, rest);
  }
}
