/** The checkpoint sequence number: written twice, read from the first source that has it. */
module Sequence {
  import opened Types
  import Records

  /** Big-endian bytes of a number, `k` of them. */
  function BigEndian(n: nat, k: nat): (r: Bytes)
    ensures |r| == k
  {
    if k == 0 then [] else BigEndian(n / 256, k - 1) + [n % 256]
  }

  function FromBigEndian(bs: Bytes): nat {
    if bs == [] then 0 else FromBigEndian(bs[..|bs| - 1]) * 256 + bs[|bs| - 1]
  }

  function Pow256(k: nat): nat { if k == 0 then 1 else 256 * Pow256(k - 1) }

  lemma {:induction false} BigEndianTrip(n: nat, k: nat)
    requires n < Pow256(k)
    ensures FromBigEndian(BigEndian(n, k)) == n
  {
    if k > 0 {
      BigEndianTrip(n / 256, k - 1);
      assert BigEndian(n, k)[..k - 1] == BigEndian(n / 256, k - 1);
    }
  }

  lemma {:induction false} FromBigEndianBound(bs: Bytes)
    ensures FromBigEndian(bs) < Pow256(|bs|)
  {
    if bs != [] {
      FromBigEndianBound(bs[..|bs| - 1]);
    }
  }

  lemma Pow256At8()
    ensures Pow256(8) == U64_MAX + 1
  {
    assert Pow256(1) == 0x100;
    assert Pow256(2) == 0x1_0000;
    assert Pow256(3) == 0x100_0000;
    assert Pow256(4) == 0x1_0000_0000;
    assert Pow256(5) == 0x100_0000_0000;
    assert Pow256(6) == 0x1_0000_0000_0000;
    assert Pow256(7) == 0x100_0000_0000_0000;
  }

  // ---------------------------------------------------------------- decimal text

  predicate Digit(b: u8) { 0x30 <= b <= 0x39 }

  predicate AllDigits(bs: Bytes) { forall i | 0 <= i < |bs| :: Digit(bs[i]) }

  function FromDigits(bs: Bytes): nat
    requires AllDigits(bs)
  {
    if bs == [] then 0
    else
      var last: int := bs[|bs| - 1];
      FromDigits(bs[..|bs| - 1]) * 10 + (last - 0x30)
  }

  /** The digits of a decimal number: an optional plus sign is skipped. */
  function Digits(bs: Bytes): Bytes { if bs != [] && bs[0] == 0x2B then bs[1..] else bs }

  /** A decimal text for a 64-bit number, as the standard parser accepts it. */
  predicate DecimalText(bs: Bytes) {
    && Digits(bs) != []
    && AllDigits(Digits(bs))
    && FromDigits(Digits(bs)) <= U64_MAX
  }

  // ---------------------------------------------------------------- the two copies

  datatype SeqError = KeyMissing | KeyUnsupported | Unavailable

  /** The durable copies: the key in the tree and the manifest file. */
  datatype Copies = Copies(key: Option<Bytes>, manifest: Option<Bytes>)

  function ReadKey(key: Option<Bytes>): Result<u64, SeqError> {
    match key
    case None => Failure(KeyMissing)
    case Some(raw) =>
      if |raw| == 8 then
        FromBigEndianBound(raw); Pow256At8();
        Success(FromBigEndian(raw))
      else if DecimalText(raw) then Success(FromDigits(Digits(raw)))
      else Failure(KeyUnsupported)
  }

  function ParseManifest(manifest: Option<Bytes>): Option<u64> {
    match manifest
    case None => None
    case Some(data) =>
      if |data| < 20 then None
      else
        FromBigEndianBound(data[12..20]); Pow256At8();
        Some(FromBigEndian(data[12..20]))
  }

  function Resolve(native: Option<u64>, c: Copies): Result<u64, SeqError> {
    if native.Some? then Success(native.value)
    else if ReadKey(c.key).Success? then ReadKey(c.key)
    else if ParseManifest(c.manifest).Some? then Success(ParseManifest(c.manifest).value)
    else Failure(Unavailable)
  }

  /** The number resolved, in every case: the native one; else what the key says, as eight big-endian bytes or as
      text; else the eight bytes at offset 12 of a manifest of twenty bytes or more. */
  lemma ResolveExact(native: Option<u64>, c: Copies, n: u64)
    ensures Resolve(native, c) == Success(n) <==>
            if native.Some? then native.value == n
            else if KeySays(c.key) then
              (if |c.key.value| == 8 then FromBigEndian(c.key.value) else FromDigits(Digits(c.key.value))) == n
            else c.manifest.Some? && |c.manifest.value| >= 20 && FromBigEndian(c.manifest.value[12..20]) == n
    ensures Resolve(native, c).Failure? <==>
            native.None? && !KeySays(c.key) && (c.manifest.None? || |c.manifest.value| < 20)
  {
  }

  /** The key is there in a format that can be read. */
  predicate KeySays(key: Option<Bytes>) {
    key.Some? && (|key.value| == 8 || DecimalText(key.value))
  }

  /** Version, timestamp, sequence number. */
  method WriteDual(seqno: u64, timestamp: u64) returns (c: Copies)
    // the key alone, or the manifest alone when the key is gone or unreadable, gives the number back
    ensures forall m :: Resolve(None, Copies(c.key, m)) == Success(seqno)
    ensures forall k | ReadKey(k).Failure? :: Resolve(None, Copies(k, c.manifest)) == Success(seqno)
    ensures c.manifest.Some? && |c.manifest.value| == 20
    ensures c.manifest.value[..4] == [0, 0, 0, 1] && FromBigEndian(c.manifest.value[4..12]) == timestamp
  {
    Pow256At8();
    BigEndianTrip(seqno, 8);
    BigEndianTrip(timestamp, 8);
    var key := BigEndian(seqno, 8);
    var manifest := [];
    manifest := manifest + [0, 0, 0, 1];
    manifest := manifest + BigEndian(timestamp, 8);
    manifest := manifest + key;
    assert manifest[4..12] == BigEndian(timestamp, 8);
    assert manifest[12..20] == key;
    c := Copies(Some(key), Some(manifest));
  }

  // ---------------------------------------------------------------- text keys of eight bytes

  lemma {:induction false} DigitsSmall(bs: Bytes)
    requires AllDigits(bs)
    ensures FromDigits(bs) < Pow10(|bs|)
  {
    if bs != [] {
      DigitsSmall(bs[..|bs| - 1]);
    }
  }

  function Pow10(k: nat): nat { if k == 0 then 1 else 10 * Pow10(k - 1) }

  lemma Pow10Steps()
    ensures Pow10(8) == 100_000_000 && Pow10(7) == 10_000_000
  {
    assert Pow10(2) == 100 && Pow10(4) == 10_000 && Pow10(6) == 1_000_000;
  }

  lemma {:induction false} LeadingByte(bs: Bytes)
    requires bs != []
    ensures FromBigEndian(bs) >= bs[0] * Pow256(|bs| - 1)
  {
    if |bs| > 1 {
      var front := bs[..|bs| - 1];
      LeadingByte(front);
      Scale(bs[0], Pow256(|bs| - 2));
    } else {
      assert bs[..0] == [];
    }
  }

  lemma Scale(b: nat, p: nat)
    ensures b * (256 * p) == (b * p) * 256
  {
  }

  /** A decimal text stored under the key is read as its number exactly when it is not eight bytes
      long: an eight-byte text is taken for big-endian bytes, and no such text has the same value. */
  lemma TextKeyExact(raw: Bytes)
    requires DecimalText(raw)
    ensures ReadKey(Some(raw)) == Success(FromDigits(Digits(raw))) <==> |raw| != 8
  {
    if |raw| == 8 {
      var ds := Digits(raw);
      assert raw[0] >= 0x2B by {
        if raw[0] != 0x2B { assert Digit(ds[0]); }
      }
      LeadingByte(raw);
      assert Pow256(7) == 0x100_0000_0000_0000 by { Pow256At8(); assert Pow256(8) == 256 * Pow256(7); }
      assert raw[0] * Pow256(7) >= 0x2B * 0x100_0000_0000_0000;
      DigitsSmall(ds);
      Pow10Steps();
    }
  }

  /** A number as the bytes of its decimal text. */
  function Text(n: nat): (r: Bytes)
    ensures |r| == |Records.Decimal(n)|
  {
    var s := Records.Decimal(n);
    seq(|s|, i requires 0 <= i < |s| => if '0' <= s[i] <= '9' then s[i] as int else 0)
  }

  lemma {:induction false} TextStep(n: nat)
    requires n >= 10
    ensures Text(n) == Text(n / 10) + Text(n % 10)
  {
  }

  lemma OneDigit(n: nat)
    requires n < 10
    ensures Text(n) == [0x30 + n]
  {
  }

  /** The decimal text of a number has its value, most significant digit first. */
  lemma {:induction false} TextTrip(n: nat)
    ensures Text(n) != [] && AllDigits(Text(n)) && FromDigits(Text(n)) == n
  {
    if n < 10 {
      OneDigit(n);
      assert [0x30 + n][..0] == [];
    } else {
      TextTrip(n / 10);
      TextStep(n);
      OneDigit(n % 10);
      assert Text(n)[..|Text(n)| - 1] == Text(n / 10);
    }
  }

  /** So every 64-bit number written as text, with or without a plus sign, is read back exactly when the text is
      not eight bytes long. */
  lemma TextKeyTrip(n: u64, sign: bool)
    ensures var raw := (if sign then [0x2B] else []) + Text(n);
            ReadKey(Some(raw)) == Success(n) <==> |raw| != 8
  {
    var raw := (if sign then [0x2B] else []) + Text(n);
    TextTrip(n);
    assert Digit(Text(n)[0]);
    assert Digits(raw) == Text(n);
    TextKeyExact(raw);
  }
}
