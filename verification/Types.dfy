/** Machine integers, byte strings and the request and log types shared by every component. */
module Types {

  const U64_MAX: int := 0xFFFF_FFFF_FFFF_FFFF

  type u64 = x: int | 0 <= x <= 0xFFFF_FFFF_FFFF_FFFF
  type u8 = x: int | 0 <= x < 256
  type Bytes = seq<u8>

  datatype Option<+T> = None | Some(value: T)
  datatype Result<+T, +E> = Success(value: T) | Failure(error: E)

  function SatAdd(a: u64, b: u64): (r: u64)
    ensures r == a + b || (r == U64_MAX && a + b > U64_MAX)
  {
    if a + b > U64_MAX then U64_MAX else a + b
  }

  function SatSub(a: u64, b: u64): (r: u64)
    ensures r == a - b || (r == 0 && a < b)
  {
    if a < b then 0 else a - b
  }

  function SatInc(a: u8): (r: u8)
    ensures r == a + 1 || a == r == 255
  {
    if a == 255 then 255 else a + 1
  }

  function Min(a: int, b: int): int { if a <= b then a else b }

  predicate Continuation(b: u8) { 0x80 <= b <= 0xBF }

  /** Well-formed UTF-8, as section 4 of RFC 3629 lays it out. */
  predicate Utf8(s: Bytes)
    decreases |s|
  {
    if s == [] then true
    else if s[0] <= 0x7F then Utf8(s[1..])
    else if 0xC2 <= s[0] <= 0xDF then
      |s| >= 2 && Continuation(s[1]) && Utf8(s[2..])
    else if 0xE0 <= s[0] <= 0xEF then
      && |s| >= 3 && Continuation(s[1]) && Continuation(s[2])
      && (s[0] == 0xE0 ==> s[1] >= 0xA0)
      && (s[0] == 0xED ==> s[1] <= 0x9F)
      && Utf8(s[3..])
    else if 0xF0 <= s[0] <= 0xF4 then
      && |s| >= 4 && Continuation(s[1]) && Continuation(s[2]) && Continuation(s[3])
      && (s[0] == 0xF0 ==> s[1] >= 0x90)
      && (s[0] == 0xF4 ==> s[1] <= 0x8F)
      && Utf8(s[4..])
    else false
  }

  /** A string is its UTF-8 encoding. */
  type Str = s: Bytes | Utf8(s)

  datatype KVRequest = Set(key: Str, value: Bytes) | Delete(key: Str)

  /** What a stored payload decodes to; the byte layout itself is in module Wire. */
  datatype Payload = Valid(req: KVRequest) | Corrupt

  /** A log entry kept for delta generation; the same record is a delta entry. */
  datatype DeltaEntry = DeltaEntry(term: u64, index: u64, payload: Payload)

  type Path = string
}
