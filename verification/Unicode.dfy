/** What the strings of the model are: the UTF-8 predicate against an encoder of code points. */
module Unicode {
  import opened Types

  /** A Unicode scalar value: any code point but a surrogate. */
  predicate Scalar(c: int) { 0 <= c <= 0x10FFFF && !(0xD800 <= c <= 0xDFFF) }

  /** One scalar value in UTF-8, as section 3 of RFC 3629 has it. */
  function Encode(c: int): Bytes
    requires Scalar(c)
  {
    if c <= 0x7F then [c]
    else if c <= 0x7FF then [0xC0 + c / 64, 0x80 + c % 64]
    else if c <= 0xFFFF then [0xE0 + c / 4096, 0x80 + c / 64 % 64, 0x80 + c % 64]
    else [0xF0 + c / 262144, 0x80 + c / 4096 % 64, 0x80 + c / 64 % 64, 0x80 + c % 64]
  }

  function EncodeAll(cs: seq<int>): Bytes
    requires forall c <- cs :: Scalar(c)
  {
    if cs == [] then []
    else
      assert cs[0] in cs;
      Encode(cs[0]) + EncodeAll(cs[1..])
  }

  /** The byte ranges an encoding keeps to. */
  predicate WellPlaced(e: Bytes) {
    if |e| == 1 then e[0] <= 0x7F
    else if |e| == 2 then 0xC2 <= e[0] <= 0xDF && Continuation(e[1])
    else if |e| == 3 then
      && 0xE0 <= e[0] <= 0xEF && Continuation(e[1]) && Continuation(e[2])
      && (e[0] == 0xE0 ==> e[1] >= 0xA0) && (e[0] == 0xED ==> e[1] <= 0x9F)
    else
      && |e| == 4 && 0xF0 <= e[0] <= 0xF4 && Continuation(e[1]) && Continuation(e[2]) && Continuation(e[3])
      && (e[0] == 0xF0 ==> e[1] >= 0x90) && (e[0] == 0xF4 ==> e[1] <= 0x8F)
  }

  lemma EncodeWellPlaced(c: int)
    requires Scalar(c)
    ensures WellPlaced(Encode(c))
  {
  }

  lemma WellPlacedStep(e: Bytes, rest: Bytes)
    requires WellPlaced(e)
    ensures Utf8(e + rest) <==> Utf8(rest)
  {
    assert (e + rest)[|e|..] == rest;
  }

  lemma {:induction false} EncodedIsUtf8(cs: seq<int>)
    requires forall c <- cs :: Scalar(c)
    ensures Utf8(EncodeAll(cs))
  {
    if cs != [] {
      assert cs[0] in cs;
      EncodedIsUtf8(cs[1..]);
      EncodeWellPlaced(cs[0]);
      WellPlacedStep(Encode(cs[0]), EncodeAll(cs[1..]));
    }
  }

  lemma Divides(hi: nat, lo: nat)
    requires lo < 64
    ensures (hi * 64 + lo) / 64 == hi && (hi * 64 + lo) % 64 == lo
  {
  }

  lemma Three(x: nat, y: nat, z: nat)
    requires y < 64 && z < 64
    ensures var c := (x * 64 + y) * 64 + z; c / 4096 == x && c / 64 % 64 == y && c % 64 == z
  {
    Divides(x * 64 + y, z);
    Divides(x, y);
  }

  lemma Four(w: nat, x: nat, y: nat, z: nat)
    requires x < 64 && y < 64 && z < 64
    ensures var c := ((w * 64 + x) * 64 + y) * 64 + z;
            c / 262144 == w && c / 4096 % 64 == x && c / 64 % 64 == y && c % 64 == z
  {
    Three(w * 64 + x, y, z);
    Divides(w, x);
    var c := ((w * 64 + x) * 64 + y) * 64 + z;
    assert c / 262144 == (c / 4096) / 64;
  }

  lemma TwoBytes(b0: u8, b1: u8) returns (c: int)
    requires 0xC2 <= b0 <= 0xDF && Continuation(b1)
    ensures Scalar(c) && Encode(c) == [b0, b1]
  {
    c := (b0 - 0xC0) * 64 + (b1 - 0x80);
    Divides(b0 - 0xC0, b1 - 0x80);
  }

  lemma ThreeBytes(b0: u8, b1: u8, b2: u8) returns (c: int)
    requires 0xE0 <= b0 <= 0xEF && Continuation(b1) && Continuation(b2)
    requires (b0 == 0xE0 ==> b1 >= 0xA0) && (b0 == 0xED ==> b1 <= 0x9F)
    ensures Scalar(c) && Encode(c) == [b0, b1, b2]
  {
    var x: int, y: int, z: int := b0 - 0xE0, b1 - 0x80, b2 - 0x80;
    c := (x * 64 + y) * 64 + z;
    Three(x, y, z);
  }

  lemma FourBytes(b0: u8, b1: u8, b2: u8, b3: u8) returns (c: int)
    requires 0xF0 <= b0 <= 0xF4 && Continuation(b1) && Continuation(b2) && Continuation(b3)
    requires (b0 == 0xF0 ==> b1 >= 0x90) && (b0 == 0xF4 ==> b1 <= 0x8F)
    ensures Scalar(c) && Encode(c) == [b0, b1, b2, b3]
  {
    var w: int, x: int, y: int, z: int := b0 - 0xF0, b1 - 0x80, b2 - 0x80, b3 - 0x80;
    c := ((w * 64 + x) * 64 + y) * 64 + z;
    Four(w, x, y, z);
  }

  /** A well-formed string starts with the encoding of a scalar value. */
  lemma FirstScalar(s: Bytes) returns (c: int)
    requires Utf8(s) && s != []
    ensures Scalar(c) && Encode(c) <= s && Utf8(s[|Encode(c)|..])
  {
    if s[0] <= 0x7F {
      c := s[0];
    } else if s[0] <= 0xDF {
      c := TwoBytes(s[0], s[1]);
    } else if s[0] <= 0xEF {
      c := ThreeBytes(s[0], s[1], s[2]);
    } else {
      c := FourBytes(s[0], s[1], s[2], s[3]);
    }
  }

  /** `s` is the encoding of these scalar values. */
  predicate Encodes(cs: seq<int>, s: Bytes) {
    (forall c <- cs :: Scalar(c)) && EncodeAll(cs) == s
  }

  lemma EncodesCons(c: int, more: seq<int>, rest: Bytes)
    requires Scalar(c) && Encodes(more, rest)
    ensures Encodes([c] + more, Encode(c) + rest)
  {
    assert ([c] + more)[1..] == more;
  }

  lemma {:induction false} Utf8Encodes(s: Bytes) returns (cs: seq<int>)
    requires Utf8(s)
    ensures Encodes(cs, s)
    decreases |s|
  {
    cs := [];
    if s != [] {
      var c := FirstScalar(s);
      var rest := s[|Encode(c)|..];
      var more := Utf8Encodes(rest);
      cs := [c] + more;
      EncodesCons(c, more, rest);
      assert s == Encode(c) + rest;
    }
  }

  /** A byte string is well-formed exactly when it is the encoding of some sequence of scalar values. */
  lemma Utf8Exact(s: Bytes)
    ensures Utf8(s) <==> exists cs :: Encodes(cs, s)
  {
    if Utf8(s) {
      var cs := Utf8Encodes(s);
      assert Encodes(cs, s);
    }
    if cs :| Encodes(cs, s) {
      EncodedIsUtf8(cs);
    }
  }
}
