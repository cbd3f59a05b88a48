/** 16-, 32- and 64-bit integers as bytes in either byte order, two's complement included. */
module ByteOrder {
  import opened MachineInts

  type byte = x: int | 0 <= x < 256

  function GetU16(bs: seq<byte>, little: bool): U16
    requires |bs| == 2
  {
    var lo: int, hi: int := bs[if little then 0 else 1], bs[if little then 1 else 0];
    hi * 0x100 + lo
  }

  function PutU16(v: U16, little: bool): (bs: seq<byte>)
    ensures |bs| == 2 && GetU16(bs, little) == v
  {
    if little then [v % 0x100, v / 0x100] else [v / 0x100, v % 0x100]
  }

  function GetU32(bs: seq<byte>, little: bool): U32
    requires |bs| == 4
  {
    var first: int, second: int := GetU16(bs[..2], little), GetU16(bs[2..], little);
    if little then second * 0x1_0000 + first else first * 0x1_0000 + second
  }

  function PutU32(v: U32, little: bool): (bs: seq<byte>)
    ensures |bs| == 4 && GetU32(bs, little) == v
  {
    var lo, hi := PutU16(v % 0x1_0000, little), PutU16(v / 0x1_0000, little);
    if little then lo + hi else hi + lo
  }

  function GetU64(bs: seq<byte>, little: bool): U64
    requires |bs| == 8
  {
    var first: int, second: int := GetU32(bs[..4], little), GetU32(bs[4..], little);
    if little then second * TWO_TO_THE_32 + first else first * TWO_TO_THE_32 + second
  }

  function PutU64(v: U64, little: bool): (bs: seq<byte>)
    ensures |bs| == 8 && GetU64(bs, little) == v
  {
    var lo, hi := PutU32(v % TWO_TO_THE_32, little), PutU32(v / TWO_TO_THE_32, little);
    var bs := if little then lo + hi else hi + lo;
    assert bs[..4] == (if little then lo else hi) && bs[4..] == (if little then hi else lo);
    bs
  }

  function FromI16(v: I16): U16 { if v < 0 then v + 0x1_0000 else v }
  function ToI16(u: U16): I16 { if u >= 0x8000 then u - 0x1_0000 else u }
  function FromI32(v: I32): U32 { if v < 0 then v + TWO_TO_THE_32 else v }
  function ToI32(u: U32): I32 { if u >= 0x8000_0000 then u - TWO_TO_THE_32 else u }

  function GetI16(bs: seq<byte>, little: bool): I16
    requires |bs| == 2
  {
    ToI16(GetU16(bs, little))
  }

  function PutI16(v: I16, little: bool): (bs: seq<byte>)
    ensures |bs| == 2 && GetI16(bs, little) == v
  {
    PutU16(FromI16(v), little)
  }

  function GetI32(bs: seq<byte>, little: bool): I32
    requires |bs| == 4
  {
    ToI32(GetU32(bs, little))
  }

  function PutI32(v: I32, little: bool): (bs: seq<byte>)
    ensures |bs| == 4 && GetI32(bs, little) == v
  {
    PutU32(FromI32(v), little)
  }

  function FromI64(v: I64): U64 { if v < 0 then v + TWO_TO_THE_64 else v }
  function ToI64(u: U64): I64 { if u >= 0x8000_0000_0000_0000 then u - TWO_TO_THE_64 else u }

  function GetI64(bs: seq<byte>, little: bool): I64
    requires |bs| == 8
  {
    ToI64(GetU64(bs, little))
  }

  function PutI64(v: I64, little: bool): (bs: seq<byte>)
    ensures |bs| == 8 && GetI64(bs, little) == v
  {
    PutU64(FromI64(v), little)
  }

  /** Reading a word and writing it back gives the same bytes. */
  lemma Canonical16(bs: seq<byte>, little: bool)
    requires |bs| == 2
    ensures PutU16(GetU16(bs, little), little) == bs && PutI16(GetI16(bs, little), little) == bs
  {
  }

  lemma Halves(a: U16, b: U16)
    ensures (a as int * 0x1_0000 + b) % 0x1_0000 == b && (a as int * 0x1_0000 + b) / 0x1_0000 == a
    ensures (b as int * 0x1_0000 + a) % 0x1_0000 == a && (b as int * 0x1_0000 + a) / 0x1_0000 == b
  {
  }

  lemma Canonical32(bs: seq<byte>, little: bool)
    requires |bs| == 4
    ensures PutU32(GetU32(bs, little), little) == bs && PutI32(GetI32(bs, little), little) == bs
  {
    Canonical16(bs[..2], little);
    Canonical16(bs[2..], little);
    assert bs == bs[..2] + bs[2..];
    Halves(GetU16(bs[..2], little), GetU16(bs[2..], little));
  }

  lemma WordHalves(a: U32, b: U32)
    ensures (a as int * TWO_TO_THE_32 + b) % TWO_TO_THE_32 == b && (a as int * TWO_TO_THE_32 + b) / TWO_TO_THE_32 == a
    ensures (b as int * TWO_TO_THE_32 + a) % TWO_TO_THE_32 == a && (b as int * TWO_TO_THE_32 + a) / TWO_TO_THE_32 == b
  {
  }

  lemma Canonical64(bs: seq<byte>, little: bool)
    requires |bs| == 8
    ensures PutI64(GetI64(bs, little), little) == bs
  {
    Canonical32(bs[..4], little);
    Canonical32(bs[4..], little);
    assert bs == bs[..4] + bs[4..];
    WordHalves(GetU32(bs[..4], little), GetU32(bs[4..], little));
  }

  // ---------------------------------------------------------------------------
  // What the bytes are worth
  // ---------------------------------------------------------------------------

  /** The number written in base 256, most significant byte first. */
  function Value(bs: seq<byte>): nat {
    if bs == [] then 0 else Value(bs[..|bs| - 1]) * 0x100 + bs[|bs| - 1]
  }

  function Reversed(bs: seq<byte>): (r: seq<byte>)
    ensures |r| == |bs|
  {
    seq(|bs|, i requires 0 <= i < |bs| => bs[|bs| - 1 - i])
  }

  function Power256(k: nat): nat {
    if k == 0 then 1 else 0x100 * Power256(k - 1)
  }

  lemma ScaledBy256(x: nat, p: nat, y: nat)
    ensures (x * p + y) * 0x100 == x * (0x100 * p) + y * 0x100
  {
  }

  lemma {:induction false} ValueConcat(a: seq<byte>, b: seq<byte>)
    ensures Value(a + b) == Value(a) * Power256(|b|) + Value(b)
  {
    if b == [] {
      assert a + b == a;
    } else {
      var front := b[..|b| - 1];
      assert (a + b)[..|a + b| - 1] == a + front;
      ValueConcat(a, front);
      ScaledBy256(Value(a), Power256(|front|), Value(front));
    }
  }

  lemma ReversedConcat(a: seq<byte>, b: seq<byte>)
    ensures Reversed(a + b) == Reversed(b) + Reversed(a)
  {
  }

  /** The bytes, most significant first. */
  function BigEndian(bs: seq<byte>, little: bool): seq<byte> {
    if little then Reversed(bs) else bs
  }

  lemma Value16(bs: seq<byte>, little: bool)
    requires |bs| == 2
    ensures GetU16(bs, little) == Value(BigEndian(bs, little))
  {
    var w := BigEndian(bs, little);
    assert w[..1] == [w[0]] && w[..1][..0] == [];
    assert Value(w[..1]) == w[0];
  }

  lemma ValueOfHalves(bs: seq<byte>, little: bool, k: nat)
    requires |bs| == 2 * k
    ensures var first, second := Value(BigEndian(bs[..k], little)), Value(BigEndian(bs[k..], little));
            Value(BigEndian(bs, little)) ==
            if little then second * Power256(k) + first else first * Power256(k) + second
  {
    assert bs == bs[..k] + bs[k..];
    ReversedConcat(bs[..k], bs[k..]);
    if little {
      ValueConcat(Reversed(bs[k..]), Reversed(bs[..k]));
    } else {
      ValueConcat(bs[..k], bs[k..]);
    }
  }

  lemma Value32(bs: seq<byte>, little: bool)
    requires |bs| == 4
    ensures GetU32(bs, little) == Value(BigEndian(bs, little))
  {
    Value16(bs[..2], little);
    Value16(bs[2..], little);
    ValueOfHalves(bs, little, 2);
    assert Power256(2) == 0x1_0000;
  }

  lemma Value64(bs: seq<byte>, little: bool)
    requires |bs| == 8
    ensures GetU64(bs, little) == Value(BigEndian(bs, little))
  {
    Value32(bs[..4], little);
    Value32(bs[4..], little);
    ValueOfHalves(bs, little, 4);
    assert Power256(4) == TWO_TO_THE_32;
  }

  /** What is written, negative numbers in two's complement, has that value in its byte order. */
  lemma Written16(v: int, little: bool)
    ensures 0 <= v < 0x1_0000 ==> Value(BigEndian(PutU16(v, little), little)) == v
    ensures -0x8000 <= v < 0x8000 ==> Value(BigEndian(PutI16(v, little), little)) == v % 0x1_0000
  {
    if 0 <= v < 0x1_0000 {
      Value16(PutU16(v, little), little);
    }
    if -0x8000 <= v < 0x8000 {
      Value16(PutI16(v, little), little);
    }
  }

  lemma Written32(v: int, little: bool)
    ensures 0 <= v < TWO_TO_THE_32 ==> Value(BigEndian(PutU32(v, little), little)) == v
    ensures -0x8000_0000 <= v < 0x8000_0000 ==> Value(BigEndian(PutI32(v, little), little)) == v % TWO_TO_THE_32
  {
    if 0 <= v < TWO_TO_THE_32 {
      Value32(PutU32(v, little), little);
    }
    if -0x8000_0000 <= v < 0x8000_0000 {
      Value32(PutI32(v, little), little);
    }
  }

  lemma Written64(v: I64, little: bool)
    ensures Value(BigEndian(PutI64(v, little), little)) == v % TWO_TO_THE_64
  {
    Value64(PutI64(v, little), little);
  }

  /** `chunk` stands at position `pos` of `bs`. */
  predicate At(bs: seq<byte>, pos: nat, chunk: seq<byte>) {
    pos + |chunk| <= |bs| && bs[pos..pos + |chunk|] == chunk
  }

  lemma AtConcat(bs: seq<byte>, pos: nat, a: seq<byte>, b: seq<byte>)
    ensures At(bs, pos, a + b) <==> At(bs, pos, a) && At(bs, pos + |a|, b)
  {
    if pos + |a| + |b| <= |bs| {
      var s := bs[pos..pos + |a| + |b|];
      assert s[..|a|] == bs[pos..pos + |a|] && s[|a|..] == bs[pos + |a|..pos + |a| + |b|];
      assert s == s[..|a|] + s[|a|..];
      assert (a + b)[..|a|] == a && (a + b)[|a|..] == b;
    }
  }
}
