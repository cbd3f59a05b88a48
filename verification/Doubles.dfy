/**
  IEEE 754 doubles as numbers: sign, exponent and fraction of the 64 bits, and the order of the
  numbers they stand for (section 3.4 of IEEE 754-2019).
 */
module Doubles {
  import opened MachineInts
  import opened ByteOrder

  /** An IEEE 754 double, held as its eight little-endian bytes. */
  type F64 = bs: seq<byte> | |bs| == 8 witness [0, 0, 0, 0, 0, 0, 0, 0]

  const INFINITY: F64 := [0, 0, 0, 0, 0, 0, 0xF0, 0x7F]
  const NEG_INFINITY: F64 := [0, 0, 0, 0, 0, 0, 0xF0, 0xFF]
  const TWO_TO_THE_52 := 0x10_0000_0000_0000
  const TWO_TO_THE_63 := 0x8000_0000_0000_0000
  const ALL_ONES := 0x7FF

  // ---------------------------------------------------------------------------
  // The number a double stands for
  // ---------------------------------------------------------------------------

  function Bits(v: F64): nat {
    Value(Reversed(v))
  }

  predicate Negative(v: F64) {
    Bits(v) / TWO_TO_THE_63 % 2 == 1
  }

  function Exponent(v: F64): nat {
    Bits(v) / TWO_TO_THE_52 % 0x800
  }

  function Fraction(v: F64): nat {
    Bits(v) % TWO_TO_THE_52
  }

  predicate IsNaN(v: F64) {
    Exponent(v) == ALL_ONES && Fraction(v) != 0
  }

  predicate IsFinite(v: F64) {
    Exponent(v) < ALL_ONES
  }

  function Pow2(n: nat): (p: nat)
    ensures p > 0
  {
    if n == 0 then 1 else 2 * Pow2(n - 1)
  }

  /** The absolute value in units of 2^-1074; subnormal numbers have no implicit leading bit. */
  function AbsUnits(exponent: nat, fraction: nat): nat {
    if exponent == 0 then fraction else (TWO_TO_THE_52 + fraction) * Pow2(exponent - 1)
  }

  /** The value of a finite double is this many times 2^-1074. */
  function Units(v: F64): int
    requires IsFinite(v)
  {
    var abs: int := AbsUnits(Exponent(v), Fraction(v));
    if Negative(v) then -abs else abs
  }

  /** The order of numbers, with the two infinities at its ends; NaN has no place in it. */
  predicate Below(a: F64, b: F64) {
    if IsNaN(a) || IsNaN(b) then false
    else if IsFinite(a) && IsFinite(b) then Units(a) < Units(b)
    else if IsFinite(a) then !Negative(b)
    else if IsFinite(b) then Negative(a)
    else Negative(a) && !Negative(b)
  }

  // ---------------------------------------------------------------------------
  // Comparing by bits
  // ---------------------------------------------------------------------------

  /** The bits below the sign bit: exponent and fraction, which order doubles of one sign. */
  function Magnitude(v: F64): nat {
    var lo: int, hi: int := GetU32(v[..4], true), GetU32(v[4..], true);
    hi % 0x8000_0000 * TWO_TO_THE_32 + lo
  }

  /** The sign-magnitude number that orders all doubles other than NaN; both zeros are 0. */
  function Key(v: F64): int {
    var m: int := Magnitude(v);
    if v[7] >= 0x80 then -m else m
  }

  predicate Less(a: F64, b: F64) {
    !IsNaN(a) && !IsNaN(b) && Key(a) < Key(b)
  }

  lemma TopByte(bs: seq<byte>)
    requires |bs| == 4
    ensures GetU32(bs, true) >= 0x8000_0000 <==> bs[3] >= 0x80
  {
    assert bs[2..][1] == bs[3] && bs[2..][0] == bs[2];
  }

  lemma BitsAre(v: F64)
    ensures Magnitude(v) < TWO_TO_THE_63
    ensures Bits(v) == Magnitude(v) + if v[7] >= 0x80 then TWO_TO_THE_63 else 0
  {
    Value64(v, true);
    TopByte(v[4..]);
    assert v[4..][3] == v[7];
  }

  lemma SplitBits(bits: nat, m: nat, sign: bool)
    requires m < TWO_TO_THE_63 && bits == m + if sign then TWO_TO_THE_63 else 0
    ensures bits / TWO_TO_THE_63 % 2 == (if sign then 1 else 0)
    ensures bits / TWO_TO_THE_52 % 0x800 == m / TWO_TO_THE_52 && bits % TWO_TO_THE_52 == m % TWO_TO_THE_52
  {
  }

  lemma PartsAre(v: F64)
    ensures Negative(v) <==> v[7] >= 0x80
    ensures Exponent(v) == Magnitude(v) / TWO_TO_THE_52 && Fraction(v) == Magnitude(v) % TWO_TO_THE_52
    ensures Magnitude(v) == Exponent(v) * TWO_TO_THE_52 + Fraction(v)
  {
    BitsAre(v);
    SplitBits(Bits(v), Magnitude(v), v[7] >= 0x80);
  }

  lemma {:induction false} Pow2Grows(a: nat, b: nat)
    requires a <= b
    ensures Pow2(a) <= Pow2(b)
    decreases b
  {
    if a < b {
      Pow2Grows(a, b - 1);
    }
  }

  lemma Product(x: nat, y: nat)
    ensures x * y >= 0 && (x > 0 && y > 0 ==> x * y > 0)
  {
  }

  lemma Products(x: nat, y: nat, p: nat, q: nat)
    requires p <= q
    ensures x <= y ==> x * p <= y * q
    ensures x < y && p > 0 ==> x * p < y * q
  {
    if x <= y {
      Product(y - x, p);
      Product(y, q - p);
      assert y * q == x * p + (y - x) * p + y * (q - p);
    }
  }

  /** A greater exponent, or the same one and a greater fraction, means a greater number. */
  lemma AbsUnitsGrow(e: nat, f: nat, e': nat, f': nat)
    requires f < TWO_TO_THE_52 && f' < TWO_TO_THE_52
    requires e < e' || (e == e' && f < f')
    ensures AbsUnits(e, f) < AbsUnits(e', f')
  {
    if e == e' {
      if e > 0 {
        Products(TWO_TO_THE_52 + f, TWO_TO_THE_52 + f', Pow2(e - 1), Pow2(e - 1));
      }
    } else if e == 0 {
      Products(TWO_TO_THE_52, TWO_TO_THE_52 + f', 1, Pow2(e' - 1));
    } else {
      Pow2Grows(e, e' - 1);
      Products(TWO_TO_THE_52 + f, 2 * TWO_TO_THE_52, Pow2(e - 1), Pow2(e - 1));
      assert 2 * TWO_TO_THE_52 * Pow2(e - 1) == TWO_TO_THE_52 * Pow2(e);
      Products(TWO_TO_THE_52, TWO_TO_THE_52 + f', Pow2(e), Pow2(e' - 1));
    }
  }

  /** `m` and `n` as exponent and fraction. */
  lemma MagnitudesOrder(m: nat, n: nat)
    ensures m < n <==>
            AbsUnits(m / TWO_TO_THE_52, m % TWO_TO_THE_52) < AbsUnits(n / TWO_TO_THE_52, n % TWO_TO_THE_52)
  {
    if m < n {
      AbsUnitsGrow(m / TWO_TO_THE_52, m % TWO_TO_THE_52, n / TWO_TO_THE_52, n % TWO_TO_THE_52);
    } else if n < m {
      AbsUnitsGrow(n / TWO_TO_THE_52, n % TWO_TO_THE_52, m / TWO_TO_THE_52, m % TWO_TO_THE_52);
    }
  }

  lemma UnitsAre(v: F64)
    requires IsFinite(v)
    ensures var u: int := AbsUnits(Magnitude(v) / TWO_TO_THE_52, Magnitude(v) % TWO_TO_THE_52);
            && Units(v) == (if v[7] >= 0x80 then -u else u)
            && (u == 0 <==> Magnitude(v) == 0)
  {
    PartsAre(v);
    MagnitudesOrder(0, Magnitude(v));
  }

  /** Comparing the bits is comparing the numbers. */
  lemma LessIffBelow(a: F64, b: F64)
    ensures Less(a, b) <==> Below(a, b)
  {
    PartsAre(a);
    PartsAre(b);
    if IsFinite(a) && IsFinite(b) {
      UnitsAre(a);
      UnitsAre(b);
      MagnitudesOrder(Magnitude(a), Magnitude(b));
      MagnitudesOrder(Magnitude(b), Magnitude(a));
    }
  }

  lemma {:induction false} Pow2Adds(a: nat, b: nat)
    ensures Pow2(a + b) == Pow2(a) * Pow2(b)
  {
    if a > 0 {
      Pow2Adds(a - 1, b);
      assert Pow2(a) * Pow2(b) == 2 * (Pow2(a - 1) * Pow2(b));
    }
  }

  lemma Infinities()
    ensures !IsNaN(INFINITY) && !IsFinite(INFINITY) && !Negative(INFINITY)
    ensures !IsNaN(NEG_INFINITY) && !IsFinite(NEG_INFINITY) && Negative(NEG_INFINITY)
  {
    assert INFINITY[..4] == [0, 0, 0, 0] && NEG_INFINITY[..4] == [0, 0, 0, 0];
    assert INFINITY[4..] == [0, 0, 0xF0, 0x7F] && NEG_INFINITY[4..] == [0, 0, 0xF0, 0xFF];
    assert GetU32([0, 0, 0, 0], true) == 0;
    assert GetU32([0, 0, 0xF0, 0x7F], true) == 0x7FF0_0000;
    assert GetU32([0, 0, 0xF0, 0xFF], true) == 0xFFF0_0000;
    PartsAre(INFINITY);
    PartsAre(NEG_INFINITY);
  }

  lemma TwoTo52()
    ensures Pow2(51) == 0x8_0000_0000_0000 && Pow2(52) == TWO_TO_THE_52
  {
    assert Pow2(13) == 0x2000;
    Pow2Adds(13, 13);
    Pow2Adds(26, 25);
    assert Pow2(25) == 0x200_0000;
  }

  lemma Associative(a: nat, b: nat, c: nat)
    ensures a * b * c == a * (b * c)
  {
  }

  lemma WholeNumber(e: nat, f: nat, k: nat, n: nat)
    requires e > 0 && n == e + 50 && TWO_TO_THE_52 + f == k * 0x8_0000_0000_0000
    ensures AbsUnits(e, f) == k * Pow2(n)
  {
    TwoTo52();
    Pow2Adds(51, e - 1);
    Associative(k, 0x8_0000_0000_0000, Pow2(e - 1));
  }

  lemma MagnitudeOf(v: F64, hi: nat)
    requires v[..4] == [0, 0, 0, 0] && hi == GetU32(v[4..], true) % 0x8000_0000
    ensures Magnitude(v) == hi * TWO_TO_THE_32
  {
    assert GetU32([0, 0, 0, 0], true) == 0;
  }

  lemma TopWord(b2: byte, b3: byte)
    ensures GetU32([0, 0, b2, b3], true) == (b3 as int * 0x100 + b2) * 0x1_0000
  {
    assert [0, 0, b2, b3][2..] == [b2, b3] && [0, 0, b2, b3][..2] == [0, 0];
  }

  /** For example 1.0, `scale` being 1074. */
  lemma One(v: F64, scale: nat)
    requires v == [0, 0, 0, 0, 0, 0, 0xF0, 0x3F] && scale == 1074
    ensures IsFinite(v) && Units(v) == Pow2(scale)
  {
    assert v[4..] == [0, 0, 0xF0, 0x3F];
    TopWord(0xF0, 0x3F);
    MagnitudeOf(v, 0x3FF0_0000);
    PartsAre(v);
    assert Exponent(v) == 1023 && Fraction(v) == 0;
    WholeNumber(1023, 0, 2, scale - 1);
  }

  /** And -3.0. */
  lemma MinusThree(v: F64, scale: nat)
    requires v == [0, 0, 0, 0, 0, 0, 0x08, 0xC0] && scale == 1074
    ensures IsFinite(v) && Units(v) == -3 * Pow2(scale)
  {
    assert v[4..] == [0, 0, 0x08, 0xC0];
    TopWord(0x08, 0xC0);
    MagnitudeOf(v, 0x4008_0000);
    PartsAre(v);
    assert Exponent(v) == 1024 && Fraction(v) == 0x8_0000_0000_0000;
    WholeNumber(1024, 0x8_0000_0000_0000, 3, scale);
  }
}
