/**
  PostgreSQL `numeric` as base-10000 digits: building it from an Arrow `Decimal128`, reading it
  back at any target scale, and its wire payload (crates/shpx-driver-postgis/src/copy_binary.rs).
 */
module PgNumericCodec {
  import opened Wrappers
  import opened MachineInts
  import opened PowersOfTen

  const NUMERIC_POS: U16 := 0x0000
  const NUMERIC_NEG: U16 := 0x4000
  const NUMERIC_NAN: U16 := 0xC000
  const NBASE := 10_000

  /** `digits[0]` is the most significant base-10000 digit and stands for `digits[0] * 10000^weight`. */
  datatype PgNumeric = PgNumeric(digits: seq<I16>, weight: I16, sign: U16, dscale: U16)

  datatype NumericError = NotANumber | ExponentOverflow | AccumulatorOverflow

  // ---------------------------------------------------------------------------
  // What a digit list means
  // ---------------------------------------------------------------------------

  ghost predicate BaseDigits(ds: seq<int>) {
    forall i :: 0 <= i < |ds| ==> 0 <= ds[i] < NBASE
  }

  /** The digits read as one integer in base 10000, most significant digit first. */
  ghost function Magnitude(ds: seq<int>): (m: int)
    ensures BaseDigits(ds) ==> 0 <= m
  {
    if ds == [] then 0 else Magnitude(ds[..|ds| - 1]) * NBASE + ds[|ds| - 1]
  }

  function DigitExponent(n: PgNumeric, t: int, i: int): int {
    (n.weight - i) * 4 + t
  }

  /** The power of ten the last digit counts once the value is multiplied by `10^t`. */
  function LastExponent(n: PgNumeric, t: int): int {
    DigitExponent(n, t, |n.digits| - 1)
  }

  /** `floor(|value| * 10^t)`, straight from the positional meaning of the digits. */
  ghost function ScaledMagnitude(n: PgNumeric, t: int): nat
    requires BaseDigits(n.digits)
  {
    Shift10(Magnitude(n.digits), LastExponent(n, t))
  }

  function Signed(sign: U16, magnitude: int): int {
    if sign == NUMERIC_NEG then -magnitude else magnitude
  }

  lemma {:induction false} MagnitudeSplits(a: seq<int>, b: seq<int>)
    requires BaseDigits(a) && BaseDigits(b)
    ensures BaseDigits(a + b)
    ensures 0 <= Magnitude(b) < Pow10(4 * |b|)
    ensures Magnitude(a + b) == Magnitude(a) * Pow10(4 * |b|) + Magnitude(b)
  {
    if b == [] {
      assert a + b == a;
    } else {
      var b' := b[..|b| - 1];
      MagnitudeSplits(a, b');
      assert (a + b)[..|a + b| - 1] == a + b';
      Pow10Adds(4 * |b'|, 4);
      MulAssociative(Magnitude(a), Pow10(4 * |b'|), NBASE);
    }
  }

  /** What the digits before `i` are worth never exceeds what all of them are worth. */
  lemma PrefixBelowWhole(n: PgNumeric, t: int, i: nat)
    requires BaseDigits(n.digits) && 0 < i <= |n.digits|
    ensures Magnitude(n.digits[..i]) >= 0
    ensures var e := DigitExponent(n, t, i - 1);
            && Shift10(Magnitude(n.digits[..i]), e) <= ScaledMagnitude(n, t)
            && (e <= 0 ==> Shift10(Magnitude(n.digits[..i]), e) == ScaledMagnitude(n, t))
            && (e >= 0 ==> Magnitude(n.digits[..i]) <= ScaledMagnitude(n, t))
  {
    var a, b := n.digits[..i], n.digits[i..];
    assert n.digits == a + b;
    MagnitudeSplits(a, b);
    var e := DigitExponent(n, t, i - 1);
    Shift10Appends(Magnitude(a), Magnitude(b), 4 * |b|, e);
    if e >= 0 {
      MulMonotone(1, Pow10(e), Magnitude(a));
    }
  }

  /** Taking in one more whole digit. */
  lemma WholeDigit(n: PgNumeric, t: int, i: nat)
    requires BaseDigits(n.digits) && i < |n.digits| && DigitExponent(n, t, i) >= 0
    ensures 0 <= Magnitude(n.digits[..i])
    ensures Magnitude(n.digits[..i + 1]) == Shift10(Magnitude(n.digits[..i]), 4) + n.digits[i]
    ensures Magnitude(n.digits[..i + 1]) <= ScaledMagnitude(n, t)
  {
    assert Pow10(4) == NBASE;
    assert n.digits[..i + 1][..i] == n.digits[..i];
    PrefixBelowWhole(n, t, i + 1);
  }

  lemma AddMultiple(d: nat, k: nat, p: nat)
    requires p > 0
    ensures (k * p + d) / p == k + d / p
  {
    var q, rest := d / p, d % p;
    assert d == q * p + rest;
    assert (k + q) * p == k * p + q * p;
    DivUnique(k * p + d, p, k + q, rest);
  }

  /**
    Cutting at the first digit `i` with a negative exponent: no carry can come from that digit or
    from any later one, because their decimals do not overlap with what was accumulated.
   */
  lemma CutDigit(n: PgNumeric, t: int, i: nat)
    requires BaseDigits(n.digits) && i < |n.digits|
    requires DigitExponent(n, t, i) < 0 && (i == 0 || DigitExponent(n, t, i - 1) >= 0)
    ensures 0 <= Magnitude(n.digits[..i])
    ensures var e := DigitExponent(n, t, i);
            && ScaledMagnitude(n, t) ==
               Shift10(n.digits[i], e) + (if i == 0 then 0 else Shift10(Magnitude(n.digits[..i]), e + 4))
  {
    var e, d := DigitExponent(n, t, i), n.digits[i];
    assert n.digits[..i + 1][..i] == n.digits[..i];
    var m := Magnitude(n.digits[..i]);
    PrefixBelowWhole(n, t, i + 1);
    if i > 0 {
      Pow10Adds(e + 4, -e);
      assert Pow10(4) == NBASE;
      var p := Pow10(-e);
      MulAssociative(m, Pow10(e + 4), p);
      AddMultiple(d, m * Pow10(e + 4), p);
    }
  }

  // ---------------------------------------------------------------------------
  // Decoding: the rolling accumulator
  // ---------------------------------------------------------------------------

  function CheckedPow10(e: nat): (r: Result<I128, NumericError>)
    ensures r == if e <= 38 then Ok(Pow10(e)) else Err(ExponentOverflow)
  {
    Pow10Beyond38(e);
    if Pow10(e) <= I128_MAX then Ok(Pow10(e)) else Err(ExponentOverflow)
  }

  function Checked(x: int): Result<I128, NumericError> {
    if I128_MIN <= x <= I128_MAX then Ok(x) else Err(AccumulatorOverflow)
  }

  /** `acc` times a checked power of ten, itself checked. */
  function CheckedShift(acc: I128, e: nat): (r: Result<I128, NumericError>)
    requires acc >= 0
    ensures r.Ok? <==> e <= 38 && Shift10(acc, e) <= I128_MAX
    ensures r.Ok? ==> r.value == Shift10(acc, e)
  {
    var pow :- CheckedPow10(e);
    MulMonotone(0, acc, pow);
    Checked(acc * pow)
  }

  /** The digit `d` without its last `e` decimals; the divisor must fit. */
  function CheckedCut(d: nat, e: int): (r: Result<nat, NumericError>)
    requires e > 0 && d < NBASE
    ensures r.Ok? <==> e <= 38
    ensures r.Ok? ==> r.value == Shift10(d, -e)
  {
    var div :- CheckedPow10(e);
    DivNonNegative(d, div);
    Ok(d / div)
  }

  /**
    Exactly when decoding at scale `t` succeeds. The middle condition bites only for digit lists
    that are all zero: `10^39` and beyond is refused even as a factor of 0.
   */
  ghost predicate Decodable(n: PgNumeric, t: int)
    requires BaseDigits(n.digits)
  {
    n.digits == [] ||
    (DigitExponent(n, t, 0) >= -38 && LastExponent(n, t) <= 38 && ScaledMagnitude(n, t) <= I128_MAX)
  }

  /** The first digit with a negative exponent: catch up with the exponent, then add the digit's whole part. */
  method AddCutDigit(n: PgNumeric, s: I32, i: nat, acc0: I128, prevE: Option<I32>, d: nat, e: I32)
    returns (r: Result<I128, NumericError>)
    requires BaseDigits(n.digits) && i < |n.digits| && d == n.digits[i] && e == DigitExponent(n, s, i) < 0
    requires acc0 == Magnitude(n.digits[..i]) && (i > 0 ==> prevE.Some? && prevE.value >= 0)
    requires prevE == if i == 0 then None else Some(DigitExponent(n, s, i - 1))
    ensures r.Ok? <==> Decodable(n, s)
    ensures r.Ok? ==> r.value == ScaledMagnitude(n, s)
  {
    CutDigit(n, s, i);
    var acc: I128 := acc0;
    if prevE.Some? && prevE.value > 0 {
      acc :- CheckedShift(acc, prevE.value);
    }
    var frac :- CheckedCut(d, -(e as int));
    r := Checked(acc + frac);
  }

  /**
    `PgNumeric::to_i128_with_scale`: a result is always `value * 10^t` truncated toward zero, and
    there is one if and only if the value is decodable.
   */
  method ToI128WithScale(n: PgNumeric, targetScale: U8) returns (r: Result<I128, NumericError>)
    requires BaseDigits(n.digits)
    ensures r.Ok? <==> n.sign != NUMERIC_NAN && Decodable(n, targetScale)
    ensures r.Ok? ==> r.value == Signed(n.sign, ScaledMagnitude(n, targetScale))
    ensures n.sign == 0xC000 ==> r == Err(NotANumber)
  {
    if n.sign == NUMERIC_NAN {
      return Err(NotANumber);
    }
    var s: I32 := targetScale;
    var acc: I128 := 0;
    var prevE: Option<I32> := None;
    var truncated := false;
    var i := 0;
    while i < |n.digits|
      invariant 0 <= i <= |n.digits| && !truncated
      invariant acc == Magnitude(n.digits[..i])
      invariant prevE == if i == 0 then None else Some(DigitExponent(n, s, i - 1))
      invariant i > 0 ==> prevE.value >= 0
    {
      var d := n.digits[i];
      var e: I32 := (n.weight - i) * 4 + s;
      if e < 0 {
        acc :- AddCutDigit(n, s, i, acc, prevE, d, e);
        truncated := true;
        break;
      }
      WholeDigit(n, s, i);
      if prevE.Some? {
        acc :- CheckedShift(acc, prevE.value - e);
      }
      acc :- Checked(acc + d);
      prevE := Some(e);
      i := i + 1;
    }
    if !truncated {
      assert n.digits[..i] == n.digits;
      if prevE.Some? && prevE.value > 0 {
        acc :- CheckedShift(acc, prevE.value);
      }
    }
    assert acc == ScaledMagnitude(n, s);
    if n.sign == NUMERIC_NEG {
      // The checked negation cannot fail: `acc` is never negative here.
      acc := -acc;
    }
    return Ok(acc);
  }

  // ---------------------------------------------------------------------------
  // Encoding: splitting an i128 into base-10000 digits
  // ---------------------------------------------------------------------------

  /** The digits read least significant first, the order in which they are produced. */
  ghost function LowFirst(ds: seq<int>): (m: int)
    ensures BaseDigits(ds) ==> 0 <= m
  {
    if ds == [] then 0 else ds[0] + NBASE * LowFirst(ds[1..])
  }

  function Reverse(s: seq<I16>): (r: seq<I16>)
    ensures |r| == |s|
    ensures forall i :: 0 <= i < |s| ==> r[i] == s[|s| - 1 - i]
  {
    if s == [] then [] else Reverse(s[1..]) + [s[0]]
  }

  lemma {:induction false} ReversedMagnitude(ds: seq<I16>)
    ensures Magnitude(Reverse(ds)) == LowFirst(ds)
  {
    if ds != [] {
      ReversedMagnitude(ds[1..]);
      assert Reverse(ds)[..|ds| - 1] == Reverse(ds[1..]);
    }
  }

  lemma {:induction false} LowFirstAppends(ds: seq<int>, d: int)
    ensures LowFirst(ds + [d]) == LowFirst(ds) + d * Pow10(4 * |ds|)
  {
    if ds == [] {
      assert ds + [d] == [d];
    } else {
      LowFirstAppends(ds[1..], d);
      assert (ds + [d])[1..] == ds[1..] + [d];
      Pow10Adds(4, 4 * |ds[1..]|);
      MulAssociative(d, Pow10(4 * |ds[1..]|), NBASE);
    }
  }

  /** First and last digit nonzero: no leading and no trailing zero digit. */
  ghost predicate NormalDigits(ds: seq<int>) {
    BaseDigits(ds) && ds != [] && ds[0] != 0 && ds[|ds| - 1] != 0
  }

  /** The digits stand for `abs / 10^scale` exactly (cross-multiplied, so no fraction appears). */
  ghost predicate Represents(n: PgNumeric, abs: nat, scale: int) {
    BaseDigits(n.digits) &&
    var e := LastExponent(n, scale);
    if e >= 0 then Magnitude(n.digits) * Pow10(e) == abs else Magnitude(n.digits) == abs * Pow10(-e)
  }

  /** The zeros that bring `scale` decimals up to whole base-10000 digits. */
  function PadLow(scale: nat): (p: nat)
    ensures p < 4 && (scale + p) % 4 == 0
  {
    var r := scale % 4;
    if r == 0 then 0 else 4 - r
  }

  /** The position of the lowest digit: it counts `10000^w`. */
  function LowWeight(scale: nat, padLow: nat): (w: int)
    requires (scale + padLow) % 4 == 0
    ensures w * 4 == -(scale as int + padLow)
  {
    -(scale as int + padLow) / 4
  }

  method Reversed(lowFirst: seq<I16>) returns (digits: seq<I16>)
    requires BaseDigits(lowFirst) && lowFirst != []
    ensures BaseDigits(digits) && |digits| == |lowFirst| && digits[0] == lowFirst[|lowFirst| - 1]
    ensures Magnitude(digits) == LowFirst(lowFirst)
  {
    ReversedMagnitude(lowFirst);
    digits := Reverse(lowFirst);
  }

  /** Peeling off one more digit keeps the total. */
  lemma NextQuotient(m: nat, k: nat)
    ensures m * Pow10(4 * k) == m % NBASE * Pow10(4 * k) + m / NBASE * Pow10(4 * (k + 1))
  {
    Pow10Adds(4, 4 * k);
    MulAssociative(m / NBASE, NBASE, Pow10(4 * k));
    assert m == m / NBASE * NBASE + m % NBASE;
  }

  lemma ElevenDigitsAreTooMany(abs: U128, padLow: nat)
    requires padLow < 4
    ensures abs * Pow10(padLow) < Pow10(43)
  {
    if padLow < 3 {
      Pow10Grows(padLow, 3);
    }
    MulMonotone(Pow10(padLow), Pow10(3), abs);
    assert Pow10(3) == 1000;
    Pow10Beyond38(39);
    Pow10Grows(39, 43);
    Pow10Adds(39, 4);
    assert Pow10(4) == 10_000;
  }

  lemma FewDigits(abs: U128, padLow: nat, digits: seq<int>, m: nat)
    requires BaseDigits(digits) && m > 0 && padLow < 4
    requires LowFirst(digits) + m * Pow10(4 * |digits|) == abs * Pow10(padLow)
    ensures |digits| <= 10
  {
    if |digits| > 10 {
      MulMonotone(1, m, Pow10(4 * |digits|));
      Pow10Grows(43, 4 * |digits|);
      ElevenDigitsAreTooMany(abs, padLow);
    }
  }

  /** The division loop: low-order digits first, until nothing is left of `rest`. */
  method PushDigits(lowest: seq<I16>, rest: U128, ghost abs: U128, ghost padLow: nat) returns (digits: seq<I16>)
    requires BaseDigits(lowest) && |lowest| <= 1 && padLow < 4
    requires LowFirst(lowest) + rest * Pow10(4 * |lowest|) == abs * Pow10(padLow)
    requires rest == 0 ==> lowest != [] && lowest[|lowest| - 1] != 0
    ensures BaseDigits(digits) && 0 < |digits| <= 11 && digits[|digits| - 1] != 0
    ensures LowFirst(digits) == abs * Pow10(padLow)
  {
    digits := lowest;
    var m: U128 := rest;
    while m > 0
      invariant BaseDigits(digits) && |digits| <= 11
      invariant LowFirst(digits) + m * Pow10(4 * |digits|) == abs * Pow10(padLow)
      invariant m == 0 ==> digits != [] && digits[|digits| - 1] != 0
    {
      FewDigits(abs, padLow, digits, m);
      var d: I16 := m % NBASE;
      LowFirstAppends(digits, d);
      NextQuotient(m, |digits|);
      digits := digits + [d];
      m := m / NBASE;
    }
  }

  lemma TrailingZero(digits: seq<int>, zeros: nat)
    requires digits != [] && digits[|digits| - 1] == 0
    ensures Magnitude(digits) * Pow10(4 * zeros) == Magnitude(digits[..|digits| - 1]) * Pow10(4 * (zeros + 1))
  {
    Pow10Adds(4, 4 * zeros);
    assert Pow10(4) == NBASE;
    MulAssociative(Magnitude(digits[..|digits| - 1]), NBASE, Pow10(4 * zeros));
  }

  /** The trimming loop; each dropped digit is a factor 10000 of the magnitude. */
  method TrimTrailingZeros(all: seq<I16>) returns (digits: seq<I16>)
    requires BaseDigits(all) && all != [] && all[0] != 0
    ensures NormalDigits(digits) && |digits| <= |all|
    ensures Magnitude(all) == Magnitude(digits) * Pow10(4 * (|all| - |digits|))
  {
    digits := all;
    while |digits| > 0 && digits[|digits| - 1] == 0
      invariant BaseDigits(digits) && 0 < |digits| <= |all| && digits[0] != 0
      invariant Magnitude(all) == Magnitude(digits) * Pow10(4 * (|all| - |digits|))
    {
      TrailingZero(digits, |all| - |digits|);
      digits := digits[..|digits| - 1];
    }
  }

  lemma FirstChunkExact(abs: nat, r: nat)
    requires 0 < r < 4
    ensures abs % Pow10(r) * Pow10(4 - r) < NBASE && abs / Pow10(r) <= abs
    ensures abs % Pow10(r) * Pow10(4 - r) + abs / Pow10(r) * NBASE == abs * Pow10(4 - r)
    ensures abs / Pow10(r) == 0 && abs > 0 ==> abs % Pow10(r) * Pow10(4 - r) > 0
  {
    var p, up := Pow10(r), Pow10(4 - r);
    Pow10Adds(r, 4 - r);
    assert p * up == NBASE;
    var q, low := abs / p, abs % p;
    assert abs == q * p + low;
    MulAssociative(q, p, up);
    assert abs * up == q * p * up + low * up;
    MulMonotone(low + 1, p, up);
    if low > 0 {
      MulMonotone(1, low, up);
    }
  }

  lemma FirstChunkParts(abs: nat, r: nat, chunk: nat, rest: nat)
    requires 0 < r < 4 && chunk == abs % Pow10(r) * Pow10(4 - r) && rest == abs / Pow10(r)
    ensures chunk < NBASE && rest <= abs && (rest == 0 && abs > 0 ==> chunk > 0)
    ensures chunk + rest * NBASE == abs * Pow10(4 - r)
  {
    FirstChunkExact(abs, r);
  }

  /** The lowest digit, the last `r` decimals moved up by `4 - r` places, and what is left above it. */
  function FirstChunk(abs: U128, r: nat): (c: (I16, U128))
    requires 0 < r < 4
    ensures 0 <= c.0 < NBASE && (c.1 == 0 && abs > 0 ==> c.0 > 0)
    ensures c.0 + c.1 * NBASE == abs * Pow10(4 - r)
  {
    MulNonNegative(abs % Pow10(r), Pow10(4 - r));
    var chunk: nat, rest: nat := abs % Pow10(r) * Pow10(4 - r), abs / Pow10(r);
    FirstChunkParts(abs, r, chunk, rest);
    (chunk, rest)
  }

  lemma TrimmedRepresents(n: PgNumeric, abs: nat, scale: nat, padLow: nat, zeros: nat)
    requires BaseDigits(n.digits) && padLow < 4
    requires LastExponent(n, scale) == 4 * zeros - padLow
    requires Magnitude(n.digits) * Pow10(4 * zeros) == abs * Pow10(padLow)
    ensures Represents(n, abs, scale)
  {
    if zeros > 0 {
      var e := 4 * zeros - padLow;
      Pow10Adds(e, padLow);
      MulAssociative(Magnitude(n.digits), Pow10(e), Pow10(padLow));
      MulCancel(Magnitude(n.digits) * Pow10(e), abs, Pow10(padLow));
    }
  }

  /** `PgNumeric::from_u128_scale`, for every scale a byte can hold. */
  method FromU128Scale(abs: U128, scale: U8, sign: U16, dscale: U16) returns (n: PgNumeric)
    requires abs > 0
    ensures NormalDigits(n.digits) && Represents(n, abs, scale)
    ensures n.sign == sign && n.dscale == dscale && |n.digits| <= 11
  {
    var s: int := scale;
    var padLow := PadLow(s);
    var digits: seq<I16>, m: U128 := [], abs;
    if padLow > 0 {
      var (lastChunk, quotient) := FirstChunk(abs, 4 - padLow);
      digits, m := digits + [lastChunk], quotient;
    }
    digits := PushDigits(digits, m, abs, padLow);
    digits := Reversed(digits);

    var weightLow := LowWeight(s, padLow);
    var weight: I16 := weightLow + |digits| - 1;
    var trimmed := TrimTrailingZeros(digits);
    n := PgNumeric(trimmed, weight, sign, dscale);
    assert LastExponent(n, scale) == 4 * (|digits| - |trimmed|) - padLow;
    TrimmedRepresents(n, abs, scale, padLow, |digits| - |trimmed|);
  }

  /** What encoding the value `value / 10^scale` must produce. */
  ghost predicate Encodes(n: PgNumeric, value: int, scale: int) {
    && n.dscale == scale
    && (if value == 0 then n.digits == [] && n.weight == 0 && n.sign == NUMERIC_POS
        else && NormalDigits(n.digits)
             && Represents(n, if value < 0 then -value else value, scale)
             && n.sign == if value < 0 then NUMERIC_NEG else NUMERIC_POS)
  }

  /** `PgNumeric::from_i128_scale`. */
  method FromI128Scale(value: I128, scale: U8) returns (n: PgNumeric)
    ensures Encodes(n, value, scale) && |n.digits| <= 11
  {
    var dscale: U16 := scale;
    if value == 0 {
      return PgNumeric([], 0, NUMERIC_POS, dscale);
    }
    var v: int := value;
    var sign: U16, abs: U128;
    if v < 0 {
      sign, abs := NUMERIC_NEG, -v;
    } else {
      sign, abs := NUMERIC_POS, v;
    }
    n := FromU128Scale(abs, scale, sign, dscale);
  }

  // ---------------------------------------------------------------------------
  // Encoding and decoding together
  // ---------------------------------------------------------------------------

  lemma ShiftZero(e: int)
    ensures Shift10(0, e) == 0
  {
  }

  lemma RepresentedValue(n: PgNumeric, abs: nat, scale: int, t: int)
    requires Represents(n, abs, scale)
    ensures ScaledMagnitude(n, t) == Shift10(abs, t - scale)
  {
    var e := LastExponent(n, scale);
    var m := Magnitude(n.digits);
    assert LastExponent(n, t) == e + (t - scale);
    if e >= 0 {
      Shift10Moves(m, e, t - scale);
    } else {
      Shift10Moves(abs, -e, LastExponent(n, t));
    }
  }

  /** What was encoded at one scale is worth `floor(|value| * 10^(t - scale))` at any other. */
  lemma Rescale(n: PgNumeric, value: int, scale: int, t: int)
    requires Encodes(n, value, scale)
    ensures BaseDigits(n.digits)
    ensures ScaledMagnitude(n, t) == Shift10(Abs(value), t - scale)
  {
    if value == 0 {
      ShiftZero(LastExponent(n, t));
      ShiftZero(t - scale);
    } else {
      RepresentedValue(n, Abs(value), scale, t);
    }
  }

  /** A magnitude whose last digit is nonzero is no multiple of 10000. */
  lemma NotAMultiple(ds: seq<int>, k: nat)
    requires NormalDigits(ds)
    ensures Magnitude(ds) != k * Pow10(4)
  {
  }

  /** The last digit is nonzero, so at most three decimals of padding are left at its own scale. */
  lemma LittlePadding(n: PgNumeric, abs: nat, scale: int)
    requires NormalDigits(n.digits) && Represents(n, abs, scale)
    ensures LastExponent(n, scale) >= -3 && DigitExponent(n, scale, 0) >= -3
  {
    var e := LastExponent(n, scale);
    if e <= -4 {
      Pow10Adds(-e - 4, 4);
      MulAssociative(abs, Pow10(-e - 4), Pow10(4));
      NotAMultiple(n.digits, abs * Pow10(-e - 4));
    }
  }

  lemma {:induction false} LeadingDigitCounts(ds: seq<int>)
    requires BaseDigits(ds) && ds != [] && ds[0] != 0
    ensures Magnitude(ds) > 0
  {
    if |ds| > 1 {
      LeadingDigitCounts(ds[..|ds| - 1]);
    }
  }

  /** Decoding at the encoding scale gives the value back, for every scale; `i128::MIN` alone fails. */
  lemma RoundTrip(n: PgNumeric, value: I128, scale: U8)
    requires Encodes(n, value, scale)
    ensures BaseDigits(n.digits) && n.sign != NUMERIC_NAN
    ensures Decodable(n, scale) <==> value != I128_MIN
    ensures Signed(n.sign, ScaledMagnitude(n, scale)) == value
  {
    Rescale(n, value, scale, scale);
    assert Pow10(0) == 1;
    if value != 0 {
      LittlePadding(n, Abs(value), scale);
      LeadingDigitCounts(n.digits);
      var e := LastExponent(n, scale);
      if e > 38 {
        MulMonotone(1, Magnitude(n.digits), Pow10(e));
        Pow10Beyond38(e);
      }
    }
  }

  method EncodeThenDecode(value: I128, scale: U8) returns (r: Result<I128, NumericError>)
    ensures r.Ok? <==> value != I128_MIN
    ensures r.Ok? ==> r.value == value
  {
    var n := FromI128Scale(value, scale);
    RoundTrip(n, value, scale);
    r := ToI128WithScale(n, scale);
  }

  /**
    At another scale decoding can fail although the truncated value, 0, fits: 10^-38 read with no
    decimals needs the divisor 10^40.
   */
  lemma TinyValueRefused()
    ensures var n := PgNumeric([100], -10, NUMERIC_POS, 38);
            Encodes(n, 1, 38) && ScaledMagnitude(n, 0) == 0 && !Decodable(n, 0)
  {
    var n := PgNumeric([100], -10, NUMERIC_POS, 38);
    assert Magnitude([100]) == 100;
    Rescale(n, 1, 38, 0);
    Pow10Grows(0, 38);
    DivUnique(1, Pow10(38), 0, 1);
  }

  lemma SameScaledValue(absA: nat, scaleA: nat, absB: nat, scaleB: nat, t: nat)
    requires absA * Pow10(scaleB) == absB * Pow10(scaleA) && t >= scaleA + scaleB
    ensures Shift10(absA, t - scaleA) == Shift10(absB, t - scaleB)
  {
    Shift10Moves(absA, scaleB, t - scaleA - scaleB);
    Shift10Moves(absB, scaleA, t - scaleA - scaleB);
  }

  lemma CancelPowers(ma: nat, mb: nat, la: nat, lb: nat)
    requires la + 4 <= lb && ma * Pow10(la) == mb * Pow10(lb)
    ensures mb * Pow10(lb - la - 4) >= 0 && ma == mb * Pow10(lb - la - 4) * Pow10(4)
  {
    var k := lb - la;
    Pow10Adds(k, la);
    MulAssociative(mb, Pow10(k), Pow10(la));
    MulCancel(ma, mb * Pow10(k), Pow10(la));
    Pow10Adds(k - 4, 4);
    MulAssociative(mb, Pow10(k - 4), Pow10(4));
    MulNonNegative(mb, Pow10(k - 4));
  }

  /** Two normal digit lists of the same value end at the same power of ten. */
  lemma SameExponent(a: seq<int>, b: seq<int>, la: nat, lb: nat)
    requires NormalDigits(a) && NormalDigits(b) && la <= lb && (lb - la) % 4 == 0
    requires Magnitude(a) * Pow10(la) == Magnitude(b) * Pow10(lb)
    ensures la == lb
  {
    if lb > la {
      CancelPowers(Magnitude(a), Magnitude(b), la, lb);
      NotAMultiple(a, Magnitude(b) * Pow10(lb - la - 4));
    }
  }

  lemma LastDigitsAgree(a: seq<int>, b: seq<int>)
    requires BaseDigits(a) && BaseDigits(b) && a != [] && b != [] && Magnitude(a) == Magnitude(b)
    ensures a[|a| - 1] == b[|b| - 1] && Magnitude(a[..|a| - 1]) == Magnitude(b[..|b| - 1])
  {
  }

  ghost predicate NoLeadingZero(ds: seq<int>) {
    BaseDigits(ds) && (ds == [] || ds[0] != 0)
  }

  lemma NoDigitsForZero(ds: seq<int>)
    requires NoLeadingZero(ds) && Magnitude(ds) == 0
    ensures ds == []
  {
    if ds != [] {
      LeadingDigitCounts(ds);
    }
  }

  lemma FrontOf(ds: seq<int>)
    requires NoLeadingZero(ds) && ds != []
    ensures NoLeadingZero(ds[..|ds| - 1])
  {
  }

  lemma PutBack(a: seq<int>, b: seq<int>)
    requires a != [] && b != [] && a[..|a| - 1] == b[..|b| - 1] && a[|a| - 1] == b[|b| - 1]
    ensures a == b
  {
    assert a == a[..|a| - 1] + [a[|a| - 1]] && b == b[..|b| - 1] + [b[|b| - 1]];
  }

  lemma {:induction false} MagnitudeInjective(a: seq<int>, b: seq<int>)
    requires NoLeadingZero(a) && NoLeadingZero(b) && Magnitude(a) == Magnitude(b)
    ensures a == b
  {
    if a == [] {
      NoDigitsForZero(b);
    } else if b == [] {
      NoDigitsForZero(a);
    } else {
      LastDigitsAgree(a, b);
      FrontOf(a);
      FrontOf(b);
      MagnitudeInjective(a[..|a| - 1], b[..|b| - 1]);
      PutBack(a, b);
    }
  }

  lemma SameDigits(a: PgNumeric, b: PgNumeric, t: int)
    requires NormalDigits(a.digits) && NormalDigits(b.digits)
    requires 0 <= LastExponent(a, t) <= LastExponent(b, t)
    requires ScaledMagnitude(a, t) == ScaledMagnitude(b, t)
    ensures a.digits == b.digits && a.weight == b.weight
  {
    var la, lb := LastExponent(a, t), LastExponent(b, t);
    SameExponent(a.digits, b.digits, la, lb);
    MulCancel(Magnitude(a.digits), Magnitude(b.digits), Pow10(la));
    MagnitudeInjective(a.digits, b.digits);
  }

  /** Equal rationals have one digit list: the normal form is unique. */
  lemma NormalFormUnique(a: PgNumeric, absA: nat, scaleA: nat, b: PgNumeric, absB: nat, scaleB: nat)
    requires NormalDigits(a.digits) && Represents(a, absA, scaleA)
    requires NormalDigits(b.digits) && Represents(b, absB, scaleB)
    requires absA * Pow10(scaleB) == absB * Pow10(scaleA)
    ensures a.digits == b.digits && a.weight == b.weight
  {
    var t := scaleA + scaleB + Abs(LastExponent(a, 0)) + Abs(LastExponent(b, 0));
    SameScaledValue(absA, scaleA, absB, scaleB, t);
    RepresentedValue(a, absA, scaleA, t);
    RepresentedValue(b, absB, scaleB, t);
    if LastExponent(a, t) <= LastExponent(b, t) {
      SameDigits(a, b, t);
    } else {
      SameDigits(b, a, t);
    }
  }
}
