/** Powers of ten, and multiplying by a possibly negative power of ten with truncation. */
module PowersOfTen {
  function Pow10(e: nat): (p: nat)
    ensures p > 0
  {
    if e == 0 then 1 else 10 * Pow10(e - 1)
  }

  lemma {:induction false} Pow10Adds(a: nat, b: nat)
    ensures Pow10(a + b) == Pow10(a) * Pow10(b)
  {
    if a > 0 {
      Pow10Adds(a - 1, b);
      assert Pow10(a) * Pow10(b) == 10 * (Pow10(a - 1) * Pow10(b));
    }
  }

  lemma {:induction false} Pow10Grows(a: nat, b: nat)
    requires a < b
    ensures 10 * Pow10(a) <= Pow10(b)
  {
    if a + 1 < b {
      Pow10Grows(a, b - 1);
    }
  }

  lemma MulNonNegative(a: nat, b: nat)
    ensures a * b >= 0
  {
  }

  lemma DivNonNegative(a: nat, b: nat)
    requires b > 0
    ensures a / b >= 0
  {
  }

  /** `floor(m * 10^e)` for any integer `e`. */
  function Shift10(m: nat, e: int): nat {
    if e >= 0 then
      MulNonNegative(m, Pow10(e));
      m * Pow10(e)
    else
      DivNonNegative(m, Pow10(-e));
      m / Pow10(-e)
  }

  lemma MulAtLeast(x: int, b: nat)
    requires x >= 1
    ensures x * b >= b
  {
  }

  lemma QuotientsAgree(b: nat, q: int, r: int, q': int, r': int)
    requires 0 <= r < b && 0 <= r' < b && q * b + r == q' * b + r'
    ensures q == q'
  {
    assert (q - q') * b == q * b - q' * b;
    assert (q' - q) * b == q' * b - q * b;
    if q > q' {
      MulAtLeast(q - q', b);
    } else if q < q' {
      MulAtLeast(q' - q, b);
    }
  }

  lemma DivUnique(a: int, b: int, q: int, r: int)
    requires b > 0 && a == q * b + r && 0 <= r < b
    ensures a / b == q
  {
    var q', r' := a / b, a % b;
    assert a == q' * b + r' && 0 <= r' < b;
    QuotientsAgree(b, q, r, q', r');
  }

  lemma TwoDigits(b: nat, c: nat, q: nat, r2: nat, r: nat)
    ensures (q * c + r2) * b + r == q * (b * c) + (r2 * b + r)
  {
  }

  lemma TwoDigitsBelow(b: nat, c: nat, r2: nat, r: nat)
    requires r < b && r2 < c
    ensures 0 <= r2 * b + r < b * c
  {
    MulAtLeast(c - r2, b);
    assert (c - r2) * b == c * b - r2 * b;
    MulNonNegative(r2, b);
  }

  lemma QuotientOfQuotient(a: nat, b: nat, c: nat, q: nat, r: nat, q2: nat, r2: nat)
    requires a == q * b + r && r < b && q == q2 * c + r2 && r2 < c
    ensures b * c > 0 && a / (b * c) == q2
  {
    TwoDigits(b, c, q2, r2, r);
    TwoDigitsBelow(b, c, r2, r);
    DivUnique(a, b * c, q2, r2 * b + r);
  }

  lemma DivDiv(a: nat, b: nat, c: nat)
    requires b > 0 && c > 0
    ensures b * c > 0 && a / (b * c) == a / b / c
  {
    var q := a / b;
    QuotientOfQuotient(a, b, c, q, a % b, q / c, q % c);
  }

  lemma MulCancel(a: int, b: int, c: int)
    requires c > 0 && a * c == b * c
    ensures a == b
  {
  }

  lemma MulAssociative(a: int, b: int, c: int)
    ensures a * (b * c) == a * b * c
  {
  }

  /** Moving a factor `10^k` between the number and the exponent changes nothing. */
  lemma Shift10Moves(m: nat, k: nat, e: int)
    ensures Shift10(m * Pow10(k), e) == Shift10(m, e + k)
  {
    if e >= 0 {
      Pow10Adds(k, e);
      MulAssociative(m, Pow10(k), Pow10(e));
    } else if e + k >= 0 {
      Pow10Adds(e + k, -e);
      MulAssociative(m, Pow10(e + k), Pow10(-e));
      DivUnique(m * Pow10(k), Pow10(-e), m * Pow10(e + k), 0);
    } else {
      Pow10Adds(k, -e - k);
      DivDiv(m * Pow10(k), Pow10(k), Pow10(-e - k));
      DivUnique(m * Pow10(k), Pow10(k), m, 0);
    }
  }

  lemma ShiftDown(m: nat, e: int)
    requires e <= 0
    ensures Shift10(m, e) == m / Pow10(-e)
  {
  }

  lemma MulMonotone(a: nat, b: nat, c: nat)
    requires a <= b
    ensures a * c <= b * c
  {
  }

  lemma DivMonotone(a: nat, b: nat, c: nat)
    requires a <= b && c > 0
    ensures a / c <= b / c
  {
    var q, q' := a / c, b / c;
    assert a == q * c + a % c && b == q' * c + b % c;
    assert (q - q') * c == q * c - q' * c;
    if q > q' {
      MulAtLeast(q - q', c);
    }
  }

  lemma Shift10Monotone(a: nat, b: nat, e: int)
    requires a <= b
    ensures Shift10(a, e) <= Shift10(b, e)
  {
    if e < 0 {
      DivMonotone(a, b, Pow10(-e));
    } else {
      MulMonotone(a, b, Pow10(e));
    }
  }

  /**
    Appending `k` further decimal digits `r` never lowers the shifted value, and changes nothing
    at all once the exponent of the kept part is not positive.
   */
  lemma Shift10Appends(m: nat, r: nat, k: nat, e: int)
    requires r < Pow10(k)
    ensures Shift10(m, e) <= Shift10(m * Pow10(k) + r, e - k)
    ensures e <= 0 ==> Shift10(m, e) == Shift10(m * Pow10(k) + r, e - k)
  {
    var p := m * Pow10(k) + r;
    Shift10Moves(m, k, e - k);
    if e <= 0 {
      Pow10Adds(k, -e);
      DivDiv(p, Pow10(k), Pow10(-e));
      DivUnique(p, Pow10(k), m, r);
      ShiftDown(m, e);
      ShiftDown(p, e - k);
    } else {
      Shift10Monotone(m * Pow10(k), p, e - k);
    }
  }

  lemma Pow10ThirtyEight()
    ensures Pow10(38) == 100_000_000_000_000_000_000_000_000_000_000_000_000
  {
    assert Pow10(8) == 1_0000_0000;
    Pow10Adds(8, 8);
    Pow10Adds(16, 16);
    assert Pow10(6) == 100_0000;
    Pow10Adds(32, 6);
  }

  /** The range of `i128` ends between `10^38` and `10^39`. */
  lemma Pow10Beyond38(k: nat)
    ensures k <= 38 ==> Pow10(k) <= Pow10(38)
    ensures k > 38 ==> Pow10(k) >= Pow10(39)
    ensures 10 * Pow10(38) == Pow10(39)
    ensures Pow10(38) == 100_000_000_000_000_000_000_000_000_000_000_000_000
  {
    if k < 38 {
      Pow10Grows(k, 38);
    } else if k > 39 {
      Pow10Grows(39, k);
    }
    Pow10ThirtyEight();
  }
}
