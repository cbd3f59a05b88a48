/** Decimal numerals, as the source's `to_string` writes unsigned integers. */
module Numerals {
  import opened MachineInts
  import opened PowersOfTen
  import opened Utf8

  function Digit(d: nat): char
    requires d < 10
  {
    ('0' as int + d) as char
  }

  lemma DigitUnique(d: nat, e: nat)
    requires d < 10 && e < 10 && Digit(d) == Digit(e)
    ensures d == e
  {
  }

  /** `n.to_string()` */
  function Decimal(n: nat): (s: string)
    ensures s != []
  {
    if n < 10 then [Digit(n)] else Decimal(n / 10) + [Digit(n % 10)]
  }

  lemma {:induction false} DecimalIsAscii(n: nat)
    ensures ByteLen(Decimal(n)) == |Decimal(n)|
  {
    var s := Decimal(n);
    if n < 10 {
      assert s[..0] == [];
    } else {
      DecimalIsAscii(n / 10);
      assert s[..|s| - 1] == Decimal(n / 10);
    }
  }

  lemma {:induction false} DecimalUnique(m: nat, n: nat)
    requires Decimal(m) == Decimal(n)
    ensures m == n
  {
    var s, t := Decimal(m), Decimal(n);
    assert s[|s| - 1] == Digit(m % 10) && t[|t| - 1] == Digit(n % 10);
    DigitUnique(m % 10, n % 10);
    if m >= 10 && n >= 10 {
      assert s[..|s| - 1] == Decimal(m / 10) && t[..|t| - 1] == Decimal(n / 10);
      DecimalUnique(m / 10, n / 10);
    }
  }

  lemma DecimalStep(m: nat, d: nat)
    requires 1 <= m && d < 10
    ensures Decimal(10 * m + d) == Decimal(m) + [Digit(d)]
  {
  }

  lemma {:induction false} DecimalLength(n: nat, k: nat)
    requires k > 0
    ensures |Decimal(n)| <= k <==> n < Pow10(k)
  {
    if n < 10 {
      if k > 1 {
        Pow10Grows(1, k);
      }
      assert Pow10(1) == 10;
    } else if k > 1 {
      DecimalLength(n / 10, k - 1);
    }
  }

  function Sign(v: int): string {
    if v < 0 then "-" else ""
  }

  /** `value.to_string()` on a signed integer. */
  function ToString(v: int): string {
    Sign(v) + Decimal(Abs(v))
  }

  /** How many characters a signed numeral takes. */
  lemma ToStringLength(v: int, k: nat)
    requires k > 1
    ensures |ToString(v)| <= k <==> -(Pow10(k - 1) as int) < v < Pow10(k)
  {
    if v < 0 {
      DecimalLength(-v, k - 1);
    } else {
      DecimalLength(v, k);
    }
  }
}
