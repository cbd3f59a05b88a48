/**
  The two printers of Decimal128 values: the CSV writer's, which builds the text by pushing pieces
  (crates/shpx-driver-csv/src/writer.rs:245-275), and the GeoPackage writer's, which slices and
  formats (crates/shpx-driver-gpkg/src/writer.rs:444-466).
 */
module DecimalText {
  import opened Lists
  import opened MachineInts
  import opened Numerals
  import opened PowersOfTen
  import opened Wrappers

  // ---------------------------------------------------------------------------
  // The meaning
  // ---------------------------------------------------------------------------

  function Zeros(k: nat): (z: string)
    ensures |z| == k
  {
    seq(k, _ => '0')
  }

  /** The last `k` decimal digits of `n`. */
  function Padded(n: nat, k: nat): (s: string)
    ensures |s| == k
  {
    if k == 0 then "" else Padded(n / 10, k - 1) + [Digit(n % 10)]
  }

  /** `n` without them. */
  function Whole(n: nat, k: nat): nat {
    if k == 0 then n else Whole(n / 10, k - 1)
  }

  lemma {:induction false} WholeIsQuotient(n: nat, k: nat)
    ensures Whole(n, k) == n / Pow10(k)
  {
    if k > 0 {
      WholeIsQuotient(n / 10, k - 1);
      DivDiv(n, 10, Pow10(k - 1));
    }
  }

  function Magnitude(n: nat, scale: nat): string {
    if scale == 0 then Decimal(n) else Decimal(Whole(n, scale)) + "." + Padded(n, scale)
  }

  /** `v` at scale `scale`, by arithmetic: the whole part without leading zeros, `scale` fraction digits. */
  function Text(v: int, scale: int): string {
    Sign(v) + Magnitude(Abs(v), if scale > 0 then scale else 0)
  }

  // ---------------------------------------------------------------------------
  // Slicing a numeral is dividing by a power of ten
  // ---------------------------------------------------------------------------

  lemma {:induction false} PaddedZero(n: nat, k: nat)
    requires n == 0
    ensures Padded(n, k) == Zeros(k)
  {
    if k > 0 {
      PaddedZero(n, k - 1);
      assert Zeros(k) == Zeros(k - 1) + ['0'];
    }
  }

  lemma {:induction false} WholeZero(n: nat, k: nat)
    requires n == 0
    ensures Whole(n, k) == 0
  {
    if k > 0 {
      WholeZero(n / 10, k - 1);
    }
  }

  lemma {:induction false} SplitLong(n: nat, k: nat)
    requires |Decimal(n)| > k
    ensures Decimal(n) == Decimal(Whole(n, k)) + Padded(n, k)
  {
    if k == 0 {
      assert Decimal(n) + "" == Decimal(n);
    } else {
      SplitLong(n / 10, k - 1);
      Regroup(Decimal(Whole(n / 10, k - 1)), Padded(n / 10, k - 1), [Digit(n % 10)]);
    }
  }

  lemma {:induction false} SplitShort(n: nat, k: nat)
    requires |Decimal(n)| <= k
    ensures Whole(n, k) == 0 && Padded(n, k) == Zeros(k - |Decimal(n)|) + Decimal(n)
  {
    if n < 10 {
      WholeZero(n / 10, k - 1);
      PaddedZero(n / 10, k - 1);
    } else {
      SplitShort(n / 10, k - 1);
      Regroup(Zeros(k - |Decimal(n)|), Decimal(n / 10), [Digit(n % 10)]);
    }
  }

  function CutAt(text: string, k: nat): string {
    if |text| > k then text[..|text| - k] + "." + text[|text| - k..] else "0." + Zeros(k - |text|) + text
  }

  lemma DecimalZero(n: nat)
    requires n == 0
    ensures Decimal(n) == "0"
  {
  }

  /** The same as the printers do it: cut the numeral `scale` digits from its end, or fill up with zeros. */
  lemma CutNumeral(n: nat, k: nat)
    requires k > 0
    ensures Magnitude(n, k) == CutAt(Decimal(n), k)
  {
    var text, whole, frac := Decimal(n), Decimal(Whole(n, k)), Padded(n, k);
    if |text| > k {
      SplitLong(n, k);
      assert text[..|text| - k] == whole && text[|text| - k..] == frac;
    } else {
      SplitShort(n, k);
      DecimalZero(Whole(n, k));
      assert "0." + Zeros(k - |text|) + text == "0" + "." + (Zeros(k - |text|) + text);
    }
  }

  /** How long the unsigned text is: the digits, at least one before the point, and the point. */
  lemma MagnitudeLength(n: nat, k: nat)
    requires k > 0
    ensures |Magnitude(n, k)| == 1 + if |Decimal(n)| > k then |Decimal(n)| else k + 1
  {
    CutNumeral(n, k);
  }

  // ---------------------------------------------------------------------------
  // The printers
  // ---------------------------------------------------------------------------

  /** The padding loop. */
  method PushZeros(start: string, k: nat) returns (out: string)
    ensures out == start + Zeros(k)
  {
    out := start;
    for i := 0 to k
      invariant out == start + Zeros(i)
    {
      out := out + "0";
    }
  }

  /** The digits and the point, pushed behind the sign. */
  method PushMagnitude(sign: string, abs: string, s: nat) returns (out: string)
    ensures out == sign + CutAt(abs, s)
  {
    out := sign;
    if |abs| > s {
      var split := |abs| - s;
      out := out + abs[..split];
      out := out + ".";
      out := out + abs[split..];
      Regroup(sign, abs[..split], ".");
      Regroup(sign, abs[..split] + ".", abs[split..]);
    } else {
      out := out + "0.";
      out := PushZeros(out, s - |abs|);
      out := out + abs;
      Regroup(sign, "0.", Zeros(s - |abs|));
      Regroup(sign, "0." + Zeros(s - |abs|), abs);
    }
  }

  method FormatCsv(value: I128, scale: I8) returns (out: string)
    ensures out == Text(value, scale)
  {
    if scale <= 0 {
      return ToString(value);
    }
    var s: nat := scale;
    var negative := value < 0;
    var abs := Decimal(Abs(value));
    CutNumeral(Abs(value), s);
    out := "";
    if negative {
      out := out + "-";
    }
    out := PushMagnitude(out, abs, s);
  }

  /** Two's complement negation, which leaves the smallest value as it is. */
  function WrappingNeg(v: I128): I128 {
    if v == I128_MIN then v else -(v as int)
  }

  /** `{text:0>width$}` */
  function PadLeft(text: string, width: nat): string {
    if |text| >= width then text else Zeros(width - |text|) + text
  }

  /** `{whole}.{frac:0>s$}` with `text` cut `s` digits from its end. */
  function JoinFraction(text: string, s: nat): string {
    var (whole, frac) := if |text| > s then (text[..|text| - s], text[|text| - s..]) else ("0", text);
    whole + "." + PadLeft(frac, s)
  }

  function FormatGpkg(value: I128, scale: I8): string {
    if scale <= 0 then ToString(value) else
      var neg := value < 0;
      var abs := if neg then WrappingNeg(value) else value;
      var text := JoinFraction(ToString(abs), scale);
      if neg then "-" + text else text
  }

  lemma DigitIsNotMinus(d: nat)
    requires d < 10
    ensures Digit(d) != '-' && Digit(d) != '.'
  {
  }

  predicate NoMinus(s: string) {
    forall i :: 0 <= i < |s| ==> s[i] != '-'
  }

  lemma {:induction false} DecimalNoMinus(n: nat)
    ensures NoMinus(Decimal(n))
  {
    DigitIsNotMinus(n % 10);
    if n >= 10 {
      DecimalNoMinus(n / 10);
    }
  }

  lemma {:induction false} PaddedNoMinus(n: nat, k: nat)
    ensures NoMinus(Padded(n, k))
  {
    if k > 0 {
      DigitIsNotMinus(n % 10);
      PaddedNoMinus(n / 10, k - 1);
    }
  }

  lemma MinusOnlyInFront(n: nat, scale: nat)
    ensures NoMinus(Magnitude(n, scale))
  {
    DecimalNoMinus(n);
    DecimalNoMinus(Whole(n, scale));
    PaddedNoMinus(n, scale);
  }

  lemma UnsignedText(v: int)
    requires v >= 0
    ensures ToString(v) == Decimal(v)
  {
  }

  lemma JoinIsCut(text: string, s: nat)
    ensures JoinFraction(text, s) == CutAt(text, s)
  {
  }

  lemma NothingInFront(s: string)
    ensures "" + s == s
  {
  }

  lemma GpkgMeaning(value: I128, scale: I8, n: nat, k: nat)
    requires value != I128_MIN || scale <= 0
    requires n == Abs(value) && k == if scale > 0 then scale else 0
    ensures FormatGpkg(value, scale) == Sign(value) + Magnitude(n, k)
  {
    if scale > 0 {
      UnsignedText(n);
      CutNumeral(n, k);
      JoinIsCut(Decimal(n), k);
      NothingInFront(Magnitude(n, k));
    }
  }

  lemma StrayMinus(text: string, s: nat)
    requires text != "" && text[0] == '-'
    ensures !NoMinus(JoinFraction(text, s))
  {
    var out := JoinFraction(text, s);
    if |text| > s {
      assert out[0] == '-';
    } else {
      assert PadLeft(text, s)[s - |text|] == '-';
      assert out[2 + s - |text|] == '-';
    }
  }

  lemma GpkgSmallest(value: I128, scale: I8)
    requires value == I128_MIN && scale > 0
    ensures FormatGpkg(value, scale) != Text(value, scale)
  {
    var s: nat := scale;
    var text, inner := ToString(value), Magnitude(Abs(value), s);
    MinusOnlyInFront(Abs(value), s);
    StrayMinus(text, s);
    assert JoinFraction(text, s) != inner;
    assert FormatGpkg(value, scale)[1..] == JoinFraction(text, s) && Text(value, scale)[1..] == inner;
  }

  /**
    The printers agree except on the smallest i128 with a positive scale, where negating wraps and
    the GeoPackage text gets a second minus sign.
   */
  lemma PrintersAgree(value: I128, scale: I8)
    ensures FormatGpkg(value, scale) == Text(value, scale) <==> value != I128_MIN || scale <= 0
  {
    if value != I128_MIN || scale <= 0 {
      GpkgMeaning(value, scale, Abs(value), if scale > 0 then scale else 0);
    } else {
      GpkgSmallest(value, scale);
    }
  }

  // ---------------------------------------------------------------------------
  // Reading the text back
  // ---------------------------------------------------------------------------

  /** The number `unscaled / 10^fraction`, written with `fraction` digits after the point. */
  datatype Number = Number(unscaled: int, fraction: nat)

  predicate IsDigit(c: char) {
    '0' <= c <= '9'
  }

  predicate AllDigits(s: string) {
    forall i :: 0 <= i < |s| ==> IsDigit(s[i])
  }

  function ParseNat(s: string): nat
    requires AllDigits(s)
  {
    if s == "" then 0 else 10 * ParseNat(s[..|s| - 1]) + (s[|s| - 1] as int - '0' as int)
  }

  /** Where the first point is, or the length when there is none. */
  function PointAt(s: string): (i: nat)
    ensures i <= |s|
    ensures i < |s| ==> s[i] == '.'
  {
    if s == "" || s[0] == '.' then 0 else 1 + PointAt(s[1..])
  }

  /** The digits and the fraction of an unsigned text. */
  function Split(body: string): (string, string) {
    var point := PointAt(body);
    (body[..point], if point < |body| then body[point + 1..] else "")
  }

  function Parse(text: string): Option<Number> {
    var negative := text != "" && text[0] == '-';
    var body := if negative then text[1..] else text;
    var (whole, frac) := Split(body);
    if whole == "" || !AllDigits(whole + frac) || (PointAt(body) < |body| && frac == "") then None
    else
      var magnitude := ParseNat(whole + frac);
      Some(Number(if negative then -(magnitude as int) else magnitude, |frac|))
  }

  lemma ParseAppend(s: string, d: nat)
    requires AllDigits(s) && d < 10
    ensures AllDigits(s + [Digit(d)]) && ParseNat(s + [Digit(d)]) == 10 * ParseNat(s) + d
  {
  }

  lemma {:induction false} ParsePadded(whole: string, n: nat, k: nat)
    requires AllDigits(whole) && ParseNat(whole) == Whole(n, k)
    ensures AllDigits(whole + Padded(n, k)) && ParseNat(whole + Padded(n, k)) == n
  {
    if k == 0 {
      assert whole + Padded(n, k) == whole;
    } else {
      ParsePadded(whole, n / 10, k - 1);
      ParseAppend(whole + Padded(n / 10, k - 1), n % 10);
      assert whole + Padded(n, k) == whole + Padded(n / 10, k - 1) + [Digit(n % 10)];
    }
  }

  lemma {:induction false} ParseDecimal(n: nat)
    ensures AllDigits(Decimal(n)) && ParseNat(Decimal(n)) == n
  {
    var s := Decimal(n);
    assert Digit(n % 10) as int == '0' as int + n % 10;
    if n >= 10 {
      ParseDecimal(n / 10);
      assert s[..|s| - 1] == Decimal(n / 10);
    }
  }

  lemma {:induction false} PointAfter(digits: string, rest: string)
    requires AllDigits(digits) && (rest == "" || rest[0] == '.')
    ensures PointAt(digits + rest) == |digits|
  {
    if digits != "" {
      assert digits[0] == (digits + rest)[0];
      PointAfter(digits[1..], rest);
      assert (digits + rest)[1..] == digits[1..] + rest;
    }
  }

  lemma SplitPlain(whole: string)
    requires AllDigits(whole)
    ensures Split(whole) == (whole, "") && PointAt(whole) == |whole|
  {
    PointAfter(whole, "");
    assert whole + "" == whole && whole[..|whole|] == whole;
  }

  lemma SplitPoint(whole: string, frac: string)
    requires AllDigits(whole)
    ensures Split(whole + "." + frac) == (whole, frac) && PointAt(whole + "." + frac) == |whole|
  {
    var rest, body := "." + frac, whole + "." + frac;
    assert body == whole + rest;
    PointAfter(whole, rest);
    assert body[..|whole|] == whole && body[|whole| + 1..] == frac;
  }

  lemma ParseSplit(v: int, body: string, whole: string, frac: string)
    requires body != "" && body[0] != '-' && whole != "" && Split(body) == (whole, frac) &&
             (PointAt(body) < |body| ==> frac != "")
    requires AllDigits(whole + frac) && ParseNat(whole + frac) == Abs(v)
    ensures Parse(Sign(v) + body) == Some(Number(v, |frac|))
  {
    var text := Sign(v) + body;
    assert text[|Sign(v)|..] == body;
    assert text[0] == '-' <==> v < 0;
  }

  /** The text says exactly `v` with `scale` fraction digits; for scales up to 0 it says the integer `v`. */
  lemma ReadBack(v: int, scale: int)
    ensures Parse(Text(v, scale)) == Some(Number(v, if scale > 0 then scale else 0))
  {
    var n, k: nat := Abs(v), if scale > 0 then scale else 0;
    var whole, frac := Decimal(Whole(n, k)), Padded(n, k);
    ParseDecimal(Whole(n, k));
    ParsePadded(whole, n, k);
    assert IsDigit(whole[0]);
    if k == 0 {
      SplitPlain(whole);
    } else {
      SplitPoint(whole, frac);
    }
    ParseSplit(v, Magnitude(n, k), whole, frac);
  }

  /** Both sides multiplied out: the number read is `v * 10^-scale`. */
  predicate SaysValue(num: Number, v: int, scale: int) {
    if scale >= 0 then num.unscaled * Pow10(scale) == v * Pow10(num.fraction)
    else num.unscaled == v * Pow10(-scale) * Pow10(num.fraction)
  }

  lemma NotAMultiple(v: int, p: nat)
    requires p > 1
    ensures v == v * p * 1 <==> v == 0
  {
  }

  /**
    A negative scale stands for trailing zeros that neither printer writes, so the text has the
    value of the column exactly when the scale is not negative or the value is 0.
   */
  lemma TextValue(v: int, scale: int)
    ensures Parse(Text(v, scale)).Some?
    ensures SaysValue(Parse(Text(v, scale)).value, v, scale) <==> scale >= 0 || v == 0
  {
    ReadBack(v, scale);
    if scale < 0 {
      var p := Pow10(-scale);
      assert p == 10 * Pow10(-scale - 1);
      assert Pow10(0) == 1;
      NotAMultiple(v, p);
    }
  }

  /** Different values of one scale never share a text. */
  lemma TextInjective(v: int, w: int, scale: int)
    requires Text(v, scale) == Text(w, scale)
    ensures v == w
  {
    ReadBack(v, scale);
    ReadBack(w, scale);
  }
}
