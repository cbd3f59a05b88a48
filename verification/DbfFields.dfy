/**
  What the fields of a dBASE table can store: text of a fixed number of bytes, a truth value, the
  text of a number, a date written as YYYYMMDD.
 */
module DbfFields {
  import opened Calendar
  import DecimalText
  import opened MachineInts
  import opened PowersOfTen
  import opened Utf8

  datatype DbfFieldKind =
    | Character(length: U8)
    | Numeric(length: U8, decimals: U8)
    | Float(length: U8, decimals: U8)
    | Logical
    | Date

  /** What a value of a column says, whatever it is stored in; a number is `units` times 10 to `-scale`. */
  datatype Content =
    | TextContent(text: string)
    | TruthContent(truth: bool)
    | NumberContent(units: int, scale: int)
    | DayContent(days: int)

  /** `u` with `decimals` decimals is the number. */
  predicate SameNumber(u: int, decimals: nat, units: int, scale: int) {
    if scale >= 0 then u * Pow10(scale) == units * Pow10(decimals) else u == units * Pow10(decimals - scale)
  }

  predicate TextStored(length: nat, decimals: nat, units: int, scale: int, u: int) {
    SameNumber(u, decimals, units, scale) && |DecimalText.Text(u, decimals)| <= length
  }

  const FIRST_DAY := -719_528
  const LAST_DAY := 2_932_896

  /** The day, counted from 1970, lies in the year. */
  predicate InYear(days: int, y: int) {
    YearStart(y) <= days + YearStart(1970) < YearStart(y + 1)
  }

  /** The field holds the content as it is. */
  ghost predicate Stores(kind: DbfFieldKind, c: Content) {
    match kind
    case Character(n) => c.TextContent? && ByteLen(c.text) <= n
    case Logical => c.TruthContent?
    case Numeric(n, d) => c.NumberContent? && exists u :: TextStored(n, d, c.units, c.scale, u)
    case Float(n, d) => c.NumberContent? && exists u :: TextStored(n, d, c.units, c.scale, u)
    case Date => c.DayContent? && exists y :: 0 <= y <= 9999 && InYear(c.days, y)
  }

  lemma {:induction false} YearOf(days: int, lo: int, hi: int)
    requires lo < hi && YearStart(lo) <= days + YearStart(1970) < YearStart(hi)
    ensures exists y :: lo <= y < hi && InYear(days, y)
    decreases hi - lo
  {
    if YearStart(hi - 1) <= days + YearStart(1970) {
      assert InYear(days, hi - 1);
    } else {
      YearOf(days, lo, hi - 1);
      var y :| lo <= y < hi - 1 && InYear(days, y);
    }
  }

  /** The days with a four-digit year. */
  lemma DaysStored(days: int)
    ensures Stores(Date, DayContent(days)) <==> FIRST_DAY <= days <= LAST_DAY
  {
    assert YearStart(0) == 0 && YearStart(1970) == 719_528 && YearStart(10_000) == 3_652_425;
    if FIRST_DAY <= days <= LAST_DAY {
      YearOf(days, 0, 10_000);
    }
    if Stores(Date, DayContent(days)) {
      var y :| 0 <= y <= 9999 && InYear(days, y);
      YearsGrow(0, y);
      YearsGrow(y + 1, 10_000);
    }
  }
}
