/**
  Which DBF fields an Arrow schema is written to
  (crates/shpx-driver-shp/src/dbf_schema.rs and util.rs).
 */
module DbfPlan {
  import opened DbfFields
  import opened MachineInts
  import opened Numerals
  import opened PowersOfTen
  import opened Utf8
  import opened Wrappers

  datatype OnLoss = Error | Warn | Skip

  datatype LossKind = BinaryOnShp | DecimalPrecisionOnDbf | DbfNameTruncation | TimestampTruncateOnDbf
    | TimestampTzOnDbf

  datatype PlanError = OnLossError(kind: LossKind, field: string) | UnsupportedType(field: string)
    | NamesExhausted(field: string)

  /** Arrow types, with those the writer does not know folded into `Other`. */
  datatype DataType =
    | Utf8 | LargeUtf8 | Boolean
    | Int8 | Int16 | Int32 | Int64 | UInt8 | UInt16 | UInt32
    | Float16 | Float32 | Float64
    | Decimal128(precision: U8, scale: I8)
    | Date32 | Date64 | Timestamp(tz: bool)
    | Binary | LargeBinary | FixedSizeBinary
    | Other

  datatype Field = Field(name: string, dataType: DataType)
  type Schema = seq<Field>

  datatype FieldMapping = Plan(kind: DbfFieldKind) | SkipColumn

  datatype DbfFieldPlan =
    DbfFieldPlan(inputIndex: nat, dataType: DataType, sourceName: string, dbfName: string, kind: DbfFieldKind)
  datatype DbfWritePlan = DbfWritePlan(fields: seq<DbfFieldPlan>, skipped: seq<string>)

  const DBF_NAME_MAX_BYTES: nat := 10
  const DBF_CHARACTER_DEFAULT_LEN: U8 := 254
  const DBF_NUMERIC_MAX_PRECISION: U8 := 18
  const LAST_SUFFIX: nat := 9999

  // ---------------------------------------------------------------------------
  // Types
  // ---------------------------------------------------------------------------

  /** `Ok(true)` goes on, `Ok(false)` drops the element, `Err` stops the writer. */
  function ApplyOnLoss(kind: LossKind, field: string, onLoss: OnLoss): Result<bool, PlanError> {
    match onLoss
    case Error => Err(OnLossError(kind, field))
    case Warn => Ok(true)
    case Skip => Ok(false)
  }

  function MapDecimal(p: U8, s: I8, field: string, onLoss: OnLoss): Result<DbfFieldKind, PlanError> {
    var scale: U8 := if s > 0 then s else 0;
    if p <= DBF_NUMERIC_MAX_PRECISION then
      Ok(Numeric(if p + 1 <= 20 then p + 1 else 20, scale))
    else
      var _ :- ApplyOnLoss(DecimalPrecisionOnDbf, field, onLoss);
      Ok(Numeric(DBF_NUMERIC_MAX_PRECISION, if scale <= 17 then scale else 17))
  }

  function MapArrowToDbf(field: Field, onLoss: OnLoss): Result<FieldMapping, PlanError> {
    match field.dataType
    case Utf8 | LargeUtf8 => Ok(Plan(Character(DBF_CHARACTER_DEFAULT_LEN)))
    case Boolean => Ok(Plan(Logical))
    case Int8 | Int16 | Int32 | UInt8 | UInt16 => Ok(Plan(Numeric(11, 0)))
    case Int64 | UInt32 => Ok(Plan(Numeric(18, 0)))
    case Float16 | Float32 | Float64 => Ok(Plan(Float(19, 6)))
    case Decimal128(p, s) =>
      var kind :- MapDecimal(p, s, field.name, onLoss);
      Ok(Plan(kind))
    case Date32 | Date64 => Ok(Plan(Date))
    case Timestamp(tz) =>
      var goOn :- if tz then ApplyOnLoss(TimestampTzOnDbf, field.name, onLoss) else Ok(true);
      if !goOn then Ok(SkipColumn) else
      var goOn :- ApplyOnLoss(TimestampTruncateOnDbf, field.name, onLoss);
      if !goOn then Ok(SkipColumn) else Ok(Plan(Date))
    case Binary | LargeBinary | FixedSizeBinary =>
      var _ :- ApplyOnLoss(BinaryOnShp, field.name, onLoss);
      Ok(SkipColumn)
    case Other =>
      if onLoss == Error then Err(UnsupportedType(field.name)) else Ok(SkipColumn)
  }

  predicate Unwritable(t: DataType) {
    t.Binary? || t.LargeBinary? || t.FixedSizeBinary? || t.Other?
  }

  predicate LossyType(t: DataType) {
    t.Timestamp? || Unwritable(t) || (t.Decimal128? && t.precision > 18)
  }

  /**
    The policy decides alone: a lossy type stops the writer under `Error` and only there; columns
    are dropped only under the two other policies, unwritable types under both and timestamps only
    under `Skip`. A decimal that is too wide is never dropped, not even under `Skip`.
   */
  lemma MappingOutcome(field: Field, onLoss: OnLoss)
    ensures MapArrowToDbf(field, onLoss).Err? <==> onLoss == Error && LossyType(field.dataType)
    ensures MapArrowToDbf(field, onLoss) == Ok(SkipColumn)
      <==> onLoss != Error && (Unwritable(field.dataType) || (field.dataType.Timestamp? && onLoss == Skip))
  {
  }

  predicate WellSized(k: DbfFieldKind) {
    match k
    case Character(n) => 1 <= n <= 254
    case Numeric(n, d) => 1 <= n <= 19 && d < n
    case Float(n, d) => 1 <= n <= 19 && d < n
    case Logical | Date => true
  }

  /** Declared width and decimals are a legal pair exactly when Arrow's scale is within its precision. */
  lemma MappingFits(field: Field, onLoss: OnLoss)
    requires MapArrowToDbf(field, onLoss).Ok? && MapArrowToDbf(field, onLoss).value.Plan?
    ensures WellSized(MapArrowToDbf(field, onLoss).value.kind)
      <==> (field.dataType.Decimal128? && field.dataType.precision <= 18
            ==> field.dataType.scale <= field.dataType.precision)
  {
  }

  /** The values of an integer column. */
  predicate InRange(t: DataType, v: int) {
    match t
    case Int8 => -0x80 <= v < 0x80
    case Int16 => -0x8000 <= v < 0x8000
    case Int32 => -0x8000_0000 <= v < 0x8000_0000
    case Int64 => -0x8000_0000_0000_0000 <= v < 0x8000_0000_0000_0000
    case UInt8 => 0 <= v < 0x100
    case UInt16 => 0 <= v < 0x1_0000
    case UInt32 => 0 <= v < 0x1_0000_0000
    case _ => false
  }

  lemma PowersUpTo18()
    ensures Pow10(10) == 10_000_000_000 && Pow10(11) == 100_000_000_000
    ensures Pow10(17) == 100_000_000_000_000_000 && Pow10(18) == 1_000_000_000_000_000_000
  {
  }

  /**
    The declared width holds the decimal text of every integer of the column, except that an Int64
    column has 18 places and its extreme values need 19 or 20.
   */
  lemma IntegersFit(field: Field, onLoss: OnLoss, v: int)
    requires InRange(field.dataType, v)
    ensures MapArrowToDbf(field, onLoss).Ok? && MapArrowToDbf(field, onLoss).value.Plan? &&
            MapArrowToDbf(field, onLoss).value.kind.Numeric?
    ensures |ToString(v)| <= MapArrowToDbf(field, onLoss).value.kind.length
            <==> (field.dataType == Int64 ==> -100_000_000_000_000_000 < v < 1_000_000_000_000_000_000)
  {
    PowersUpTo18();
    ToStringLength(v, MapArrowToDbf(field, onLoss).value.kind.length);
  }

  /** Which numbers a numeric field can hold; `v` counts units of its last decimal. */
  predicate Holds(width: nat, decimals: nat, v: int) {
    if decimals == 0 then |ToString(v)| <= width
    else if v >= 0 then decimals + 2 <= width && v < Pow10(width - 1)
    else decimals + 3 <= width && -v < Pow10(width - 2)
  }

  lemma TextFits(width: nat, decimals: nat, v: int)
    ensures |DecimalText.Text(v, decimals)| <= width <==> Holds(width, decimals, v)
  {
    if decimals > 0 {
      DecimalText.MagnitudeLength(Abs(v), decimals);
      if width > 1 {
        DecimalLength(Abs(v), width - 1);
      }
      if width > 2 {
        DecimalLength(Abs(v), width - 2);
      }
    }
  }

  function DeclaredWidth(p: U8): nat {
    if p <= 18 then p + 1 else 18
  }

  function DeclaredDecimals(p: U8, s: I8): nat {
    if s <= 0 then 0 else if p > 18 && s > 17 then 17 else s
  }

  /**
    The width declared for a decimal column has one place for sign and point together, and a column
    of more than 18 digits gets 18 places. Which values fit is this, `v` in units of the last
    declared decimal: with decimals, none at all when they leave no place for a zero and a point.
   */
  lemma DecimalsFit(field: Field, onLoss: OnLoss, v: int)
    requires field.dataType.Decimal128?
    requires field.dataType.precision <= 18 || onLoss != Error
    ensures MapArrowToDbf(field, onLoss).Ok? && MapArrowToDbf(field, onLoss).value.Plan?
    ensures var p, s, kind := field.dataType.precision, field.dataType.scale, MapArrowToDbf(field, onLoss).value.kind;
            var w, d := DeclaredWidth(p), DeclaredDecimals(p, s);
            && kind == Numeric(w, d)
            && (|DecimalText.Text(v, d)| <= w <==> Holds(w, d, v))
            && (|DecimalText.Text(v, d)| <= w ==> d == 0 || d + 2 <= w)
  {
    var Decimal128(precision, scale) := field.dataType;
    TextFits(DeclaredWidth(precision), DeclaredDecimals(precision, scale), v);
  }

  /** The columns whose field holds no number, not even 0: decimals that fill the precision, or 17 and more of them. */
  lemma UselessColumns(p: U8, s: I8)
    requires p > 0
    ensures (forall v :: !Holds(DeclaredWidth(p), DeclaredDecimals(p, s), v))
            <==> if p <= 18 then 0 < s && s >= p else s >= 17
  {
    var w, d := DeclaredWidth(p), DeclaredDecimals(p, s);
    if d == 0 || d + 2 <= w {
      assert Decimal(0) == [Digit(0)] && Pow10(0) == 1;
      assert Holds(w, d, 0);
    }
  }

  /** Within its precision: what a column of at most 18 digits loses. */
  lemma NarrowDecimalsFit(p: U8, s: I8, v: int)
    requires 0 <= s <= p <= 18 && 0 < p && -(Pow10(p) as int) < v < Pow10(p)
    ensures Holds(DeclaredWidth(p), DeclaredDecimals(p, s), v)
            <==> s == 0 || (v >= 0 && s < p) || (v < 0 && s + 2 <= p && -v < Pow10(p - 1))
  {
    ToStringLength(v, p + 1);
    Pow10Grows(p, p + 1);
  }

  // ---------------------------------------------------------------------------
  // What the planned fields store
  // ---------------------------------------------------------------------------

  /**
    A value of a column: decimals in units of their scale, floats in millionths, dates in days or
    milliseconds and timestamps in microseconds from 1970.
   */
  datatype Value = TextValue(text: string) | TruthValue(truth: bool) | IntValue(n: int)

  predicate InColumn(t: DataType, v: Value) {
    match t
    case Utf8 | LargeUtf8 => v.TextValue?
    case Boolean => v.TruthValue?
    case Int8 | Int16 | Int32 | Int64 | UInt8 | UInt16 | UInt32 => v.IntValue? && InRange(t, v.n)
    case Float16 | Float32 | Float64 | Decimal128(_, _) | Date32 | Date64 | Timestamp(_) => v.IntValue?
    case Binary | LargeBinary | FixedSizeBinary | Other => false
  }

  /** What the value says; of a timestamp, its date. */
  function Meaning(t: DataType, v: Value): Content
    requires InColumn(t, v)
  {
    match t
    case Utf8 | LargeUtf8 => TextContent(v.text)
    case Boolean => TruthContent(v.truth)
    case Int8 | Int16 | Int32 | Int64 | UInt8 | UInt16 | UInt32 => NumberContent(v.n, 0)
    case Float16 | Float32 | Float64 => NumberContent(v.n, 6)
    case Decimal128(_, s) => NumberContent(v.n, s)
    case Date32 => DayContent(v.n)
    case Date64 => DayContent(v.n / 86_400_000)
    case Timestamp(_) => DayContent(v.n / 86_400_000_000)
  }

  /** The values that are stored as they are; for a timestamp, that keep their date. */
  predicate Kept(t: DataType, v: Value)
    requires InColumn(t, v)
  {
    match t
    case Utf8 | LargeUtf8 => ByteLen(v.text) <= 254
    case Boolean | Int8 | Int16 | Int32 | UInt8 | UInt16 | UInt32 => true
    case Int64 => -100_000_000_000_000_000 < v.n < 1_000_000_000_000_000_000
    case Float16 | Float32 | Float64 => -100_000_000_000_000_000 < v.n < 1_000_000_000_000_000_000
    case Decimal128(p, s) =>
      Holds(DeclaredWidth(p), DeclaredDecimals(p, s), if s >= 0 then v.n else v.n * Pow10(-(s as int)))
    case Date32 => FIRST_DAY <= v.n <= LAST_DAY
    case Date64 => FIRST_DAY <= v.n / 86_400_000 <= LAST_DAY
    case Timestamp(_) => FIRST_DAY <= v.n / 86_400_000_000 <= LAST_DAY
  }

  lemma Positive(x: nat, y: nat)
    requires x > 0 && y > 0
    ensures x * y > 0
  {
  }

  lemma TimesPower(a: int, b: int, k: nat)
    ensures a * Pow10(k) == b * Pow10(k) <==> a == b
  {
    if a < b {
      Positive(b - a, Pow10(k));
      assert b * Pow10(k) == a * Pow10(k) + (b - a) * Pow10(k);
    } else if b < a {
      Positive(a - b, Pow10(k));
      assert a * Pow10(k) == b * Pow10(k) + (a - b) * Pow10(k);
    }
  }

  /** A numeric field with the decimals of the number, or with none and a number without any. */
  lemma NumberKept(kind: DbfFieldKind, n: int, s: int)
    requires kind.Numeric? || kind.Float?
    requires kind.decimals == if s > 0 then s else 0
    ensures Stores(kind, NumberContent(n, s)) <==>
            Holds(kind.length, kind.decimals, if s >= 0 then n else n * Pow10(-s))
  {
    var u := if s >= 0 then n else n * Pow10(-s);
    forall w ensures SameNumber(w, kind.decimals, n, s) <==> w == u {
      if s >= 0 {
        TimesPower(w, n, s);
      }
    }
    TextFits(kind.length, kind.decimals, u);
    assert TextStored(kind.length, kind.decimals, n, s, u) <==> Holds(kind.length, kind.decimals, u);
  }

  /** A field that leaves no place for a digit in front of its decimals stores no number. */
  lemma NothingKept(length: nat, decimals: nat, n: int, s: int, u: int)
    requires 0 < decimals && length < decimals + 2
    ensures !TextStored(length, decimals, n, s, u)
  {
    TextFits(length, decimals, u);
  }

  lemma NumbersKept(field: Field, onLoss: OnLoss, v: Value)
    requires InColumn(field.dataType, v) && Meaning(field.dataType, v).NumberContent?
    requires MapArrowToDbf(field, onLoss).Ok? && MapArrowToDbf(field, onLoss).value.Plan?
    ensures Stores(MapArrowToDbf(field, onLoss).value.kind, Meaning(field.dataType, v)) <==> Kept(field.dataType, v)
  {
    var t, kind := field.dataType, MapArrowToDbf(field, onLoss).value.kind;
    if t.Decimal128? {
      if t.precision > 18 && t.scale > 17 {
        forall u ensures !TextStored(18, 17, v.n, t.scale, u) {
          NothingKept(18, 17, v.n, t.scale, u);
        }
      } else {
        NumberKept(kind, v.n, t.scale);
      }
    } else if t.Float16? || t.Float32? || t.Float64? {
      NumberKept(kind, v.n, 6);
      PowersUpTo18();
    } else {
      NumberKept(kind, v.n, 0);
      IntegersFit(field, onLoss, v.n);
      assert v.n * Pow10(0) == v.n;
    }
  }

  /** For every column that is planned: exactly which of its values the planned field stores as they are. */
  lemma PlannedStores(field: Field, onLoss: OnLoss, v: Value)
    requires InColumn(field.dataType, v)
    requires MapArrowToDbf(field, onLoss).Ok? && MapArrowToDbf(field, onLoss).value.Plan?
    ensures Stores(MapArrowToDbf(field, onLoss).value.kind, Meaning(field.dataType, v)) <==> Kept(field.dataType, v)
  {
    var m := Meaning(field.dataType, v);
    if m.NumberContent? {
      NumbersKept(field, onLoss, v);
    } else if m.DayContent? {
      DaysStored(m.days);
    }
  }

  /** The types and kinds of field that `arrow_value_to_dbf` has a branch for. */
  predicate HasBranch(t: DataType, kind: DbfFieldKind) {
    match t
    case Utf8 | LargeUtf8 => kind.Character?
    case Boolean => kind.Logical?
    case Int8 | Int16 | Int32 | Int64 | UInt8 | UInt16 | UInt32 | Decimal128(_, _) => kind.Numeric?
    case Float16 | Float32 | Float64 => kind.Float?
    case Date32 | Date64 => kind.Date?
    case Timestamp(_) | Binary | LargeBinary | FixedSizeBinary | Other => false
  }

  /** The row writer takes the values of every planned column but one of timestamps: there it fails. */
  lemma PlannedIsWritten(field: Field, onLoss: OnLoss)
    requires MapArrowToDbf(field, onLoss).Ok? && MapArrowToDbf(field, onLoss).value.Plan?
    ensures HasBranch(field.dataType, MapArrowToDbf(field, onLoss).value.kind) <==> !field.dataType.Timestamp?
  {
  }

  // ---------------------------------------------------------------------------
  // Names
  // ---------------------------------------------------------------------------

  lemma DecimalWidth(n: nat)
    requires n <= LAST_SUFFIX
    ensures |Decimal(n)| == if n < 10 then 1 else if n < 100 then 2 else if n < 1000 then 3 else 4
  {
  }

  lemma {:induction false} ByteLenConcat(s: string, t: string)
    ensures ByteLen(s + t) == ByteLen(s) + ByteLen(t)
  {
    if t == [] {
      assert s + t == s;
    } else {
      ByteLenConcat(s, t[..|t| - 1]);
      assert (s + t)[..|s + t| - 1] == s + t[..|t| - 1];
    }
  }

  /** The name tried with suffix `n`. */
  function Candidate(base: string, n: nat): string {
    Truncated(base, SaturatingSub(DBF_NAME_MAX_BYTES, |Decimal(n)|)) + Decimal(n)
  }

  lemma CandidateFits(base: string, n: nat)
    requires n <= LAST_SUFFIX
    ensures ByteLen(Candidate(base, n)) <= DBF_NAME_MAX_BYTES
  {
    DecimalWidth(n);
    DecimalIsAscii(n);
    ByteLenConcat(Truncated(base, DBF_NAME_MAX_BYTES - |Decimal(n)|), Decimal(n));
  }

  /** Candidates with four-digit suffixes are pairwise different: they share the six-byte stem. */
  lemma FourDigitsDistinct(base: string, m: nat, n: nat)
    requires 1000 <= m <= LAST_SUFFIX && 1000 <= n <= LAST_SUFFIX && Candidate(base, m) == Candidate(base, n)
    ensures m == n
  {
    DecimalWidth(m);
    DecimalWidth(n);
    var stem := Truncated(base, 6);
    assert Candidate(base, m)[|stem|..] == Decimal(m) && Candidate(base, n)[|stem|..] == Decimal(n);
    DecimalUnique(m, n);
  }

  function Images(f: nat -> string, lo: nat, hi: nat): (names: set<string>)
    requires lo <= hi
    decreases hi - lo
  {
    if lo == hi then {} else Images(f, lo + 1, hi) + {f(lo)}
  }

  lemma {:induction false} ImagesAre(f: nat -> string, lo: nat, hi: nat, name: string)
    requires lo <= hi && name in Images(f, lo, hi)
    ensures exists n: nat :: lo <= n < hi && f(n) == name
    decreases hi - lo
  {
    if name != f(lo) {
      ImagesAre(f, lo + 1, hi, name);
    }
  }

  ghost predicate InjectiveOn(f: nat -> string, lo: nat, hi: nat) {
    forall m: nat, n: nat :: lo <= m < hi && lo <= n < hi && f(m) == f(n) ==> m == n
  }

  lemma {:induction false} ImagesCount(f: nat -> string, lo: nat, hi: nat)
    requires lo <= hi && InjectiveOn(f, lo, hi)
    ensures |Images(f, lo, hi)| == hi - lo
    decreases hi - lo
  {
    if lo < hi {
      ImagesCount(f, lo + 1, hi);
      if f(lo) in Images(f, lo + 1, hi) {
        ImagesAre(f, lo + 1, hi, f(lo));
      }
    }
  }

  ghost predicate TakenUpTo(base: string, used: set<string>, n: nat) {
    forall m: nat :: 1 <= m < n ==> Candidate(base, m) in used
  }

  ghost predicate AllTaken(base: string, used: set<string>) {
    base in used && TakenUpTo(base, used, LAST_SUFFIX + 1)
  }

  lemma SubsetCount<T>(a: set<T>, b: set<T>)
    requires a <= b
    ensures |a| <= |b|
  {
    assert b == a + (b - a);
  }

  /**
    Suffixes of different lengths can spell the same name, but the 9000 four-digit ones cannot: the
    search only runs dry when at least that many names are taken.
   */
  lemma NamesNeverRunOut(base: string, used: set<string>)
    requires AllTaken(base, used)
    ensures |used| >= 9000
  {
    var f: nat -> string := (n: nat) => Candidate(base, n);
    var lo, hi := 1000, LAST_SUFFIX + 1;
    forall m: nat, n: nat | lo <= m < hi && lo <= n < hi && f(m) == f(n) ensures m == n {
      FourDigitsDistinct(base, m, n);
    }
    ImagesCount(f, lo, hi);
    forall name <- Images(f, lo, hi) ensures name in used {
      ImagesAre(f, lo, hi, name);
    }
    SubsetCount(Images(f, lo, hi), used);
  }

  ghost predicate Shortened(original: string, onLoss: OnLoss) {
    ByteLen(original) > DBF_NAME_MAX_BYTES && onLoss == Error
  }

  ghost predicate NumberedAt(base: string, used: set<string>, name: string, n: nat) {
    1 <= n <= LAST_SUFFIX && name == Candidate(base, n) && TakenUpTo(base, used, n)
  }

  /** `base` itself when it is free, else its first free numbered variant. */
  ghost predicate FirstFree(base: string, used: set<string>, name: string) {
    name == base || (base in used && exists n: nat :: NumberedAt(base, used, name, n))
  }

  lemma TakenStep(base: string, used: set<string>, n: nat)
    requires 1 <= n <= LAST_SUFFIX && TakenUpTo(base, used, n)
    ensures TakenUpTo(base, used, n + 1) <==> Candidate(base, n) in used
    ensures TakenUpTo(base, used, LAST_SUFFIX + 1) ==> Candidate(base, n) in used
  {
  }

  method MakeCandidate(base: string, n: nat) returns (candidate: string)
    requires n <= LAST_SUFFIX
    ensures candidate == Candidate(base, n) && ByteLen(candidate) <= DBF_NAME_MAX_BYTES
  {
    var suffix := Decimal(n);
    var trimmed := TruncateAtCharBoundary(base, SaturatingSub(DBF_NAME_MAX_BYTES, |suffix|));
    candidate := trimmed + suffix;
    CandidateFits(base, n);
  }

  /** The numbered variants in turn. */
  method FindSuffix(base: string, used: set<string>) returns (r: Option<string>)
    ensures r.Some? ==> r.value !in used && ByteLen(r.value) <= DBF_NAME_MAX_BYTES
    ensures r.Some? ==> exists n: nat :: NumberedAt(base, used, r.value, n)
    ensures r.Some? <==> !TakenUpTo(base, used, LAST_SUFFIX + 1)
  {
    var n := 1;
    while n <= LAST_SUFFIX
      invariant 1 <= n <= LAST_SUFFIX + 1 && TakenUpTo(base, used, n)
    {
      var candidate := MakeCandidate(base, n);
      TakenStep(base, used, n);
      if candidate !in used {
        assert NumberedAt(base, used, candidate, n);
        return Some(candidate);
      }
      n := n + 1;
    }
    return None;
  }

  /**
    A number leaves the name whole if and only if there is room for it. Otherwise the name is cut, and
    this cut is not reported, not even under the `Error` policy.
   */
  lemma NumberCuts(original: string, n: nat)
    requires n <= LAST_SUFFIX
    ensures Candidate(original, n) == original + Decimal(n) <==> ByteLen(original) + |Decimal(n)| <= DBF_NAME_MAX_BYTES
  {
    DecimalWidth(n);
    var room := DBF_NAME_MAX_BYTES - |Decimal(n)|;
    assert |Candidate(original, n)| == |Truncated(original, room)| + |Decimal(n)|;
  }

  lemma NoRoomToExtend(original: string, name: string)
    requires original <= name && ByteLen(name) <= ByteLen(original)
    ensures name == original
  {
    LengthGrows(name, |original|);
  }

  /**
    `pick_dbf_name`: the first ten bytes of the original name when they are free, else the first
    free numbered variant. Only the `Error` policy and 9000 taken names can keep it from choosing.
   */
  method PickDbfName(original: string, used: set<string>, onLoss: OnLoss) returns (r: Result<string, PlanError>)
    ensures r.Ok? ==> r.value !in used && ByteLen(r.value) <= DBF_NAME_MAX_BYTES
    ensures r.Ok? ==> FirstFree(Truncated(original, DBF_NAME_MAX_BYTES), used, r.value)
    ensures r.Ok? <==> !Shortened(original, onLoss) && !AllTaken(Truncated(original, DBF_NAME_MAX_BYTES), used)
    ensures r.Err? ==>
            r.error == if Shortened(original, onLoss) then OnLossError(DbfNameTruncation, original)
                       else NamesExhausted(original)
    ensures |used| < 9000 ==> (r.Ok? <==> !Shortened(original, onLoss))
    ensures r.Ok? && ByteLen(original) == DBF_NAME_MAX_BYTES ==> (original <= r.value <==> original !in used)
  {
    if AllTaken(Truncated(original, DBF_NAME_MAX_BYTES), used) {
      NamesNeverRunOut(Truncated(original, DBF_NAME_MAX_BYTES), used);
    }
    if ByteLen(original) <= DBF_NAME_MAX_BYTES && original !in used {
      return Ok(original);
    }
    if ByteLen(original) > DBF_NAME_MAX_BYTES {
      var _ :- ApplyOnLoss(DbfNameTruncation, original, onLoss);
    }
    var base := TruncateAtCharBoundary(original, DBF_NAME_MAX_BYTES);
    if base !in used {
      return Ok(base);
    }
    var found := FindSuffix(base, used);
    match found
    case Some(name) =>
      if ByteLen(original) == DBF_NAME_MAX_BYTES && original <= name {
        NoRoomToExtend(original, name);
      }
      return Ok(name);
    case None => return Err(NamesExhausted(original));
  }

  lemma {:induction false} AsciiTruncated(s: string, k: nat)
    requires ByteLen(s) == |s| && k <= |s|
    ensures Truncated(s, k) == s[..k]
  {
    if k == |s| {
      assert s[..k] == s;
    } else {
      LengthGrows(s, |s| - 1);
      LengthGrows(s[..|s| - 1], 0);
      AsciiTruncated(s[..|s| - 1], k);
      assert s[..|s| - 1][..k] == s[..k];
    }
  }

  lemma FirstCut(name: string)
    requires name == "ABCDEFGHIJ"
    ensures ByteLen(name) == 10 && Truncated(name, 10) == name && Candidate(name, 1) == "ABCDEFGHI1"
  {
    AsciiLength(name);
    AsciiTruncated(name, 9);
    AsciiTruncated(name, 10);
  }

  /** The second of two columns of one ten-byte name is cut without an error. */
  method CutWithoutError() returns (r: Result<string, PlanError>)
    ensures r == Ok("ABCDEFGHI1")
  {
    var name, used := "ABCDEFGHIJ", {"ABCDEFGHIJ"};
    FirstCut(name);
    r := PickDbfName(name, used, Error);
    ghost var n: nat :| NumberedAt(name, used, r.value, n);
    assert n == 1;
  }

  lemma {:induction false} ImagesHave(f: nat -> string, lo: nat, hi: nat, n: nat)
    requires lo <= n < hi
    ensures f(n) in Images(f, lo, hi)
    decreases hi - lo
  {
    if lo < n {
      ImagesHave(f, lo + 1, hi, n);
    }
  }

  lemma TwoDigits(a: nat, b: nat, n: nat)
    requires 1 <= a < 10 && b < 10 && n == 10 * a + b
    ensures Decimal(n) == [Digit(a), Digit(b)]
  {
  }

  lemma ThreeDigits(a: nat, b: nat, c: nat, n: nat)
    requires 1 <= a < 10 && b < 10 && c < 10 && n == 10 * (10 * a + b) + c
    ensures Decimal(n) == [Digit(a), Digit(b), Digit(c)]
  {
    var m := 10 * a + b;
    TwoDigits(a, b, m);
    DecimalStep(m, c);
  }

  lemma FourDigits(k: nat, a: nat, b: nat, c: nat, n: nat)
    requires 1 <= k < 10 && a < 10 && b < 10 && c < 10 && n == 10 * (10 * (10 * k + a) + b) + c
    ensures Decimal(n) == [Digit(k), Digit(a), Digit(b), Digit(c)]
  {
    var m := 10 * (10 * k + a) + b;
    ThreeDigits(k, a, b, m);
    DecimalStep(m, c);
  }

  /** Four digits are a leading digit and, padded with zeros, the decimal form of the rest. */
  lemma DecimalPadded(k: nat, a: nat, b: nat, c: nat, n: nat, m: nat)
    requires 1 <= k < 10 && a < 10 && b < 10 && c < 10
    requires n == 10 * (10 * a + b) + c && m == 10 * (10 * (10 * k + a) + b) + c
    ensures Decimal(m) == [Digit(k), Digit(a), Digit(b), Digit(c)]
    ensures Decimal(n) == if a > 0 then [Digit(a), Digit(b), Digit(c)]
                          else if b > 0 then [Digit(b), Digit(c)]
                          else [Digit(c)]
  {
    FourDigits(k, a, b, c, m);
    if a > 0 {
      ThreeDigits(a, b, c, n);
    } else if b > 0 {
      TwoDigits(b, c, n);
    }
  }

  /** A ten-byte name that ends in a multiple of one thousand. */
  predicate Awkward(base: string, k: nat) {
    1 <= k < 10 && |base| == DBF_NAME_MAX_BYTES == ByteLen(base) &&
    base[6..] == [Digit(k), Digit(0), Digit(0), Digit(0)]
  }

  lemma AwkwardPrefix(base: string, k: nat, i: nat)
    requires Awkward(base, k) && 6 <= i <= 10
    ensures base[..i] == base[..6] + [Digit(k), Digit(0), Digit(0), Digit(0)][..i - 6]
  {
    assert base[..i] == base[..6] + base[6..][..i - 6];
  }

  lemma PaddedCollides(base: string, k: nat, a: nat, b: nat, c: nat, n: nat, m: nat)
    requires Awkward(base, k) && a < 10 && b < 10 && c < 10
    requires n == 10 * (10 * a + b) + c && m == 10 * (10 * (10 * k + a) + b) + c
    ensures Candidate(base, n) == Candidate(base, m) == base[..6] + Decimal(m)
  {
    DecimalPadded(k, a, b, c, n, m);
    AsciiTruncated(base, 6);
    AsciiTruncated(base, 10 - |Decimal(n)|);
    AwkwardPrefix(base, k, 10 - |Decimal(n)|);
  }

  lemma AwkwardCollides(base: string, k: nat, n: nat)
    requires Awkward(base, k) && n < 1000
    ensures Candidate(base, n) == Candidate(base, 1000 * k + n)
  {
    PaddedCollides(base, k, n / 100, n / 10 % 10, n % 10, n, 1000 * k + n);
  }

  lemma AwkwardIsCandidate(base: string, k: nat, m: nat, z: nat)
    requires Awkward(base, k) && z == 0 && m == 1000 * k
    ensures Candidate(base, m) == base
  {
    PaddedCollides(base, k, z, z, z, z, m);
    DecimalPadded(k, z, z, z, z, m);
    assert base == base[..6] + base[6..];
  }

  lemma FourDigitNames(f: nat -> string, base: string, lo: nat, hi: nat)
    requires forall n: nat :: f(n) == Candidate(base, n)
    requires lo == 1000 && hi == LAST_SUFFIX + 1
    ensures |Images(f, lo, hi)| == 9000
  {
    forall m: nat, n: nat | lo <= m < hi && lo <= n < hi && f(m) == f(n) ensures m == n {
      FourDigitsDistinct(base, m, n);
    }
    ImagesCount(f, lo, hi);
  }

  lemma AwkwardTaken(f: nat -> string, base: string, k: nat, lo: nat, hi: nat, n: nat)
    requires forall m: nat :: f(m) == Candidate(base, m)
    requires Awkward(base, k) && lo == 1000 && n < hi == LAST_SUFFIX + 1
    ensures Candidate(base, n) in Images(f, lo, hi)
  {
    if n < 1000 {
      AwkwardCollides(base, k, n);
      ImagesHave(f, lo, hi, 1000 * k + n);
    } else {
      ImagesHave(f, lo, hi, n);
    }
  }

  /**
    The bound is sharp: for a column called, say, FIELDS1000, 9000 taken names defeat the search,
    although it tries 10000 spellings.
   */
  lemma NineThousandCanBlock(base: string, k: nat)
    requires Awkward(base, k)
    ensures exists used: set<string> :: |used| == 9000 && AllTaken(base, used)
  {
    var f: nat -> string := (n: nat) => Candidate(base, n);
    var lo, hi := 1000, LAST_SUFFIX + 1;
    var used := Images(f, lo, hi);
    FourDigitNames(f, base, lo, hi);
    assert TakenUpTo(base, used, hi) by {
      forall n: nat | 1 <= n < hi ensures Candidate(base, n) in used {
        AwkwardTaken(f, base, k, lo, hi, n);
      }
    }
    AwkwardTaken(f, base, k, lo, hi, 1000 * k);
    AwkwardIsCandidate(base, k, 1000 * k, 0);
    assert AllTaken(base, used);
  }

  // ---------------------------------------------------------------------------
  // The plan
  // ---------------------------------------------------------------------------

  /** The column is an attribute, and the policy refuses its type or its name. */
  predicate Aborts(schema: Schema, geometry: Option<nat>, onLoss: OnLoss, i: nat)
    requires i < |schema|
  {
    geometry != Some(i) && onLoss == Error &&
    (LossyType(schema[i].dataType) || ByteLen(schema[i].name) > DBF_NAME_MAX_BYTES)
  }

  /** The attribute columns among the first `n` that get a DBF field, in schema order. */
  function Written(schema: Schema, geometry: Option<nat>, onLoss: OnLoss, n: nat): (cols: seq<nat>)
    requires n <= |schema|
  {
    if n == 0 then [] else
      var before := Written(schema, geometry, onLoss, n - 1);
      if geometry != Some(n - 1) && MapArrowToDbf(schema[n - 1], onLoss) != Ok(SkipColumn) then before + [n - 1]
      else before
  }

  /** Those that do not. */
  function Dropped(schema: Schema, geometry: Option<nat>, onLoss: OnLoss, n: nat): (cols: seq<nat>)
    requires n <= |schema|
  {
    if n == 0 then [] else
      var before := Dropped(schema, geometry, onLoss, n - 1);
      if geometry != Some(n - 1) && MapArrowToDbf(schema[n - 1], onLoss) == Ok(SkipColumn) then before + [n - 1]
      else before
  }

  predicate Increasing(cols: seq<nat>) {
    forall i, j :: 0 <= i < j < |cols| ==> cols[i] < cols[j]
  }

  lemma IncreasingAppend(cols: seq<nat>, c: nat)
    requires Increasing(cols) && forall d <- cols :: d < c
    ensures Increasing(cols + [c])
  {
    forall i, j | 0 <= i < j < |cols| + 1 ensures (cols + [c])[i] < (cols + [c])[j] {
      assert cols[i] in cols;
    }
  }

  /** Every attribute column is in exactly one of the two lists, once, and both follow the schema. */
  lemma {:induction false} EachColumnOnce(schema: Schema, geometry: Option<nat>, onLoss: OnLoss, n: nat)
    requires n <= |schema|
    ensures Increasing(Written(schema, geometry, onLoss, n)) && Increasing(Dropped(schema, geometry, onLoss, n))
    ensures forall c: nat :: c in Written(schema, geometry, onLoss, n) ==>
            c < n && c !in Dropped(schema, geometry, onLoss, n)
    ensures forall c: nat :: c in Dropped(schema, geometry, onLoss, n) ==> c < n
    ensures forall c: nat :: c < n ==>
      ((c in Written(schema, geometry, onLoss, n) || c in Dropped(schema, geometry, onLoss, n)) <==>
       geometry != Some(c))
  {
    if n > 0 {
      EachColumnOnce(schema, geometry, onLoss, n - 1);
      IncreasingAppend(Written(schema, geometry, onLoss, n - 1), n - 1);
      IncreasingAppend(Dropped(schema, geometry, onLoss, n - 1), n - 1);
    }
  }

  /** Under the `Error` policy a plan never leaves a column out. */
  lemma {:induction false} ErrorPolicyDropsNothing(schema: Schema, geometry: Option<nat>, n: nat)
    requires n <= |schema|
    ensures Dropped(schema, geometry, Error, n) == []
  {
    if n > 0 {
      ErrorPolicyDropsNothing(schema, geometry, n - 1);
      MappingOutcome(schema[n - 1], Error);
    }
  }

  predicate FieldOf(schema: Schema, onLoss: OnLoss, f: DbfFieldPlan) {
    && f.inputIndex < |schema|
    && f.sourceName == schema[f.inputIndex].name && f.dataType == schema[f.inputIndex].dataType
    && MapArrowToDbf(schema[f.inputIndex], onLoss) == Ok(Plan(f.kind))
    && ByteLen(f.dbfName) <= DBF_NAME_MAX_BYTES
  }

  predicate FieldsAre(schema: Schema, onLoss: OnLoss, fields: seq<DbfFieldPlan>, cols: seq<nat>) {
    |fields| == |cols| &&
    forall i :: 0 <= i < |fields| ==> FieldOf(schema, onLoss, fields[i]) && fields[i].inputIndex == cols[i]
  }

  predicate NamesAre(schema: Schema, names: seq<string>, cols: seq<nat>) {
    |names| == |cols| && forall i :: 0 <= i < |names| ==> cols[i] < |schema| && names[i] == schema[cols[i]].name
  }

  function NamesOf(fields: seq<DbfFieldPlan>): (names: set<string>)
    ensures |names| <= |fields|
    ensures forall i :: 0 <= i < |fields| ==> fields[i].dbfName in names
  {
    if fields == [] then {} else NamesOf(fields[..|fields| - 1]) + {fields[|fields| - 1].dbfName}
  }

  /** Each field has the first free spelling of its column's name, given the fields before it. */
  ghost predicate WellNamed(fields: seq<DbfFieldPlan>) {
    fields != [] ==>
      var before, f := fields[..|fields| - 1], fields[|fields| - 1];
      && WellNamed(before)
      && f.dbfName !in NamesOf(before)
      && FirstFree(Truncated(f.sourceName, DBF_NAME_MAX_BYTES), NamesOf(before), f.dbfName)
  }

  /** So no two fields share a name. */
  lemma {:induction false} NamesDistinct(fields: seq<DbfFieldPlan>, i: nat, j: nat)
    requires WellNamed(fields) && i < j < |fields|
    ensures fields[i].dbfName != fields[j].dbfName
  {
    var before := fields[..|fields| - 1];
    if j < |before| {
      NamesDistinct(before, i, j);
    } else {
      assert before[i] == fields[i];
    }
  }

  ghost predicate NoAbort(schema: Schema, geometry: Option<nat>, onLoss: OnLoss, n: nat)
    requires n <= |schema|
  {
    forall i: nat :: i < n ==> !Aborts(schema, geometry, onLoss, i)
  }

  ghost predicate FirstAbort(schema: Schema, geometry: Option<nat>, onLoss: OnLoss, i: nat) {
    i < |schema| && Aborts(schema, geometry, onLoss, i) && NoAbort(schema, geometry, onLoss, i)
  }

  /** The error of a refused column: that of its type, else that of its name. */
  function AbortError(field: Field, onLoss: OnLoss): PlanError {
    var mapping := MapArrowToDbf(field, onLoss);
    if mapping.Err? then mapping.error else OnLossError(DbfNameTruncation, field.name)
  }

  predicate NamesColumn(schema: Schema, geometry: Option<nat>, i: nat, error: PlanError) {
    i < |schema| && geometry != Some(i) && error.field == schema[i].name
  }

  ghost predicate RefusesFirst(schema: Schema, geometry: Option<nat>, onLoss: OnLoss, i: nat, error: PlanError) {
    FirstAbort(schema, geometry, onLoss, i) && error == AbortError(schema[i], onLoss)
  }

  /** The error names a column; up to 9000 columns, it is that of the first one the policy refuses. */
  ghost predicate Refused(schema: Schema, geometry: Option<nat>, onLoss: OnLoss, error: PlanError) {
    && (exists i: nat :: NamesColumn(schema, geometry, i, error))
    && (|schema| <= 9000 ==> exists i: nat :: RefusesFirst(schema, geometry, onLoss, i, error))
  }

  lemma TypeRefused(schema: Schema, geometry: Option<nat>, onLoss: OnLoss, i: nat)
    requires i < |schema| && geometry != Some(i) && NoAbort(schema, geometry, onLoss, i)
    requires MapArrowToDbf(schema[i], onLoss).Err?
    ensures Refused(schema, geometry, onLoss, MapArrowToDbf(schema[i], onLoss).error)
  {
    var error := MapArrowToDbf(schema[i], onLoss).error;
    MappingOutcome(schema[i], onLoss);
    assert NamesColumn(schema, geometry, i, error);
    assert RefusesFirst(schema, geometry, onLoss, i, error);
  }

  /** What the first `n` columns have come to. */
  ghost predicate PlannedUpTo(schema: Schema, geometry: Option<nat>, onLoss: OnLoss, n: nat, fields: seq<DbfFieldPlan>,
                              skipped: seq<string>)
    requires n <= |schema|
  {
    && FieldsAre(schema, onLoss, fields, Written(schema, geometry, onLoss, n))
    && NamesAre(schema, skipped, Dropped(schema, geometry, onLoss, n))
    && WellNamed(fields)
    && NoAbort(schema, geometry, onLoss, n)
  }

  lemma AbortStep(schema: Schema, geometry: Option<nat>, onLoss: OnLoss, n: nat)
    requires n < |schema| && NoAbort(schema, geometry, onLoss, n)
    requires geometry == Some(n) || (MapArrowToDbf(schema[n], onLoss).Ok? &&
                                     (onLoss == Error ==> ByteLen(schema[n].name) <= DBF_NAME_MAX_BYTES))
             || MapArrowToDbf(schema[n], onLoss) == Ok(SkipColumn)
    ensures NoAbort(schema, geometry, onLoss, n + 1)
  {
  }

  lemma NamesAppend(schema: Schema, names: seq<string>, cols: seq<nat>, c: nat)
    requires NamesAre(schema, names, cols) && c < |schema|
    ensures NamesAre(schema, names + [schema[c].name], cols + [c])
  {
  }

  lemma ColumnLeftOut(schema: Schema, geometry: Option<nat>, onLoss: OnLoss, n: nat, fields: seq<DbfFieldPlan>,
                      skipped: seq<string>)
    requires n < |schema| && PlannedUpTo(schema, geometry, onLoss, n, fields, skipped)
    requires geometry == Some(n) || MapArrowToDbf(schema[n], onLoss) == Ok(SkipColumn)
    ensures PlannedUpTo(schema, geometry, onLoss, n + 1, fields,
                        if geometry == Some(n) then skipped else skipped + [schema[n].name])
  {
    MappingOutcome(schema[n], onLoss);
    AbortStep(schema, geometry, onLoss, n);
    if geometry != Some(n) {
      NamesAppend(schema, skipped, Dropped(schema, geometry, onLoss, n), n);
    }
  }

  lemma FieldsAppend(schema: Schema, onLoss: OnLoss, fields: seq<DbfFieldPlan>, cols: seq<nat>, f: DbfFieldPlan)
    requires FieldsAre(schema, onLoss, fields, cols) && FieldOf(schema, onLoss, f)
    ensures FieldsAre(schema, onLoss, fields + [f], cols + [f.inputIndex])
  {
  }

  lemma WellNamedAppend(fields: seq<DbfFieldPlan>, f: DbfFieldPlan)
    requires WellNamed(fields) && f.dbfName !in NamesOf(fields)
    requires FirstFree(Truncated(f.sourceName, DBF_NAME_MAX_BYTES), NamesOf(fields), f.dbfName)
    ensures WellNamed(fields + [f]) && NamesOf(fields + [f]) == NamesOf(fields) + {f.dbfName}
  {
    assert (fields + [f])[..|fields|] == fields;
  }

  lemma ColumnWritten(schema: Schema, geometry: Option<nat>, onLoss: OnLoss, n: nat, fields: seq<DbfFieldPlan>,
                      skipped: seq<string>, f: DbfFieldPlan)
    requires n < |schema| && PlannedUpTo(schema, geometry, onLoss, n, fields, skipped)
    requires geometry != Some(n) && f.inputIndex == n && FieldOf(schema, onLoss, f) && f.dbfName !in NamesOf(fields)
    requires FirstFree(Truncated(f.sourceName, DBF_NAME_MAX_BYTES), NamesOf(fields), f.dbfName)
    requires onLoss == Error ==> ByteLen(schema[n].name) <= DBF_NAME_MAX_BYTES
    ensures PlannedUpTo(schema, geometry, onLoss, n + 1, fields + [f], skipped)
    ensures NamesOf(fields + [f]) == NamesOf(fields) + {f.dbfName}
  {
    AbortStep(schema, geometry, onLoss, n);
    FieldsAppend(schema, onLoss, fields, Written(schema, geometry, onLoss, n), f);
    WellNamedAppend(fields, f);
  }

  /** The field for a column that can be written. */
  method PlanColumn(schema: Schema, ghost geometry: Option<nat>, onLoss: OnLoss, idx: nat, kind: DbfFieldKind,
                    usedNames: set<string>, ghost fields: seq<DbfFieldPlan>, ghost skipped: seq<string>)
    returns (r: Result<DbfFieldPlan, PlanError>)
    requires idx < |schema| && geometry != Some(idx) && MapArrowToDbf(schema[idx], onLoss) == Ok(Plan(kind))
    requires PlannedUpTo(schema, geometry, onLoss, idx, fields, skipped) && |fields| <= idx &&
             usedNames == NamesOf(fields)
    ensures r.Ok? ==> PlannedUpTo(schema, geometry, onLoss, idx + 1, fields + [r.value], skipped)
    ensures r.Ok? ==> NamesOf(fields + [r.value]) == usedNames + {r.value.dbfName}
    ensures r.Err? ==> Refused(schema, geometry, onLoss, r.error)
  {
    var field := schema[idx];
    var picked := PickDbfName(field.name, usedNames, onLoss);
    if picked.Err? {
      assert NamesColumn(schema, geometry, idx, picked.error);
      assert |schema| <= 9000 ==> RefusesFirst(schema, geometry, onLoss, idx, picked.error);
      return Err(picked.error);
    }
    var planned := DbfFieldPlan(idx, field.dataType, field.name, picked.value, kind);
    ColumnWritten(schema, geometry, onLoss, idx, fields, skipped, planned);
    return Ok(planned);
  }

  /** The field stores the values of its column it can, and the row writer has a branch for them. */
  ghost predicate KeepsAt(f: DbfFieldPlan, v: Value) {
    && (InColumn(f.dataType, v) ==> (Stores(f.kind, Meaning(f.dataType, v)) <==> Kept(f.dataType, v)))
    && (HasBranch(f.dataType, f.kind) <==> !f.dataType.Timestamp?)
  }

  lemma FieldsKeep(schema: Schema, onLoss: OnLoss, fields: seq<DbfFieldPlan>, cols: seq<nat>)
    requires FieldsAre(schema, onLoss, fields, cols)
    ensures forall i, v :: 0 <= i < |fields| ==> KeepsAt(fields[i], v)
  {
    forall i, v | 0 <= i < |fields| ensures KeepsAt(fields[i], v) {
      var field := schema[fields[i].inputIndex];
      PlannedIsWritten(field, onLoss);
      if InColumn(field.dataType, v) {
        PlannedStores(field, onLoss, v);
      }
    }
  }

  /** The body of the loop: one attribute column becomes a field, a skipped name or the error. */
  method PlanNext(schema: Schema, ghost geometry: Option<nat>, onLoss: OnLoss, idx: nat, fields: seq<DbfFieldPlan>,
                  skipped: seq<string>, usedNames: set<string>)
    returns (r: Result<(), PlanError>, fields': seq<DbfFieldPlan>, skipped': seq<string>, usedNames': set<string>)
    requires idx < |schema| && geometry != Some(idx)
    requires PlannedUpTo(schema, geometry, onLoss, idx, fields, skipped)
    requires |fields| <= idx && usedNames == NamesOf(fields)
    ensures r.Ok? ==> PlannedUpTo(schema, geometry, onLoss, idx + 1, fields', skipped')
    ensures r.Ok? ==> |fields'| <= idx + 1 && usedNames' == NamesOf(fields')
    ensures r.Err? ==> Refused(schema, geometry, onLoss, r.error)
  {
    fields', skipped', usedNames' := fields, skipped, usedNames;
    var field := schema[idx];
    var mapping := MapArrowToDbf(field, onLoss);
    if mapping.Err? {
      TypeRefused(schema, geometry, onLoss, idx);
      r := Err(mapping.error);
      return;
    }
    match mapping.value {
      case SkipColumn =>
        ColumnLeftOut(schema, geometry, onLoss, idx, fields, skipped);
        skipped' := skipped + [field.name];
      case Plan(kind) =>
        var planned := PlanColumn(schema, geometry, onLoss, idx, kind, usedNames, fields, skipped);
        if planned.Err? {
          r := Err(planned.error);
          return;
        }
        usedNames' := usedNames + {planned.value.dbfName};
        fields' := fields + [planned.value];
    }
    r := Ok(());
  }

  /**
    `plan_dbf_writer_schema`. With up to 9000 columns it fails exactly when the policy refuses a
    column; a plan holds every attribute column once, as a field or as a skipped name, in schema
    order, and its field names are distinct and at most ten bytes long.
   */
  method PlanDbfWriterSchema(schema: Schema, geometry: Option<nat>, onLoss: OnLoss)
    returns (r: Result<DbfWritePlan, PlanError>)
    ensures r.Ok? ==> PlannedUpTo(schema, geometry, onLoss, |schema|, r.value.fields, r.value.skipped)
    ensures r.Ok? ==> forall i, v :: 0 <= i < |r.value.fields| ==> KeepsAt(r.value.fields[i], v)
    ensures r.Err? ==> Refused(schema, geometry, onLoss, r.error)
  {
    var fields: seq<DbfFieldPlan>, skipped: seq<string>, usedNames: set<string> := [], [], {};
    for idx := 0 to |schema|
      invariant PlannedUpTo(schema, geometry, onLoss, idx, fields, skipped)
      invariant |fields| <= idx && usedNames == NamesOf(fields)
    {
      if geometry == Some(idx) {
        ColumnLeftOut(schema, geometry, onLoss, idx, fields, skipped);
        continue;
      }
      var next;
      next, fields, skipped, usedNames := PlanNext(schema, geometry, onLoss, idx, fields, skipped, usedNames);
      if next.Err? { return Err(next.error); }
    }
    FieldsKeep(schema, onLoss, fields, Written(schema, geometry, onLoss, |schema|));
    return Ok(DbfWritePlan(fields, skipped));
  }
}
