/**
  The FlatGeobuf reader: rows read ahead to settle the types of DateTime columns, then batches from
  those rows and the rest of the file (crates/shpx-driver-fgb/src/reader.rs:87-339 and 366-484).
 */
module FgbBatches {
  import opened SequentialReader
  import opened Wrappers

  /** A property value; DateTime values are ISO 8601 text. */
  datatype Value = DateTime(text: string) | OtherValue

  datatype ColumnType = DateTimeColumn | OtherColumn

  /** The Arrow type the header declares, or the narrowed one. */
  datatype ArrowType = Declared | Date32

  datatype Feature = Feature(geometry: Option<seq<int>>, values: seq<Option<Value>>)

  datatype ReadError = IteratorError | FeatureError | ConversionError

  /** The file behind the feature iterator; `Broken` is a failing read or an unreadable feature. */
  type Source = seq<Item<Feature, ReadError>>

  predicate RowFits(columns: seq<ColumnType>, row: Feature) {
    |row.values| == |columns|
  }

  predicate AllFit(columns: seq<ColumnType>, rows: seq<Feature>) {
    forall i :: 0 <= i < |rows| ==> RowFits(columns, rows[i])
  }

  /** `collect_row` makes one slot for every column. */
  predicate SourceFits(columns: seq<ColumnType>, source: Source) {
    forall i :: 0 <= i < |source| && source[i].Row? ==> RowFits(columns, source[i].row)
  }

  // ---------------------------------------------------------------------------
  // Narrowing
  // ---------------------------------------------------------------------------

  /** What the code looks for: a value with neither a `T` nor a blank in it. */
  predicate NoTimeMark(v: Value) {
    v.DateTime? && 'T' !in v.text && ' ' !in v.text
  }

  predicate IsDigit(c: char) {
    '0' <= c <= '9'
  }

  /** A date without a time, `YYYY-MM-DD`. */
  predicate IsDate(v: Value) {
    && v.DateTime? && |v.text| == 10 && v.text[4] == '-' && v.text[7] == '-'
    && forall i :: 0 <= i < 10 && i != 4 && i != 7 ==> IsDigit(v.text[i])
  }

  /** Column `c` has values, and each of them passes the test. */
  ghost predicate OnlyValues(rows: seq<Feature>, c: nat, test: Value -> bool)
    requires forall i :: 0 <= i < |rows| ==> c < |rows[i].values|
  {
    && (exists i :: 0 <= i < |rows| && rows[i].values[c].Some?)
    && (forall i :: 0 <= i < |rows| && rows[i].values[c].Some? ==> test(rows[i].values[c].value))
  }

  lemma DatesHaveNoTimeMark(v: Value)
    requires IsDate(v)
    ensures NoTimeMark(v)
  {
    forall i | 0 <= i < 10 ensures v.text[i] != 'T' && v.text[i] != ' ' {
      assert IsDigit(v.text[i]) || v.text[i] == '-';
    }
  }

  /** Narrowing is right, the column being one of dates, if and only if all its unmarked values are dates. */
  lemma NarrowedRightly(rows: seq<Feature>, c: nat)
    requires forall i :: 0 <= i < |rows| ==> c < |rows[i].values|
    ensures OnlyValues(rows, c, IsDate) <==>
            OnlyValues(rows, c, NoTimeMark)
            && forall i :: 0 <= i < |rows| && rows[i].values[c].Some? && NoTimeMark(rows[i].values[c].value) ==>
                 IsDate(rows[i].values[c].value)
  {
    forall i | 0 <= i < |rows| && rows[i].values[c].Some? && IsDate(rows[i].values[c].value)
      ensures NoTimeMark(rows[i].values[c].value)
    {
      DatesHaveNoTimeMark(rows[i].values[c].value);
    }
  }

  /** The inner loop of `refine_arrow_types`. */
  method AllDatesOnly(rows: seq<Feature>, c: nat) returns (b: bool)
    requires forall i :: 0 <= i < |rows| ==> c < |rows[i].values|
    ensures b <==> OnlyValues(rows, c, NoTimeMark)
  {
    var allDatesOnly, sawAnyValue := true, false;
    for i := 0 to |rows|
      invariant allDatesOnly
      invariant sawAnyValue <==> exists k :: 0 <= k < i && rows[k].values[c].Some?
      invariant forall k :: 0 <= k < i && rows[k].values[c].Some? ==> NoTimeMark(rows[k].values[c].value)
    {
      match rows[i].values[c] {
        case Some(DateTime(s)) =>
          sawAnyValue := true;
          if 'T' in s || ' ' in s {
            allDatesOnly := false;
            break;
          }
        case Some(_) =>
          allDatesOnly := false;
          break;
        case None =>
      }
    }
    return sawAnyValue && allDatesOnly;
  }

  /** One value with an upper-case `T` or a blank keeps the column one of timestamps. */
  lemma TimestampsKept(rows: seq<Feature>, c: nat, i: nat, text: string)
    requires forall k :: 0 <= k < |rows| ==> c < |rows[k].values|
    requires i < |rows| && rows[i].values[c] == Some(DateTime(text)) && ('T' in text || ' ' in text)
    ensures !OnlyValues(rows, c, NoTimeMark)
  {
  }

  method RefineArrowTypes(columns: seq<ColumnType>, rows: seq<Feature>) returns (types: array<ArrowType>)
    requires AllFit(columns, rows)
    ensures fresh(types) && types.Length == |columns|
    ensures forall c :: 0 <= c < |columns| ==>
            (types[c] == Date32 <==> columns[c] == DateTimeColumn && OnlyValues(rows, c, NoTimeMark))
    ensures forall c, i, text | 0 <= c < |columns| && 0 <= i < |rows| ::
              rows[i].values[c] == Some(DateTime(text)) && ('T' in text || ' ' in text) ==> types[c] == Declared
  {
    types := new ArrowType[|columns|](_ => Declared);
    for c := 0 to |columns|
      invariant forall k :: 0 <= k < c ==>
                (types[k] == Date32 <==> columns[k] == DateTimeColumn && OnlyValues(rows, k, NoTimeMark))
      invariant forall k :: c <= k < |columns| ==> types[k] == Declared
    {
      if columns[c] != DateTimeColumn {
        continue;
      }
      var dates := AllDatesOnly(rows, c);
      if dates {
        types[c] := Date32;
      }
    }
    forall c, i, text | 0 <= c < |columns| && 0 <= i < |rows| && rows[i].values[c] == Some(DateTime(text))
      && ('T' in text || ' ' in text)
      ensures types[c] == Declared
    {
      TimestampsKept(rows, c, i, text);
    }
  }

  // ---------------------------------------------------------------------------
  // Opening
  // ---------------------------------------------------------------------------

  function Items(rows: seq<Feature>): (s: Source)
    ensures |s| == |rows|
  {
    seq(|rows|, i requires 0 <= i < |rows| => Item.Row(rows[i]))
  }

  lemma {:induction false} ItemsAreRows(source: Source, rows: seq<Feature>)
    requires source == Items(rows)
    ensures RowsOf(source) == rows && BreakOf(source).None?
  {
    if rows != [] {
      assert source[1..] == Items(rows[1..]);
      ItemsAreRows(source[1..], rows[1..]);
    }
  }

  /** The file can be read to its end, and every value of column `c` passes the test. */
  ghost predicate FileOnlyValues(columns: seq<ColumnType>, source: Source, c: nat, test: Value -> bool) {
    && BreakOf(source).None?
    && c < |columns| && AllFit(columns, RowsOf(source))
    && OnlyValues(RowsOf(source), c, test)
  }

  predicate BrokenWithin(source: Source, n: nat) {
    exists i :: 0 <= i < |source| && i < n && source[i].Broken?
  }

  /** The read-ahead of `open`, up to `sampleLimit` rows; it has to run into the end to notice it. */
  method Prefetch(source: Source, columns: seq<ColumnType>, sampleLimit: nat)
    returns (r: Result<(seq<Feature>, bool), ReadError>)
    requires sampleLimit > 0 && SourceFits(columns, source)
    ensures r.Err? <==> BrokenWithin(source, sampleLimit)
    ensures r.Ok? ==> var (buf, exhausted) := r.value;
                      && |buf| <= |source| && Items(buf) == source[..|buf|] && AllFit(columns, buf)
                      && (if exhausted then |buf| == |source| < sampleLimit else |source| >= sampleLimit == |buf|)
  {
    var buf: seq<Feature> := [];
    while true
      invariant |buf| < sampleLimit && |buf| <= |source| && Items(buf) == source[..|buf|] && AllFit(columns, buf)
      invariant forall i :: 0 <= i < |buf| ==> source[i].Row?
      decreases |source| - |buf|
    {
      if |buf| == |source| {
        return Ok((buf, true));
      }
      var next := source[|buf|];
      if next.Broken? {
        return Err(next.error);
      }
      ghost var before := buf;
      buf := buf + [next.row];
      assert Items(buf) == Items(before) + [next];
      if |buf| >= sampleLimit {
        return Ok((buf, false));
      }
    }
  }

  /** The opened file: what was read ahead, and the iterator unless it has already ended. */
  class FgbReader {
    var columns: seq<ColumnType>
    var types: seq<ArrowType>
    var sample: seq<Feature>
    var features: Option<Source>
    var rowCountHint: Option<nat>

    ghost function Rest(): Source
      reads this
    {
      Items(sample) + if features.Some? then features.value else []
    }

    constructor (columns: seq<ColumnType>, types: seq<ArrowType>, sample: seq<Feature>, features: Option<Source>,
                 rowCountHint: Option<nat>)
      ensures this.columns == columns && this.types == types && this.sample == sample && this.features == features
      ensures this.rowCountHint == rowCountHint
    {
      this.columns, this.types, this.sample := columns, types, sample;
      this.features, this.rowCountHint := features, rowCountHint;
    }
  }

  /**
    `open`: fails when the read-ahead meets a broken feature. Otherwise nothing is lost to it, and a
    DateTime column becomes Date32 exactly when the file ends before the limit and no value of the
    column, in the whole file, has a `T` or a blank in it. `headerCount` is the row count of the
    header, 0 when unknown.
   */
  method Open(source: Source, columns: seq<ColumnType>, sampleLimit: nat, headerCount: nat)
    returns (r: Result<FgbReader, ReadError>)
    requires sampleLimit > 0 && SourceFits(columns, source)
    ensures r.Err? <==> DateTimeColumn in columns && BrokenWithin(source, sampleLimit)
    ensures r.Ok? ==>
            fresh(r.value) && r.value.Rest() == source && r.value.columns == columns && |r.value.types| == |columns|
    ensures r.Ok? ==> forall c: nat :: c < |columns| ==>
              (r.value.types[c] == Date32 <==>
               columns[c] == DateTimeColumn && |source| < sampleLimit && FileOnlyValues(columns, source, c, NoTimeMark))
    ensures r.Ok? && DateTimeColumn in columns && |source| < sampleLimit ==> r.value.rowCountHint == Some(|source|)
  {
    var needsRefine := DateTimeColumn in columns;
    var sample: seq<Feature>, exhausted := [], false;
    if needsRefine {
      var read :- Prefetch(source, columns, sampleLimit);
      sample, exhausted := read.0, read.1;
    }
    var types: seq<ArrowType>;
    if exhausted {
      assert source[..|sample|] == source;
      ItemsAreRows(source, sample);
      var refined := RefineArrowTypes(columns, sample);
      types := refined[..];
    } else {
      types := seq(|columns|, _ => Declared);
    }
    var hint := if exhausted then Some(|sample|) else if headerCount > 0 then Some(headerCount) else None;
    var features := if exhausted then None else Some(source[|sample|..]);
    var reader := new FgbReader(columns, types, sample, features, hint);
    assert source == source[..|sample|] + source[|sample|..];
    return Ok(reader);
  }

  function LowerCaseFile(): Source {
    [Item.Row(Feature(None, [Some(DateTime("2024-01-01t10:00:00Z"))]))]
  }

  lemma LowerCaseText(v: Value)
    requires v == DateTime("2024-01-01t10:00:00Z")
    ensures NoTimeMark(v) && !IsDate(v)
  {
  }

  lemma LowerCaseIsUnmarked()
    ensures SourceFits([DateTimeColumn], LowerCaseFile())
    ensures FileOnlyValues([DateTimeColumn], LowerCaseFile(), 0, NoTimeMark)
    ensures !FileOnlyValues([DateTimeColumn], LowerCaseFile(), 0, IsDate)
  {
    var source := LowerCaseFile();
    assert source[1..] == [] && RowsOf(source) == [source[0].row] && BreakOf(source).None?;
    var v := RowsOf(source)[0].values[0];
    LowerCaseText(v.value);
    assert v.Some?;
  }

  /** RFC 3339 allows a lower-case `t`: a file of timestamps that is narrowed to dates. */
  method LowerCaseNarrowed(sampleLimit: nat) returns (r: Result<FgbReader, ReadError>)
    requires sampleLimit > 1
    ensures r.Ok? && r.value.types == [Date32]
    ensures !FileOnlyValues([DateTimeColumn], LowerCaseFile(), 0, IsDate)
  {
    LowerCaseIsUnmarked();
    r := Open(LowerCaseFile(), [DateTimeColumn], sampleLimit, 0);
    assert DateTimeColumn in [DateTimeColumn];
  }

  // ---------------------------------------------------------------------------
  // Batches
  // ---------------------------------------------------------------------------

  /** What is still to come once `chunk` has been gathered. */
  function After<B>(cfg: Config<Feature, B, ReadError>, chunk: seq<Feature>, rest: Source): seq<Result<B, ReadError>> {
    if |chunk| >= cfg.batchSize then Then(cfg.convert(chunk), Script(cfg, [], rest)) else Script(cfg, chunk, rest)
  }

  lemma AfterOneMore<B>(cfg: Config<Feature, B, ReadError>, chunk: seq<Feature>, row: Feature, rest: Source)
    requires |chunk| < cfg.batchSize
    ensures After(cfg, chunk, [Item.Row(row)] + rest) == After(cfg, chunk + [row], rest)
  {
  }

  class BatchIter<B> {
    const cfg: Config<Feature, B, ReadError>
    var sample: seq<Feature>
    var features: Option<Source>

    ghost function Rest(): Source
      reads this
    {
      Items(sample) + if features.Some? then features.value else []
    }

    constructor (cfg: Config<Feature, B, ReadError>, sample: seq<Feature>, features: Option<Source>)
      ensures this.cfg == cfg && Rest() == Items(sample) + if features.Some? then features.value else []
    {
      this.cfg, this.sample, this.features := cfg, sample, features;
    }

    /** The rows read ahead come first. */
    method TakeSample() returns (chunk: seq<Feature>)
      requires cfg.batchSize > 0
      modifies this`sample
      ensures |chunk| <= cfg.batchSize && (|chunk| == cfg.batchSize || sample == [])
      ensures After(cfg, chunk, Rest()) == Script(cfg, [], old(Rest()))
    {
      chunk := [];
      while sample != []
        invariant |chunk| < cfg.batchSize
        invariant After(cfg, chunk, Rest()) == Script(cfg, [], old(Rest()))
        decreases |sample|
      {
        ghost var tail := Items(sample[1..]) + if features.Some? then features.value else [];
        assert Rest() == [Item.Row(sample[0])] + tail;
        AfterOneMore(cfg, chunk, sample[0], tail);
        chunk := chunk + [sample[0]];
        sample := sample[1..];
        if |chunk| >= cfg.batchSize {
          break;
        }
      }
    }

    /** Then the rest of the file. */
    method TakeFeatures(start: seq<Feature>) returns (chunk: seq<Feature>, failed: Option<ReadError>)
      requires features.Some? && |start| <= cfg.batchSize && (|start| == cfg.batchSize || sample == [])
      modifies this`features
      ensures failed.None? ==> |chunk| <= cfg.batchSize && After(cfg, chunk, Rest()) == After(cfg, start, old(Rest()))
      ensures failed.None? && |chunk| < cfg.batchSize ==> Rest() == []
      ensures failed.Some? ==> After(cfg, start, old(Rest())) == [Err(failed.value)]
    {
      chunk, failed := start, None;
      while |chunk| < cfg.batchSize
        invariant features.Some? && |chunk| <= cfg.batchSize && (|chunk| == cfg.batchSize || sample == [])
        invariant After(cfg, chunk, Rest()) == After(cfg, start, old(Rest()))
        decreases |features.value|
      {
        var source := features.value;
        assert Rest() == source;
        if source == [] {
          features := None;
          break;
        }
        match source[0]
        case Row(row) =>
          assert source == [Item.Row(row)] + source[1..];
          AfterOneMore(cfg, chunk, row, source[1..]);
          chunk := chunk + [row];
          features := Some(source[1..]);
          assert sample == [] ==> Rest() == source[1..];
        case Broken(e) =>
          features := None;
          return chunk, Some(e);
      }
    }

    method NextBatch() returns (r: Option<Result<B, ReadError>>)
      requires cfg.batchSize > 0
      modifies this
      ensures r.None? ==> Script(cfg, [], old(Rest())) == [] && Rest() == []
      ensures r.Some? && r.value.Ok? ==> Script(cfg, [], old(Rest())) == Then(r.value, Script(cfg, [], Rest()))
      ensures r.Some? && r.value.Err? ==> Script(cfg, [], old(Rest())) == [r.value]
    {
      var chunk := TakeSample();
      if features.Some? {
        var failed: Option<ReadError>;
        chunk, failed := TakeFeatures(chunk);
        if failed.Some? {
          return Some(Err(failed.value));
        }
      }
      if chunk == [] {
        return None;
      }
      return Some(cfg.convert(chunk));
    }

    /**
      `next`: one after the other, the results are those of reading the whole file sequentially, no
      matter how much of it was read ahead; after an error or the end there are none.
     */
    method Next() returns (r: Option<Result<B, ReadError>>)
      requires cfg.batchSize > 0
      modifies this
      ensures r.None? ==> Script(cfg, [], old(Rest())) == [] && Rest() == []
      ensures r.Some? ==> Script(cfg, [], old(Rest())) == Then(r.value, Script(cfg, [], Rest()))
      ensures r.Some? && r.value.Err? ==> Rest() == []
    {
      r := NextBatch();
      if r.Some? && r.value.Err? {
        features, sample := None, [];
      }
    }
  }
}
