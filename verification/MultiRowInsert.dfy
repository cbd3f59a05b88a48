/**
  The batch writers: a record batch goes into one transaction as a series of multi-row INSERT
  statements with numbered parameters (crates/shpx-driver-postgis/src/writer.rs:182-231 and
  457-515, crates/shpx-driver-sqlserver/src/writer.rs:213-284 and 387-489). PostgreSQL takes the
  geometry as one EWKB parameter, SQL Server as WKB and SRID.
 */
module MultiRowInsert {
  import opened Database
  import opened Lists
  import opened LoadRuns
  import opened MachineInts
  import opened Wrappers

  const POSTGRES_MAX_PARAMS_PER_RPC: nat := 0x7FFF
  const SQLSERVER_MAX_PARAMS_PER_RPC: nat := 2100
  const PARAM_SAFETY_MARGIN: nat := 16

  function MaxParams(d: Dialect): nat {
    match d
    case Postgres => POSTGRES_MAX_PARAMS_PER_RPC
    case SqlServer => SQLSERVER_MAX_PARAMS_PER_RPC
  }

  function ParamsPerRow(d: Dialect, l: Layout): (k: nat)
    ensures k > 0
  {
    |l.attrs| + if d == Postgres then 1 else 2
  }

  // ---------------------------------------------------------------------------
  // Chunk size
  // ---------------------------------------------------------------------------

  /** `multirow_chunk_rows` */
  function MultirowChunkRows(paramsPerRow: nat, maxParams: nat, margin: nat): nat {
    var usable := SaturatingSub(maxParams, margin);
    var perRow := if paramsPerRow > 1 then paramsPerRow else 1;
    var rows := usable / perRow;
    if rows > 1 then rows else 1
  }

  /** The most rows whose parameters stay below the limit by the margin; one row when none do. */
  lemma ChunkRowsIsLargest(perRow: nat, maxParams: nat, margin: nat)
    requires perRow > 0
    ensures var n, usable := MultirowChunkRows(perRow, maxParams, margin), SaturatingSub(maxParams, margin);
            && n >= 1
            && (perRow <= usable ==> n * perRow <= usable < (n + 1) * perRow)
            && (perRow > usable ==> n == 1)
  {
  }

  /**
    SQL Server takes at most 1000 rows in one VALUES list. The chunk size keeps to it exactly when
    the layer has an attribute column; without one, 1042 rows go into a statement.
   */
  lemma ValuesListLimit(l: Layout)
    ensures MultirowChunkRows(ParamsPerRow(SqlServer, l), MaxParams(SqlServer), PARAM_SAFETY_MARGIN) <= 1000 <==>
            l.attrs != []
    ensures l.attrs == [] ==>
            MultirowChunkRows(ParamsPerRow(SqlServer, l), MaxParams(SqlServer), PARAM_SAFETY_MARGIN) == 1042
  {
  }

  /** What a statement binds, in numbers: both servers are kept 16 parameters away from their limits. */
  lemma ParameterLimits(d: Dialect, l: Layout)
    requires ParamsPerRow(d, l) <= if d == Postgres then 32_751 else 2_084
    ensures var k := ParamsPerRow(d, l);
            var most := if d == Postgres then 32_751 else 2_084;
            var rows := MultirowChunkRows(k, MaxParams(d), PARAM_SAFETY_MARGIN);
            rows * k <= most < (rows + 1) * k
  {
    ChunkRowsIsLargest(ParamsPerRow(d, l), MaxParams(d), PARAM_SAFETY_MARGIN);
  }

  // ---------------------------------------------------------------------------
  // The statement
  // ---------------------------------------------------------------------------

  /** The placeholder tuple of the row whose parameters start behind `base`. */
  function RowTuple(d: Dialect, attrCount: nat, base: nat): (es: seq<ValueExpr>)
    ensures |es| == attrCount + 1
  {
    seq(attrCount, i requires 0 <= i < attrCount => Param(base + i + 1))
    + [if d == Postgres then GeomFromEwkb(base + attrCount + 1)
       else GeomFromWkb(base + attrCount + 1, base + attrCount + 2)]
  }

  /** The INSERT for `n` rows. */
  function InsertFor(d: Dialect, l: Layout, n: nat): Insert
    requires l.Valid()
  {
    Insert(l.TargetColumns(), seq(n, r requires 0 <= r < n => RowTuple(d, |l.attrs|, r * ParamsPerRow(d, l))))
  }

  method BuildTuple(d: Dialect, attrCount: nat, base: nat) returns (placeholders: seq<ValueExpr>)
    ensures placeholders == RowTuple(d, attrCount, base)
  {
    placeholders := [];
    for i := 1 to attrCount + 1
      invariant placeholders == RowTuple(d, attrCount, base)[..i - 1]
    {
      placeholders := placeholders + [Param(base + i)];
    }
    var geomParam := base + attrCount + 1;
    placeholders := placeholders
      + [if d == Postgres then GeomFromEwkb(geomParam) else GeomFromWkb(geomParam, geomParam + 1)];
  }

  /** `build_insert_sql_chunk` */
  method BuildInsertSqlChunk(d: Dialect, l: Layout, chunkRows: nat) returns (stmt: Insert)
    requires l.Valid()
    ensures stmt == InsertFor(d, l, chunkRows)
  {
    var colNames: seq<string> := [];
    for i := 0 to |l.attrs|
      invariant colNames == l.AttrNames()[..i]
    {
      assert l.attrs[i] in l.attrs;
      colNames := colNames + [l.names[l.attrs[i]]];
    }
    colNames := colNames + [l.names[l.geom]];
    var attrCount := |l.attrs|;
    var tuples: seq<seq<ValueExpr>> := [];
    for r := 0 to chunkRows
      invariant tuples == InsertFor(d, l, chunkRows).tuples[..r]
    {
      var placeholders := BuildTuple(d, attrCount, r * ParamsPerRow(d, l));
      tuples := tuples + [placeholders];
    }
    return Insert(colNames, tuples);
  }

  /** The parameter numbers as they stand in the text, left to right. */
  function TupleNumbers(es: seq<ValueExpr>): seq<nat> {
    if es == [] then [] else TupleNumbers(es[..|es| - 1]) + Numbers(es[|es| - 1])
  }

  function AllNumbers(tuples: seq<seq<ValueExpr>>): seq<nat> {
    if tuples == [] then [] else AllNumbers(tuples[..|tuples| - 1]) + TupleNumbers(tuples[|tuples| - 1])
  }

  function Count(from: nat, k: nat): (ns: seq<nat>)
    ensures |ns| == k
  {
    seq(k, i requires 0 <= i < k => from + i)
  }

  lemma {:induction false} ParamNumbers(es: seq<ValueExpr>, base: nat)
    requires forall i :: 0 <= i < |es| ==> es[i] == Param(base + i + 1)
    ensures TupleNumbers(es) == Count(base + 1, |es|)
  {
    if es != [] {
      ParamNumbers(es[..|es| - 1], base);
    }
  }

  lemma RowNumbers(d: Dialect, l: Layout, base: nat)
    ensures TupleNumbers(RowTuple(d, |l.attrs|, base)) == Count(base + 1, ParamsPerRow(d, l))
  {
    var es := RowTuple(d, |l.attrs|, base);
    ParamNumbers(es[..|l.attrs|], base);
  }

  lemma OneMoreRow(n: nat, k: nat)
    ensures (n + 1) * k == n * k + k
  {
  }

  lemma CountAppends(base: nat, k: nat)
    ensures Count(1, base) + Count(base + 1, k) == Count(1, base + k)
  {
  }

  lemma TuplesStep(d: Dialect, l: Layout, n: nat, base: nat, next: nat)
    requires l.Valid() && base == n * ParamsPerRow(d, l) && next == (n + 1) * ParamsPerRow(d, l)
    requires AllNumbers(InsertFor(d, l, n).tuples) == Count(1, base)
    ensures AllNumbers(InsertFor(d, l, n + 1).tuples) == Count(1, next)
  {
    var more, es := InsertFor(d, l, n + 1).tuples, RowTuple(d, |l.attrs|, base);
    assert more[..n] == InsertFor(d, l, n).tuples && more[n] == es;
    assert AllNumbers(more) == AllNumbers(more[..n]) + TupleNumbers(more[n]);
    RowNumbers(d, l, base);
    CountAppends(base, ParamsPerRow(d, l));
    OneMoreRow(n, ParamsPerRow(d, l));
  }

  lemma {:induction false} TuplesNumbers(d: Dialect, l: Layout, n: nat)
    requires l.Valid()
    ensures AllNumbers(InsertFor(d, l, n).tuples) == Count(1, n * ParamsPerRow(d, l))
  {
    if n > 0 {
      TuplesNumbers(d, l, n - 1);
      TuplesStep(d, l, n - 1, (n - 1) * ParamsPerRow(d, l), n * ParamsPerRow(d, l));
    }
  }

  // ---------------------------------------------------------------------------
  // The parameters
  // ---------------------------------------------------------------------------

  predicate Encodable(d: Dialect, l: Layout, row: Row)
    requires l.Valid() && l.Fits(row)
  {
    l.Encodable(row) && (d == Postgres ==> row[l.geom] != Unsupported)
  }

  function RowParams(d: Dialect, l: Layout, row: Row): (ps: seq<Data>)
    requires l.Valid() && l.Fits(row)
    ensures |ps| == ParamsPerRow(d, l)
  {
    seq(|l.attrs|, i requires 0 <= i < |l.attrs| => assert l.attrs[i] in l.attrs; Sql(row[l.attrs[i]]))
    + if d == Postgres then [Tagged(row[l.geom], l.srid)] else [Sql(row[l.geom]), Int(l.srid)]
  }

  /** `build_row_params` */
  method BuildRowParams(d: Dialect, l: Layout, row: Row) returns (r: Result<seq<Data>, LoadError>)
    requires l.Valid() && l.Fits(row)
    ensures r.Ok? <==> Encodable(d, l, row)
    ensures if r.Ok? then r.value == RowParams(d, l, row) else r.error == EncodeError
  {
    var out: seq<Data> := [];
    for i := 0 to |l.attrs|
      invariant out == RowParams(d, l, row)[..i]
      invariant forall k :: 0 <= k < i ==> l.attrs[k] in l.attrs && row[l.attrs[k]] != Unsupported
    {
      assert l.attrs[i] in l.attrs;
      if row[l.attrs[i]] == Unsupported {
        return Err(EncodeError);
      }
      out := out + [Sql(row[l.attrs[i]])];
    }
    if d == Postgres {
      if row[l.geom] == Unsupported {
        return Err(EncodeError);
      }
      out := out + [Tagged(row[l.geom], l.srid)];
    } else {
      out := out + [Sql(row[l.geom])];
      out := out + [Int(l.srid)];
    }
    return Ok(out);
  }

  function ParamPieces(d: Dialect, l: Layout, rows: seq<Row>): (ss: seq<seq<Data>>)
    requires l.Valid() && l.AllFit(rows)
    ensures |ss| == |rows| && AllOfLength(ss, ParamsPerRow(d, l))
  {
    seq(|rows|, i requires 0 <= i < |rows| => assert rows[i] in rows; RowParams(d, l, rows[i]))
  }

  /** All parameters of a chunk, row after row. */
  function Params(d: Dialect, l: Layout, rows: seq<Row>): seq<Data>
    requires l.Valid() && l.AllFit(rows)
  {
    Joined(ParamPieces(d, l, rows))
  }

  /** Binding the parameters to the placeholders puts the cell into its column. */
  lemma ItemGetsItsCell(d: Dialect, l: Layout, row: Row, ps: seq<Data>, base: nat, i: nat)
    requires l.Valid() && l.Fits(row) && i <= |l.attrs| && base + ParamsPerRow(d, l) <= |ps|
    requires ps[base..base + ParamsPerRow(d, l)] == RowParams(d, l, row)
    ensures var e := RowTuple(d, |l.attrs|, base)[i];
            Bound(e, ps) && ValueOf(e, ps) == InOrder(l, row)[i]
  {
  }

  lemma RowPiece(d: Dialect, l: Layout, rows: seq<Row>, r: nat, base: nat)
    requires l.Valid() && l.AllFit(rows) && r < |rows| && base == r * ParamsPerRow(d, l)
    ensures rows[r] in rows && base + ParamsPerRow(d, l) <= |Params(d, l, rows)|
    ensures Params(d, l, rows)[base..base + ParamsPerRow(d, l)] == RowParams(d, l, rows[r])
  {
    UniformPieces(ParamPieces(d, l, rows), ParamsPerRow(d, l), r);
    assert rows[r] in rows;
  }

  /** Parameter `r * k + c + 1` is column `c` of row `r`. */
  lemma ParamBindsCell(d: Dialect, l: Layout, rows: seq<Row>, r: nat, c: nat, base: nat)
    requires l.Valid() && l.AllFit(rows) && r < |rows| && c < ParamsPerRow(d, l) && base == r * ParamsPerRow(d, l)
    ensures base + c < |Params(d, l, rows)|
    ensures rows[r] in rows && Params(d, l, rows)[base + c] == RowParams(d, l, rows[r])[c]
  {
    RowPiece(d, l, rows, r, base);
    assert Params(d, l, rows)[base..base + ParamsPerRow(d, l)][c] == Params(d, l, rows)[base + c];
  }

  lemma TupleGetsItsRow(d: Dialect, l: Layout, rows: seq<Row>, r: nat, base: nat)
    requires l.Valid() && l.AllFit(rows) && r < |rows| && base == r * ParamsPerRow(d, l)
    ensures var es, ps := RowTuple(d, |l.attrs|, base), Params(d, l, rows);
            rows[r] in rows && AllBound(es, ps) && TupleValues(es, ps) == InOrder(l, rows[r])
  {
    var es, ps := RowTuple(d, |l.attrs|, base), Params(d, l, rows);
    RowPiece(d, l, rows, r, base);
    forall i | 0 <= i < |es|
      ensures Bound(es[i], ps) && ValueOf(es[i], ps) == InOrder(l, rows[r])[i]
    {
      ItemGetsItsCell(d, l, rows[r], ps, base, i);
    }
  }

  /**
    One statement inserts exactly its rows, every cell under the name of its column, if and only if no
    two columns share a name; otherwise it cannot be run.
   */
  lemma ChunkInsertsItsRows(d: Dialect, l: Layout, rows: seq<Row>)
    requires l.Valid() && l.AllFit(rows)
    ensures var stmt, ps := InsertFor(d, l, |rows|), Params(d, l, rows);
            && (Runnable(stmt, ps) <==> Distinct(l.TargetColumns()))
            && (Runnable(stmt, ps) ==> Inserted(stmt, ps) == l.ExpectedAll(rows))
  {
    var stmt, ps := InsertFor(d, l, |rows|), Params(d, l, rows);
    forall r | 0 <= r < |rows|
      ensures rows[r] in rows && |stmt.tuples[r]| == |stmt.columns| && AllBound(stmt.tuples[r], ps)
      ensures Distinct(stmt.columns) ==> RecordOf(stmt.columns, TupleValues(stmt.tuples[r], ps)) == l.Expected(rows[r])
    {
      TupleGetsItsRow(d, l, rows, r, r * ParamsPerRow(d, l));
      if Distinct(stmt.columns) {
        InOrderIsExpected(l, rows[r]);
      }
    }
  }

  // ---------------------------------------------------------------------------
  // The loop
  // ---------------------------------------------------------------------------

  ghost predicate AllEncodable(d: Dialect, l: Layout, rows: seq<Row>)
    requires l.Valid() && l.AllFit(rows)
  {
    forall i :: 0 <= i < |rows| ==> rows[i] in rows && Encodable(d, l, rows[i])
  }

  /** The owned parameters of one chunk. */
  method BuildChunkParams(d: Dialect, l: Layout, rows: seq<Row>) returns (r: Result<seq<Data>, LoadError>)
    requires l.Valid() && l.AllFit(rows)
    ensures r.Ok? <==> AllEncodable(d, l, rows)
    ensures if r.Ok? then r.value == Params(d, l, rows) else r.error == EncodeError
  {
    var owned: seq<Data> := [];
    ghost var ss := ParamPieces(d, l, rows);
    for i := 0 to |rows|
      invariant owned == Joined(ss[..i])
      invariant forall k :: 0 <= k < i ==> rows[k] in rows && Encodable(d, l, rows[k])
    {
      assert rows[i] in rows;
      var params :- BuildRowParams(d, l, rows[i]);
      JoinedStep(ss, i);
      owned := owned + params;
    }
    assert ss[..|rows|] == ss;
    return Ok(owned);
  }

  /** Within the limit whenever one row is. */
  predicate WithinLimit(d: Dialect, l: Layout, params: nat) {
    ParamsPerRow(d, l) + PARAM_SAFETY_MARGIN <= MaxParams(d) ==> params + PARAM_SAFETY_MARGIN <= MaxParams(d)
  }

  lemma FewerRows(rows: nat, most: nat, k: nat)
    requires rows <= most
    ensures 0 <= rows * k <= most * k
  {
  }

  lemma RowsWithinLimit(d: Dialect, l: Layout, rows: nat)
    requires rows <= MultirowChunkRows(ParamsPerRow(d, l), MaxParams(d), PARAM_SAFETY_MARGIN)
    ensures rows * ParamsPerRow(d, l) >= 0 && WithinLimit(d, l, rows * ParamsPerRow(d, l))
  {
    var k := ParamsPerRow(d, l);
    ChunkRowsIsLargest(k, MaxParams(d), PARAM_SAFETY_MARGIN);
    FewerRows(rows, MultirowChunkRows(k, MaxParams(d), PARAM_SAFETY_MARGIN), k);
  }

  predicate ChunkOk(d: Dialect, l: Layout, chunk: seq<Row>) {
    WithinLimit(d, l, |chunk| * ParamsPerRow(d, l))
  }

  predicate ChunksWithinLimit(d: Dialect, l: Layout, chunks: seq<seq<Row>>) {
    forall i :: 0 <= i < |chunks| ==> ChunkOk(d, l, chunks[i])
  }

  lemma ChunkWithinLimit(d: Dialect, l: Layout, chunks: seq<seq<Row>>, chunk: seq<Row>)
    requires |chunk| <= MultirowChunkRows(ParamsPerRow(d, l), MaxParams(d), PARAM_SAFETY_MARGIN)
    requires ChunksWithinLimit(d, l, chunks)
    ensures ChunksWithinLimit(d, l, chunks + [chunk])
  {
    RowsWithinLimit(d, l, |chunk|);
    var all := chunks + [chunk];
    forall i | 0 <= i < |all| ensures ChunkOk(d, l, all[i]) {
      assert if i < |chunks| then all[i] == chunks[i] && ChunkOk(d, l, chunks[i]) else all[i] == chunk;
    }
  }

  lemma ParamsLength(d: Dialect, l: Layout, rows: seq<Row>)
    requires l.Valid() && l.AllFit(rows)
    ensures |Params(d, l, rows)| == |rows| * ParamsPerRow(d, l)
  {
    UniformLength(ParamPieces(d, l, rows), ParamsPerRow(d, l));
  }

  /** One statement of the transaction. */
  method WriteChunk(db: Server, d: Dialect, l: Layout, stmt: Insert, rows: seq<Row>) returns (r: Result<(), LoadError>)
    requires l.Valid() && l.AllFit(rows) && db.depth > 0 && stmt == InsertFor(d, l, |rows|)
    modifies db`depth, db`target, db`staging
    ensures db.depth == old(db.depth) || (r == Err(ServerError) && db.depth == 0)
    ensures r.Err? ==> r.error in {EncodeError, ServerError}
    ensures r.Ok? ==> db.target == old(db.target) + l.ExpectedAll(rows) && AllEncodable(d, l, rows)
    ensures r.Ok? ==> Distinct(l.TargetColumns())
  {
    var owned := BuildChunkParams(d, l, rows);
    if owned.Err? {
      return Err(owned.error);
    }
    ChunkInsertsItsRows(d, l, rows);
    var ok := db.Execute(stmt, owned.value);
    r := if ok then Ok(()) else Err(ServerError);
  }

  lemma NextChunk(size: nat, rows: seq<Row>, at: nat)
    requires size > 0 && at < |rows|
    ensures var n := if |rows| - at < size then |rows| - at else size;
            Chunks(size, rows[at..], true) == [rows[at..at + n]] + Chunks(size, rows[at + n..], true)
  {
    var rest, n := rows[at..], if |rows| - at < size then |rows| - at else size;
    assert rest[..n] == rows[at..at + n] && rest[n..] == rows[at + n..];
    if n < size {
      assert rest[..n] == rest && rest[n..] == [];
    }
  }

  lemma Slice(l: Layout, batch: seq<Row>, a: nat, b: nat)
    requires l.AllFit(batch) && a <= b <= |batch|
    ensures l.AllFit(batch[a..b]) && l.AllFit(batch[..a]) && batch[..b] == batch[..a] + batch[a..b]
  {
  }

  lemma EncodableConcat(d: Dialect, l: Layout, a: seq<Row>, b: seq<Row>)
    requires l.Valid() && l.AllFit(a) && l.AllFit(b) && AllEncodable(d, l, a) && AllEncodable(d, l, b)
    ensures l.AllFit(a + b) && AllEncodable(d, l, a + b)
  {
  }

  /** Where the loop stands after `row` rows. */
  ghost predicate Progress(d: Dialect, l: Layout, batch: seq<Row>, chunkRows: nat, row: nat, chunks: seq<seq<Row>>,
                           start: Table, target: Table)
    requires l.Valid() && l.AllFit(batch) && chunkRows > 0
  {
    && row <= |batch|
    && l.AllFit(batch[..row]) && AllEncodable(d, l, batch[..row])
    && target == start + l.ExpectedAll(batch[..row])
    && chunks + Chunks(chunkRows, batch[row..], true) == Chunks(chunkRows, batch, true)
  }

  function ChunkLength(batch: seq<Row>, chunkRows: nat, row: nat): nat
    requires row <= |batch|
  {
    if |batch| - row < chunkRows then |batch| - row else chunkRows
  }

  lemma ProgressStarts(d: Dialect, l: Layout, batch: seq<Row>, chunkRows: nat, start: Table)
    requires l.Valid() && l.AllFit(batch) && chunkRows > 0
    ensures Progress(d, l, batch, chunkRows, 0, [], start, start)
  {
    assert batch[0..] == batch && start + [] == start;
  }

  lemma ProgressEnds(d: Dialect, l: Layout, batch: seq<Row>, chunkRows: nat, chunks: seq<seq<Row>>,
                     start: Table, target: Table)
    requires l.Valid() && l.AllFit(batch) && chunkRows > 0
    requires Progress(d, l, batch, chunkRows, |batch|, chunks, start, target)
    ensures target == start + l.ExpectedAll(batch) && AllEncodable(d, l, batch) &&
            chunks == Chunks(chunkRows, batch, true)
  {
    assert batch[..|batch|] == batch && batch[|batch|..] == [] && chunks + [] == chunks;
  }

  lemma ProgressStep(d: Dialect, l: Layout, batch: seq<Row>, chunkRows: nat, row: nat, chunks: seq<seq<Row>>,
                     start: Table, target: Table, chunk: seq<Row>)
    requires l.Valid() && l.AllFit(batch) && chunkRows > 0 && row < |batch|
    requires Progress(d, l, batch, chunkRows, row, chunks, start, target)
    requires chunk == batch[row..row + ChunkLength(batch, chunkRows, row)] && l.AllFit(chunk) &&
             AllEncodable(d, l, chunk)
    ensures Progress(d, l, batch, chunkRows, row + |chunk|, chunks + [chunk], start, target + l.ExpectedAll(chunk))
  {
    var before, next := batch[..row], row + |chunk|;
    Slice(l, batch, row, next);
    ExpectedConcat(l, before, chunk);
    EncodableConcat(d, l, before, chunk);
    NextChunk(chunkRows, batch, row);
    Regroup(chunks, [chunk], Chunks(chunkRows, batch[next..], true));
    Regroup(start, l.ExpectedAll(before), l.ExpectedAll(chunk));
  }

  lemma ChunkFits(l: Layout, batch: seq<Row>, a: nat, b: nat)
    requires l.AllFit(batch) && a <= b <= |batch|
    ensures l.AllFit(batch[a..b])
  {
  }

  /** The statement is built again only when the number of rows changes. */
  method CachedSql(d: Dialect, l: Layout, n: nat, cache: Insert, lastN: nat) returns (sqlCache: Insert, lastN': nat)
    requires l.Valid() && n > 0 && (lastN > 0 ==> cache == InsertFor(d, l, lastN))
    ensures sqlCache == InsertFor(d, l, n) && lastN' == n
  {
    sqlCache, lastN' := cache, lastN;
    if n != lastN {
      sqlCache := BuildInsertSqlChunk(d, l, n);
      lastN' := n;
    }
  }

  /** One turn of the loop. */
  method WriteNext(db: Server, d: Dialect, l: Layout, batch: seq<Row>, chunkRows: nat, row: nat, cache: Insert,
                   lastN: nat, ghost chunks: seq<seq<Row>>, ghost start: Table)
    returns (r: Result<(), LoadError>, row': nat, sqlCache: Insert, lastN': nat, ghost chunks': seq<seq<Row>>)
    requires l.Valid() && l.AllFit(batch) && row < |batch| && db.depth > 0
    requires 0 < chunkRows == MultirowChunkRows(ParamsPerRow(d, l), MaxParams(d), PARAM_SAFETY_MARGIN)
    requires lastN > 0 ==> cache == InsertFor(d, l, lastN)
    requires Progress(d, l, batch, chunkRows, row, chunks, start, db.target) && ChunksWithinLimit(d, l, chunks)
    modifies db`depth, db`target, db`staging
    ensures db.depth == old(db.depth) || (r == Err(ServerError) && db.depth == 0)
    ensures r.Err? ==> r.error in {EncodeError, ServerError}
    ensures lastN' > 0 && sqlCache == InsertFor(d, l, lastN')
    ensures r.Ok? ==> row < row' && Progress(d, l, batch, chunkRows, row', chunks', start, db.target)
    ensures r.Ok? ==> Distinct(l.TargetColumns())
    ensures ChunksWithinLimit(d, l, chunks')
  {
    var n := if |batch| - row < chunkRows then |batch| - row else chunkRows;
    sqlCache, lastN' := CachedSql(d, l, n, cache, lastN);
    var chunk := batch[row..row + n];
    ChunkFits(l, batch, row, row + n);
    ChunkWithinLimit(d, l, chunks, chunk);
    ghost var target := db.target;
    row', chunks' := row + n, chunks + [chunk];
    r := WriteChunk(db, d, l, sqlCache, chunk);
    if r.Ok? {
      ProgressStep(d, l, batch, chunkRows, row, chunks, start, target, chunk);
    }
  }

  method WriteChunks(db: Server, d: Dialect, l: Layout, batch: seq<Row>, chunkRows: nat)
    returns (r: Result<(), LoadError>, ghost chunks: seq<seq<Row>>)
    requires l.Valid() && l.AllFit(batch) && db.depth > 0
    requires 0 < chunkRows == MultirowChunkRows(ParamsPerRow(d, l), MaxParams(d), PARAM_SAFETY_MARGIN)
    modifies db`depth, db`target, db`staging
    ensures db.depth == old(db.depth) || (r == Err(ServerError) && db.depth == 0)
    ensures r.Err? ==> r.error in {EncodeError, ServerError}
    ensures r.Ok? ==> db.target == old(db.target) + l.ExpectedAll(batch) && AllEncodable(d, l, batch)
    ensures r.Ok? ==> chunks == Chunks(chunkRows, batch, true)
    ensures r.Ok? && batch != [] ==> Distinct(l.TargetColumns())
    ensures ChunksWithinLimit(d, l, chunks)
  {
    var total := |batch|;
    var row, lastN := 0, 0;
    var sqlCache := Insert([], []);
    ghost var start := db.target;
    chunks := [];
    ProgressStarts(d, l, batch, chunkRows, start);
    while row < total
      invariant db.depth == old(db.depth)
      invariant lastN > 0 ==> sqlCache == InsertFor(d, l, lastN)
      invariant Progress(d, l, batch, chunkRows, row, chunks, start, db.target)
      invariant ChunksWithinLimit(d, l, chunks) && (row > 0 ==> Distinct(l.TargetColumns()))
    {
      r, row, sqlCache, lastN, chunks := WriteNext(db, d, l, batch, chunkRows, row, sqlCache, lastN, chunks, start);
      if r.Err? { return; }
    }
    ProgressEnds(d, l, batch, chunkRows, chunks, start, db.target);
    return Ok(()), chunks;
  }

  // ---------------------------------------------------------------------------
  // Calls
  // ---------------------------------------------------------------------------

  /**
    `write_batch`: all rows of the batch or none. The chunks are the batch cut into full pieces in
    order, no statement goes past the parameter limit unless a single row does, and the text in use
    is always the one for the current number of rows.
   */
  method WriteBatch(db: Server, d: Dialect, l: Layout, batch: seq<Row>)
    returns (r: Result<(), LoadError>, ghost chunks: seq<seq<Row>>, ghost landed: nat)
    requires l.Valid() && l.AllFit(batch)
    modifies db
    ensures Allowed(d, l, Conn(old(db.committed), old(db.depth)), Call([batch], r, landed),
                    Conn(db.committed, db.depth))
    ensures r.Err? ==> r.error in {EncodeError, ServerError}
    ensures r == Err(EncodeError) ==> landed == 0
    ensures r.Ok? ==> AllEncodable(d, l, batch)
    ensures (r.Ok? || landed > 0) && batch != [] ==> Distinct(l.TargetColumns())
    ensures r.Ok? ==>
            chunks == Chunks(MultirowChunkRows(ParamsPerRow(d, l), MaxParams(d), PARAM_SAFETY_MARGIN), batch, true)
    ensures ChunksWithinLimit(d, l, chunks)
  {
    chunks, landed := [], 0;
    var chunkRows := MultirowChunkRows(ParamsPerRow(d, l), MaxParams(d), PARAM_SAFETY_MARGIN);
    ChunkRowsIsLargest(ParamsPerRow(d, l), MaxParams(d), PARAM_SAFETY_MARGIN);
    ghost var outer := db.depth;
    var ok := db.BeginTran();
    if !ok {
      return Err(ServerError), chunks, landed;
    }
    r, chunks := WriteChunks(db, d, l, batch, chunkRows);
    if r.Ok? {
      ghost var before := db.committed;
      ok := db.CommitTran();
      landed := if outer == 0 && db.committed == before + l.ExpectedAll(batch) then 1 else 0;
      r := if ok then Ok(()) else Err(ServerError);
    }
    if r.Err? && d == Postgres {
      db.Rollback();
    }
  }

  /**
    Such a run on SQL Server: once a row could not be encoded, the next call can return Ok, but its
    rows stay in the transaction that was left open, and committed is what was committed before.
   */
  method OkWithoutCommit(db: Server, l: Layout, bad: seq<Row>, good: seq<Row>)
    returns (first: Result<(), LoadError>, second: Result<(), LoadError>)
    requires l.Valid() && l.AllFit(bad) && l.AllFit(good) && db.depth == 0
    modifies db
    ensures !AllEncodable(SqlServer, l, bad) ==> first.Err?
    ensures first == Err(EncodeError) ==> db.committed == old(db.committed)
    ensures first == Err(EncodeError) && second.Ok? ==> db.depth == 1 && AllEncodable(SqlServer, l, good)
  {
    ghost var chunks, landed;
    first, chunks, landed := WriteBatch(db, SqlServer, l, bad);
    second, chunks, landed := WriteBatch(db, SqlServer, l, good);
  }
}
