/**
  The layer both RDB writers load, and the database they load it into: a target table with
  transactions, and a staging table
  (crates/shpx-driver-sqlserver/src/staging.rs, crates/shpx-driver-postgis/src/writer.rs).
 */
module Database {
  import opened MachineInts

  /** An Arrow cell; `Unsupported` stands for the values the cell encoder refuses. */
  datatype Cell = Null | Value(v: int) | Unsupported
  type Row = seq<Cell>
  type Batch = seq<Row>

  /** A value on its way to the server; `Tagged` is a geometry with its SRID built in. */
  datatype Data = Sql(cell: Cell) | Int(n: I32) | Tagged(cell: Cell, srid: I32)
  /** A value in the target table. */
  datatype Stored = Plain(data: Data) | Spatial(wkb: Data, srid: Data)
  /** A row of the target table: what stands under each column name. */
  type Record = map<string, Stored>
  type Table = seq<Record>

  datatype LoadError = SourceError | EncodeError | ServerError

  const STAGING_WKB_COL := "shpx_geom_wkb"
  const STAGING_SRID_COL := "shpx_geom_srid"

  datatype Expr = Column(name: string) | StGeomFromWkb(wkb: string, srid: string)

  function IndexOf(names: seq<string>, name: string): (i: nat)
    requires name in names
    ensures i < |names| && names[i] == name
  {
    if names[0] == name then 0 else 1 + IndexOf(names[1..], name)
  }

  /** The loader's view of the layer: column names, attribute columns, geometry column. */
  datatype Layout = Layout(names: seq<string>, attrs: seq<nat>, geom: nat, srid: I32) {
    predicate Valid() {
      geom < |names| && forall a <- attrs :: a < |names|
    }

    predicate Fits(row: Row) {
      |row| == |names|
    }

    predicate AllFit(rows: seq<Row>) {
      forall row <- rows :: Fits(row)
    }

    predicate BatchesFit(batches: seq<Batch>) {
      forall i :: 0 <= i < |batches| ==> AllFit(batches[i])
    }

    // -------------------------------------------------------------------------
    // The two statements
    // -------------------------------------------------------------------------

    function AttrNames(): (cs: seq<string>)
      requires Valid()
      ensures |cs| == |attrs|
    {
      seq(|attrs|, i requires 0 <= i < |attrs| => assert attrs[i] in attrs; names[attrs[i]])
    }

    /** The columns `build_staging_create_sql` declares, in order. */
    function StagingColumns(): seq<string>
      requires Valid()
    {
      AttrNames() + [STAGING_WKB_COL, STAGING_SRID_COL]
    }

    /** The column list of `build_insert_select_sql`. */
    function TargetColumns(): seq<string>
      requires Valid()
    {
      AttrNames() + [names[geom]]
    }

    /** Its select list, which refers to the staging columns by name. */
    function SelectList(): (es: seq<Expr>)
      requires Valid()
      ensures |es| == |attrs| + 1
    {
      seq(|attrs|, i requires 0 <= i < |attrs| => Column(AttrNames()[i]))
        + [StGeomFromWkb(STAGING_WKB_COL, STAGING_SRID_COL)]
    }

    // -------------------------------------------------------------------------
    // Rows
    // -------------------------------------------------------------------------

    predicate Encodable(row: Row)
      requires Valid() && Fits(row)
    {
      forall a <- attrs :: row[a] != Unsupported
    }

    function TargetNames(): set<string>
      requires Valid()
    {
      (set name | name in AttrNames()) + {names[geom]}
    }

    /** The cell of the column of that name. */
    function CellUnder(row: Row, name: string): Stored
      requires Valid() && Fits(row) && name in TargetNames()
    {
      if name == names[geom] then Spatial(Sql(row[geom]), Int(srid))
      else var i := IndexOf(AttrNames(), name); assert attrs[i] in attrs; Plain(Sql(row[attrs[i]]))
    }

    /** What a source row must look like in the target: the cells under their names, in no order. */
    function Expected(row: Row): Record
      requires Valid() && Fits(row)
    {
      map name | name in TargetNames() :: CellUnder(row, name)
    }

    function ExpectedAll(rows: seq<Row>): (vs: Table)
      requires Valid() && AllFit(rows)
      ensures |vs| == |rows|
    {
      seq(|rows|, i requires 0 <= i < |rows| => assert rows[i] in rows; Expected(rows[i]))
    }
  }

  predicate Distinct(names: seq<string>) {
    forall i, j :: 0 <= i < j < |names| ==> names[i] != names[j]
  }

  lemma IndexUnique(names: seq<string>, i: nat)
    requires Distinct(names) && i < |names|
    ensures IndexOf(names, names[i]) == i
  {
  }

  lemma DistinctFront(names: seq<string>, k: nat)
    requires Distinct(names) && k <= |names|
    ensures Distinct(names[..k])
  {
  }

  /**
    If no two columns share a name, the target row has the attribute columns and the geometry column,
    each with its own cell of the source row.
   */
  lemma ExpectedByName(l: Layout, row: Row)
    requires l.Valid() && l.Fits(row) && Distinct(l.TargetColumns())
    ensures forall a <- l.attrs :: l.names[a] in l.Expected(row) && l.Expected(row)[l.names[a]] == Plain(Sql(row[a]))
    ensures l.names[l.geom] in l.Expected(row) &&
            l.Expected(row)[l.names[l.geom]] == Spatial(Sql(row[l.geom]), Int(l.srid))
  {
    var cols, attrNames, rec := l.TargetColumns(), l.AttrNames(), l.Expected(row);
    assert cols[|l.attrs|] == l.names[l.geom];
    assert attrNames == cols[..|l.attrs|];
    DistinctFront(cols, |l.attrs|);
    forall i | 0 <= i < |l.attrs|
      ensures l.attrs[i] in l.attrs && l.names[l.attrs[i]] in rec
      ensures rec[l.names[l.attrs[i]]] == Plain(Sql(row[l.attrs[i]]))
    {
      assert l.attrs[i] in l.attrs && attrNames[i] == cols[i];
      IndexUnique(attrNames, i);
    }
  }

  lemma {:induction false} DistinctCount(names: seq<string>)
    requires Distinct(names)
    ensures |set name | name in names| == |names|
  {
    if names != [] {
      var front, last := names[..|names| - 1], names[|names| - 1];
      DistinctCount(front);
      assert names == front + [last];
      assert (set name | name in names) == (set name | name in front) + {last};
    }
  }

  lemma ExpectedColumns(l: Layout, row: Row)
    requires l.Valid() && l.Fits(row) && Distinct(l.TargetColumns())
    ensures |l.Expected(row)| == |l.attrs| + 1
  {
    DistinctCount(l.TargetColumns());
    assert l.Expected(row).Keys == set name | name in l.TargetColumns();
  }

  /** A row with these values under these columns. */
  function RecordOf(columns: seq<string>, values: seq<Stored>): Record
    requires |values| == |columns|
  {
    if columns == [] then map[] else
      var k := |columns| - 1;
      RecordOf(columns[..k], values[..k])[columns[k] := values[k]]
  }

  lemma {:induction false} RecordKeys(columns: seq<string>, values: seq<Stored>)
    requires |values| == |columns|
    ensures forall name :: name in RecordOf(columns, values) <==> name in columns
  {
    if columns != [] {
      RecordKeys(columns[..|columns| - 1], values[..|columns| - 1]);
      assert columns == columns[..|columns| - 1] + [columns[|columns| - 1]];
    }
  }

  lemma {:induction false} RecordAt(columns: seq<string>, values: seq<Stored>, i: nat)
    requires |values| == |columns| && Distinct(columns) && i < |columns|
    ensures columns[i] in RecordOf(columns, values) && RecordOf(columns, values)[columns[i]] == values[i]
  {
    var k := |columns| - 1;
    if i < k {
      RecordAt(columns[..k], values[..k], i);
    }
  }

  lemma RecordIs(columns: seq<string>, values: seq<Stored>, rec: Record)
    requires |values| == |columns| && Distinct(columns) && forall name :: name in rec <==> name in columns
    requires forall i :: 0 <= i < |columns| ==> columns[i] in rec && rec[columns[i]] == values[i]
    ensures RecordOf(columns, values) == rec
  {
    RecordKeys(columns, values);
    forall i | 0 <= i < |columns|
      ensures columns[i] in RecordOf(columns, values) && RecordOf(columns, values)[columns[i]] == rec[columns[i]]
    {
      RecordAt(columns, values, i);
    }
  }

  /** The values of a source row in the order of the column list. */
  function InOrder(l: Layout, row: Row): (vs: seq<Stored>)
    requires l.Valid() && l.Fits(row)
    ensures |vs| == |l.TargetColumns()|
  {
    seq(|l.attrs|, i requires 0 <= i < |l.attrs| => assert l.attrs[i] in l.attrs; Plain(Sql(row[l.attrs[i]])))
    + [Spatial(Sql(row[l.geom]), Int(l.srid))]
  }

  /** Put under the target columns in their order, they are the expected row. */
  lemma InOrderIsExpected(l: Layout, row: Row)
    requires l.Valid() && l.Fits(row) && Distinct(l.TargetColumns())
    ensures RecordOf(l.TargetColumns(), InOrder(l, row)) == l.Expected(row)
  {
    var cols, rec := l.TargetColumns(), l.Expected(row);
    ExpectedByName(l, row);
    forall i | 0 <= i < |cols| ensures cols[i] in rec && rec[cols[i]] == InOrder(l, row)[i] {
      if i < |l.attrs| {
        assert l.attrs[i] in l.attrs && cols[i] == l.names[l.attrs[i]];
      }
    }
    RecordIs(cols, InOrder(l, row), rec);
  }

  predicate CanEvalOne(columns: seq<string>, e: Expr) {
    match e
    case Column(n) => n in columns
    case StGeomFromWkb(w, s) => w in columns && s in columns
  }

  /** How the server evaluates a select item on a staging row: columns are found by name. */
  function Eval(columns: seq<string>, row: seq<Data>, e: Expr): Stored
    requires |row| == |columns| && CanEvalOne(columns, e)
  {
    match e
    case Column(n) => Plain(row[IndexOf(columns, n)])
    case StGeomFromWkb(w, s) => Spatial(row[IndexOf(columns, w)], row[IndexOf(columns, s)])
  }

  predicate CanEval(columns: seq<string>, exprs: seq<Expr>) {
    forall i :: 0 <= i < |exprs| ==> CanEvalOne(columns, exprs[i])
  }

  function EvalAll(columns: seq<string>, row: seq<Data>, exprs: seq<Expr>): (vs: seq<Stored>)
    requires |row| == |columns| && CanEval(columns, exprs)
    ensures |vs| == |exprs|
  {
    seq(|exprs|, i requires 0 <= i < |exprs| => Eval(columns, row, exprs[i]))
  }

  /** `INSERT INTO ... (into) SELECT exprs FROM staging`, row by row. */
  function Selected(into: seq<string>, columns: seq<string>, rows: seq<seq<Data>>, exprs: seq<Expr>): (vs: Table)
    requires (forall row <- rows :: |row| == |columns|) && CanEval(columns, exprs) && |into| == |exprs|
    ensures |vs| == |rows|
  {
    seq(|rows|, i requires 0 <= i < |rows| => assert rows[i] in rows; RecordOf(into, EvalAll(columns, rows[i], exprs)))
  }

  lemma ExpectedConcat(l: Layout, a: seq<Row>, b: seq<Row>)
    requires l.Valid() && l.AllFit(a) && l.AllFit(b)
    ensures l.AllFit(a + b) && l.ExpectedAll(a + b) == l.ExpectedAll(a) + l.ExpectedAll(b)
  {
  }

  // ---------------------------------------------------------------------------
  // INSERT ... VALUES with numbered parameters
  // ---------------------------------------------------------------------------

  /** One item of a VALUES tuple; parameters are numbered from 1. */
  datatype ValueExpr = Param(n: nat) | GeomFromEwkb(n: nat) | GeomFromWkb(wkb: nat, srid: nat)

  datatype Insert = Insert(columns: seq<string>, tuples: seq<seq<ValueExpr>>)

  function Numbers(e: ValueExpr): seq<nat> {
    match e
    case Param(n) => [n]
    case GeomFromEwkb(n) => [n]
    case GeomFromWkb(w, s) => [w, s]
  }

  predicate Bound(e: ValueExpr, params: seq<Data>) {
    forall n <- Numbers(e) :: 1 <= n <= |params|
  }

  predicate AllBound(es: seq<ValueExpr>, params: seq<Data>) {
    forall i :: 0 <= i < |es| ==> Bound(es[i], params)
  }

  function ValueOf(e: ValueExpr, params: seq<Data>): Stored
    requires Bound(e, params)
  {
    match e
    case Param(n) => assert n in Numbers(e); Plain(params[n - 1])
    case GeomFromEwkb(n) =>
      assert n in Numbers(e);
      var p := params[n - 1];
      if p.Tagged? then Spatial(Sql(p.cell), Int(p.srid)) else Plain(p)
    case GeomFromWkb(w, s) => assert w in Numbers(e) && s in Numbers(e); Spatial(params[w - 1], params[s - 1])
  }

  function TupleValues(es: seq<ValueExpr>, params: seq<Data>): (vs: seq<Stored>)
    requires AllBound(es, params)
    ensures |vs| == |es|
  {
    seq(|es|, i requires 0 <= i < |es| => ValueOf(es[i], params))
  }

  /** No column twice, one value for each column, and all parameters there. */
  predicate Runnable(stmt: Insert, params: seq<Data>) {
    && Distinct(stmt.columns)
    && forall r :: 0 <= r < |stmt.tuples| ==> |stmt.tuples[r]| == |stmt.columns| && AllBound(stmt.tuples[r], params)
  }

  /** The rows the statement adds. */
  function Inserted(stmt: Insert, params: seq<Data>): (vs: Table)
    requires Runnable(stmt, params)
    ensures |vs| == |stmt.tuples|
  {
    seq(|stmt.tuples|, r requires 0 <= r < |stmt.tuples| => RecordOf(stmt.columns, TupleValues(stmt.tuples[r], params)))
  }

  // ---------------------------------------------------------------------------
  // The server
  // ---------------------------------------------------------------------------

  /**
    One connection. Every statement can fail at any time; what the open transaction then holds is
    unknown, the server may have rolled it back, and a failed commit may or may not have taken
    effect. `committed` is what everybody else sees of the target table, `target` what the
    transaction sees. Transactions nest by counting, and only the outermost commit publishes.
   */
  class Server {
    var committed: Table
    var target: Table
    var columns: seq<string>
    var staging: seq<seq<Data>>
    /** The rows of an unfinished bulk request. */
    var bulk: seq<seq<Data>>
    var depth: nat

    /** The target table as this connection sees it. */
    ghost function View(): Table
      reads this
    {
      if depth == 0 then committed else target
    }

    /** What a failing statement leaves: the transaction as it was, or none. */
    method Break()
      modifies `depth, `target, `staging
      ensures depth == old(depth) || depth == 0
    {
      target, staging := *, *;
      var rolledBack: bool := *;
      if rolledBack {
        depth := 0;
      }
    }

    /** A table with two columns of one name cannot be created. */
    method CreateStaging(cols: seq<string>) returns (ok: bool)
      modifies this
      ensures committed == old(committed) && (ok ==> depth == old(depth))
      ensures ok ==> Distinct(cols) && columns == cols && staging == [] && target == old(target)
    {
      ok := *;
      if ok && Distinct(cols) {
        columns, staging := cols, [];
      } else {
        ok := false;
        Break();
      }
    }

    method BeginTran() returns (ok: bool)
      modifies `depth, `target, `staging
      ensures ok ==> depth == old(depth) + 1 && target == (if old(depth) == 0 then committed else old(target))
      ensures ok ==> staging == old(staging)
      ensures !ok ==> depth == old(depth) || depth == 0
    {
      ok := *;
      if ok {
        target := if depth == 0 then committed else target;
        depth := depth + 1;
      } else {
        Break();
      }
    }

    /** `bulk_insert` opens a bulk request into staging. */
    method BulkInsert() returns (ok: bool)
      modifies `depth, `target, `staging, `bulk
      ensures ok ==> depth == old(depth) && target == old(target) && staging == old(staging) && bulk == []
      ensures !ok ==> depth == old(depth) || depth == 0
    {
      bulk := [];
      ok := *;
      if !ok {
        Break();
      }
    }

    method SendRow(row: seq<Data>) returns (ok: bool)
      modifies `depth, `target, `staging, `bulk
      ensures ok ==>
              depth == old(depth) && target == old(target) && staging == old(staging) && bulk == old(bulk) + [row]
    {
      ok := *;
      if ok {
        bulk := bulk + [row];
      } else {
        Break();
      }
    }

    /** The end of the bulk request: only now its rows are in staging. */
    method Finalize() returns (ok: bool)
      modifies `depth, `target, `staging, `bulk
      ensures ok ==> depth == old(depth) && target == old(target) && staging == old(staging) + old(bulk)
    {
      ok := *;
      if ok {
        staging, bulk := staging + bulk, [];
      } else {
        Break();
      }
    }

    /** A column list with a name in it twice is refused. */
    method InsertSelect(into: seq<string>, exprs: seq<Expr>) returns (ok: bool)
      requires CanEval(columns, exprs) && |into| == |exprs| && forall row <- staging :: |row| == |columns|
      modifies `depth, `target, `staging
      ensures ok ==> Distinct(into) && depth == old(depth) && staging == old(staging)
      ensures ok ==> target == old(target) + Selected(into, columns, old(staging), exprs)
    {
      ok := *;
      if ok && Distinct(into) {
        target := target + Selected(into, columns, staging, exprs);
      } else {
        ok := false;
        Break();
      }
    }

    /** A statement with a parameter out of range or a column named twice fails. */
    method Execute(stmt: Insert, params: seq<Data>) returns (ok: bool)
      requires depth > 0
      modifies `depth, `target, `staging
      ensures ok ==> depth == old(depth) && Runnable(stmt, params) && target == old(target) + Inserted(stmt, params)
      ensures !ok ==> depth == old(depth) || depth == 0
    {
      ok := *;
      if ok && Runnable(stmt, params) {
        target := target + Inserted(stmt, params);
      } else {
        ok := false;
        Break();
      }
    }

    method Truncate() returns (ok: bool)
      modifies `depth, `target, `staging
      ensures ok ==> depth == old(depth) && target == old(target) && staging == []
    {
      ok := *;
      if ok {
        staging := [];
      } else {
        Break();
      }
    }

    method CommitTran() returns (ok: bool)
      requires depth > 0
      modifies `committed, `depth, `target, `staging
      ensures ok ==> depth == old(depth) - 1 && staging == old(staging) && target == old(target)
      ensures !ok ==> depth == 0 || old(depth) - 1 <= depth <= old(depth)
      ensures committed == old(committed) || (old(depth) == 1 && committed == old(target))
      ensures ok && old(depth) == 1 ==> committed == old(target)
    {
      ok := *;
      var applied: bool := *;
      if ok || applied {
        committed := if depth == 1 then target else committed;
        depth := depth - 1;
      }
      if !ok {
        Break();
      }
    }

    /** What dropping an unfinished client-side transaction does. */
    method Rollback()
      modifies `depth, `target
      ensures depth == 0
    {
      depth, target := 0, committed;
    }
  }
}
