/**
  The SQL Server bulk loader: rows go to a temporary staging table and from there into the target,
  one transaction per chunk (crates/shpx-driver-sqlserver/src/staging.rs and bulk.rs).
 */
module Staging {
  import opened Database
  import opened Lists
  import opened LoadRuns
  import opened Wrappers

  function Encoded(l: Layout, row: Row): (ds: seq<Data>)
    requires l.Valid() && l.Fits(row)
    ensures |ds| == |l.StagingColumns()|
  {
    seq(|l.attrs|, i requires 0 <= i < |l.attrs| => assert l.attrs[i] in l.attrs; Sql(row[l.attrs[i]]))
    + [Sql(row[l.geom]), Int(l.srid)]
  }

  /** `encode_row`: attribute cells, then WKB, then SRID. */
  method EncodeRow(l: Layout, row: Row) returns (r: Result<seq<Data>, LoadError>)
    requires l.Valid() && l.Fits(row)
    ensures r.Ok? <==> l.Encodable(row)
    ensures if r.Ok? then r.value == Encoded(l, row) else r.error == EncodeError
  {
    var out: seq<Data> := [];
    for i := 0 to |l.attrs|
      invariant out == Encoded(l, row)[..i]
      invariant forall k :: 0 <= k < i ==> l.attrs[k] in l.attrs && row[l.attrs[k]] != Unsupported
    {
      assert l.attrs[i] in l.attrs;
      if row[l.attrs[i]] == Unsupported {
        return Err(EncodeError);
      }
      out := out + [Sql(row[l.attrs[i]])];
    }
    out := out + [Sql(row[l.geom])];
    out := out + [Int(l.srid)];
    return Ok(out);
  }

  lemma SelectItem(l: Layout, row: Row, k: nat)
    requires l.Valid() && l.Fits(row) && Distinct(l.StagingColumns()) && k <= |l.attrs|
    ensures var cols, e := l.StagingColumns(), l.SelectList()[k];
            && CanEvalOne(cols, e)
            && Eval(cols, Encoded(l, row), e) == InOrder(l, row)[k]
  {
    var cols := l.StagingColumns();
    if k < |l.attrs| {
      assert cols[k] == l.AttrNames()[k];
      IndexUnique(cols, k);
    } else {
      assert cols[k] == STAGING_WKB_COL && cols[k + 1] == STAGING_SRID_COL;
      IndexUnique(cols, k);
      IndexUnique(cols, k + 1);
    }
  }

  lemma SelectsInOrder(l: Layout, row: Row)
    requires l.Valid() && l.Fits(row) && Distinct(l.StagingColumns())
    ensures CanEval(l.StagingColumns(), l.SelectList())
    ensures EvalAll(l.StagingColumns(), Encoded(l, row), l.SelectList()) == InOrder(l, row)
  {
    forall k: nat | k <= |l.attrs|
      ensures CanEvalOne(l.StagingColumns(), l.SelectList()[k])
      ensures Eval(l.StagingColumns(), Encoded(l, row), l.SelectList()[k]) == InOrder(l, row)[k]
    {
      SelectItem(l, row, k);
    }
  }

  /**
    Columns stay aligned: if the server takes both column lists at all (no name stands in one of them
    twice), selecting by name from the encoded row puts every cell under its own name in the target.
   */
  lemma ColumnsAligned(l: Layout, row: Row)
    requires l.Valid() && l.Fits(row) && Distinct(l.StagingColumns()) && Distinct(l.TargetColumns())
    ensures CanEval(l.StagingColumns(), l.SelectList()) && |l.TargetColumns()| == |l.SelectList()|
    ensures RecordOf(l.TargetColumns(), EvalAll(l.StagingColumns(), Encoded(l, row), l.SelectList())) == l.Expected(row)
  {
    SelectsInOrder(l, row);
    InOrderIsExpected(l, row);
  }

  // ---------------------------------------------------------------------------
  // Chunks
  // ---------------------------------------------------------------------------

  /** The row groups that get a transaction each: whole batches, closed once they reach `size` rows. */
  function ChunksOf(size: nat, pending: seq<Row>, batches: seq<Batch>): seq<seq<Row>>
    decreases |batches|
  {
    if batches == [] then
      if pending == [] then [] else [pending]
    else
      var pending' := pending + batches[0];
      if |pending'| >= size then [pending'] + ChunksOf(size, [], batches[1..])
      else ChunksOf(size, pending', batches[1..])
  }

  /** Chunking neither loses nor repeats nor reorders a row. */
  lemma {:induction false} ChunksKeepRows(size: nat, pending: seq<Row>, batches: seq<Batch>)
    ensures Joined(ChunksOf(size, pending, batches)) == pending + Joined(batches)
    decreases |batches|
  {
    if batches == [] {
      JoinedOne(pending);
    } else {
      var pending', rest := pending + batches[0], batches[1..];
      assert batches == [batches[0]] + rest;
      JoinedConcat([batches[0]], rest);
      JoinedOne(batches[0]);
      if |pending'| >= size {
        ChunksKeepRows(size, [], rest);
        JoinedConcat([pending'], ChunksOf(size, [], rest));
        JoinedOne(pending');
      } else {
        ChunksKeepRows(size, pending', rest);
      }
    }
  }

  predicate SizesOk(size: nat, chunks: seq<seq<Row>>) {
    forall i :: 0 <= i < |chunks| ==> chunks[i] != [] && (i < |chunks| - 1 ==> |chunks[i]| >= size)
  }

  lemma SizesStep(size: nat, first: seq<Row>, rest: seq<seq<Row>>)
    requires 0 < size <= |first| && SizesOk(size, rest)
    ensures SizesOk(size, [first] + rest)
  {
  }

  /** Every chunk has rows, and every one but the last has at least `size` of them. */
  lemma {:induction false} ChunkSizes(size: nat, pending: seq<Row>, batches: seq<Batch>)
    requires 0 < size && |pending| < size
    ensures SizesOk(size, ChunksOf(size, pending, batches))
    decreases |batches|
  {
    if batches != [] {
      var pending' := pending + batches[0];
      if |pending'| >= size {
        ChunkSizes(size, [], batches[1..]);
        SizesStep(size, pending', ChunksOf(size, [], batches[1..]));
      } else {
        ChunkSizes(size, pending', batches[1..]);
      }
    }
  }

  // ---------------------------------------------------------------------------
  // The loader
  // ---------------------------------------------------------------------------

  function EncodedAll(l: Layout, rows: seq<Row>): (ds: seq<seq<Data>>)
    requires l.Valid() && l.AllFit(rows)
    ensures |ds| == |rows|
  {
    seq(|rows|, i requires 0 <= i < |rows| => assert rows[i] in rows; Encoded(l, rows[i]))
  }

  lemma SelectListEvaluates(l: Layout)
    requires l.Valid()
    ensures CanEval(l.StagingColumns(), l.SelectList())
  {
  }

  lemma SelectedIsExpected(l: Layout, rows: seq<Row>)
    requires l.Valid() && l.AllFit(rows) && Distinct(l.StagingColumns())
    ensures CanEval(l.StagingColumns(), l.SelectList())
    ensures forall d <- EncodedAll(l, rows) :: |d| == |l.StagingColumns()|
    ensures Distinct(l.TargetColumns()) ==>
            Selected(l.TargetColumns(), l.StagingColumns(), EncodedAll(l, rows), l.SelectList()) == l.ExpectedAll(rows)
  {
    SelectListEvaluates(l);
    if Distinct(l.TargetColumns()) {
      forall i | 0 <= i < |rows|
        ensures RecordOf(l.TargetColumns(), EvalAll(l.StagingColumns(), Encoded(l, rows[i]), l.SelectList()))
                == l.Expected(rows[i])
      {
        assert rows[i] in rows;
        ColumnsAligned(l, rows[i]);
      }
    }
  }

  /** Ready for the next chunk: an empty staging table with the right columns. */
  ghost predicate Ready(db: Server, l: Layout)
    requires l.Valid()
    reads db
  {
    db.staging == [] && db.columns == l.StagingColumns() && Distinct(db.columns)
  }

  method SendRows(db: Server, l: Layout, ghost before: seq<Row>, rows: Batch) returns (r: Result<(), LoadError>)
    requires l.Valid() && l.AllFit(before) && l.AllFit(rows) && db.bulk == EncodedAll(l, before)
    modifies db
    ensures db.committed == old(db.committed) && db.columns == old(db.columns)
    ensures r.Ok? ==> db.target == old(db.target) && db.staging == old(db.staging)
    ensures r.Err? ==> r.error in {EncodeError, ServerError}
    ensures r != Err(ServerError) ==> db.depth == old(db.depth)
    ensures l.AllFit(before + rows)
    ensures r.Ok? ==> db.bulk == EncodedAll(l, before + rows)
  {
    for i := 0 to |rows|
      invariant db.committed == old(db.committed) && db.columns == old(db.columns)
      invariant db.target == old(db.target) && db.depth == old(db.depth) && db.staging == old(db.staging)
      invariant l.AllFit(before + rows[..i]) && db.bulk == EncodedAll(l, before + rows[..i])
    {
      assert rows[i] in rows;
      assert before + rows[..i + 1] == before + rows[..i] + [rows[i]];
      var tokenRow :- EncodeRow(l, rows[i]);
      var ok := db.SendRow(tokenRow);
      if !ok { return Err(ServerError); }
    }
    assert rows[..|rows|] == rows;
    return Ok(());
  }

  method SendBatches(db: Server, l: Layout, batches: seq<Batch>) returns (r: Result<(), LoadError>)
    requires l.Valid() && l.BatchesFit(batches) && l.AllFit(Joined(batches)) && db.bulk == []
    modifies db
    ensures db.committed == old(db.committed) && db.columns == old(db.columns)
    ensures r.Ok? ==> db.target == old(db.target) && db.staging == old(db.staging)
    ensures r.Err? ==> r.error in {EncodeError, ServerError}
    ensures r != Err(ServerError) ==> db.depth == old(db.depth)
    ensures r.Ok? ==> db.bulk == EncodedAll(l, Joined(batches))
  {
    for i := 0 to |batches|
      invariant db.committed == old(db.committed) && db.columns == old(db.columns)
      invariant db.target == old(db.target) && db.depth == old(db.depth) && db.staging == old(db.staging)
      invariant l.AllFit(Joined(batches[..i])) && db.bulk == EncodedAll(l, Joined(batches[..i]))
    {
      JoinedStep(batches, i);
      r := SendRows(db, l, Joined(batches[..i]), batches[i]);
      if r.Err? { return; }
    }
    assert batches[..|batches|] == batches;
    return Ok(());
  }

  /** The bulk request of `flush_chunk`. */
  method FillStaging(db: Server, l: Layout, batches: seq<Batch>) returns (r: Result<(), LoadError>)
    requires l.Valid() && l.BatchesFit(batches) && l.AllFit(Joined(batches)) && db.staging == []
    modifies db
    ensures db.committed == old(db.committed) && db.columns == old(db.columns)
    ensures r.Ok? ==> db.target == old(db.target) && db.staging == EncodedAll(l, Joined(batches))
    ensures r.Err? ==> r.error in {EncodeError, ServerError}
    ensures r != Err(ServerError) ==> db.depth == old(db.depth)
  {
    var ok := db.BulkInsert();
    if !ok { return Err(ServerError); }
    r := SendBatches(db, l, batches);
    if r.Err? { return; }
    ok := db.Finalize();
    if !ok { return Err(ServerError); }
    assert [] + EncodedAll(l, Joined(batches)) == EncodedAll(l, Joined(batches));
  }

  /**
    `flush_chunk`: on success the chunk's rows are added, exactly once each and in order, and staging
    is empty again; they are committed if no transaction was open before. On any failure the committed
    rows are the old ones or, when only the commit reported the failure, the old ones and the whole
    chunk. Within an open transaction nothing is ever committed. Nobody rolls back: a row that cannot
    be encoded leaves one more transaction open.
   */
  method FlushChunk(db: Server, l: Layout, batches: seq<Batch>) returns (r: Result<(), LoadError>)
    requires l.Valid() && l.BatchesFit(batches) && l.AllFit(Joined(batches)) && Ready(db, l)
    modifies db
    ensures r.Ok? ==> Ready(db, l) && db.depth == old(db.depth)
    ensures r.Ok? ==> db.View() == old(db.View()) + l.ExpectedAll(Joined(batches))
    ensures db.committed == old(db.committed) ||
            (old(db.depth) == 0 && db.committed == old(db.committed) + l.ExpectedAll(Joined(batches)))
    ensures r.Err? ==> r.error in {EncodeError, ServerError}
    ensures r == Err(EncodeError) ==> db.depth == old(db.depth) + 1 && db.committed == old(db.committed)
    ensures r.Ok? || db.committed != old(db.committed) ==> Distinct(l.TargetColumns())
  {
    ghost var rows := Joined(batches);
    var ok := db.BeginTran();
    if !ok { return Err(ServerError); }
    r := FillStaging(db, l, batches);
    if r.Err? { return; }
    SelectedIsExpected(l, rows);
    ok := db.InsertSelect(l.TargetColumns(), l.SelectList());
    if !ok { return Err(ServerError); }
    ok := db.Truncate();
    if !ok { return Err(ServerError); }
    ok := db.CommitTran();
    if !ok { return Err(ServerError); }
  }

  lemma {:induction false} JoinedFits(l: Layout, batches: seq<Batch>)
    requires l.BatchesFit(batches)
    ensures l.AllFit(Joined(batches))
  {
    if batches != [] {
      JoinedFits(l, batches[..|batches| - 1]);
    }
  }

  /** The chunks hold source rows, so they fit the layout too. */
  lemma {:induction false} ChunksFit(l: Layout, size: nat, pending: seq<Row>, batches: seq<Batch>)
    requires l.AllFit(pending) && l.BatchesFit(batches)
    ensures l.BatchesFit(ChunksOf(size, pending, batches))
    decreases |batches|
  {
    if batches != [] {
      var pending', rest := pending + batches[0], batches[1..];
      if |pending'| >= size {
        ChunksFit(l, size, [], rest);
        var cs, tail := ChunksOf(size, pending, batches), ChunksOf(size, [], rest);
        forall i | 0 <= i < |cs| ensures l.AllFit(cs[i]) {
          assert i > 0 ==> cs[i] == tail[i - 1];
        }
      } else {
        ChunksFit(l, size, pending', rest);
      }
    }
  }

  /**
    How far a load has come: outside a transaction the chunks are committed as they are done, inside
    one that was left open nothing is.
   */
  ghost predicate Committed(db: Server, l: Layout, outer: nat, start: Table, chunks: seq<seq<Row>>, k: nat)
    requires l.Valid() && l.BatchesFit(chunks)
    reads db
  {
    k <= |chunks| && db.committed == if outer == 0 then AfterChunks(l, start, chunks, k) else start
  }

  /** Flushing the pending batches, which are chunk number `k`. */
  method FlushPending(db: Server, l: Layout, pending: seq<Batch>, ghost start: Table,
                      ghost view: Table, ghost chunks: seq<seq<Row>>, ghost k: nat)
    returns (r: Result<(), LoadError>, ghost k': nat)
    requires l.Valid() && l.BatchesFit(pending) && l.BatchesFit(chunks) && Ready(db, l)
    requires k < |chunks| && chunks[k] == Joined(pending)
    requires Committed(db, l, db.depth, start, chunks, k) && db.View() == AfterChunks(l, view, chunks, k)
    modifies db
    ensures Committed(db, l, old(db.depth), start, chunks, k')
    ensures r.Ok? ==> k' == k + 1 && Ready(db, l) && db.depth == old(db.depth)
    ensures r.Ok? ==> db.View() == AfterChunks(l, view, chunks, k')
    ensures r.Err? ==> r.error in {EncodeError, ServerError}
    ensures r == Err(EncodeError) ==> db.depth == old(db.depth) + 1
    ensures k' > k ==> Distinct(l.TargetColumns())
  {
    ghost var before := db.committed;
    AfterOneMore(l, start, chunks, k);
    AfterOneMore(l, view, chunks, k);
    r := FlushChunk(db, l, pending);
    k' := if r.Ok? || db.committed != before then k + 1 else k;
  }

  /**
    What the loop holds: `done` chunks are committed, and chunking the pending rows together with
    the batches still to come gives the remaining ones.
   */
  ghost predicate Progress(size: nat, chunks: seq<seq<Row>>, done: nat, pending: seq<Row>, rest: seq<Batch>) {
    && |pending| < size
    && done <= |chunks|
    && chunks[done..] == ChunksOf(size, pending, rest)
  }

  /** A batch that leaves the chunk open. */
  lemma ProgressPends(size: nat, chunks: seq<seq<Row>>, done: nat, pending: seq<Row>, rest: seq<Batch>)
    requires Progress(size, chunks, done, pending, rest) && rest != [] && |pending + rest[0]| < size
    ensures Progress(size, chunks, done, pending + rest[0], rest[1..])
  {
  }

  /** A batch that fills it. */
  lemma ProgressCloses(size: nat, chunks: seq<seq<Row>>, done: nat, pending: seq<Row>, rest: seq<Batch>)
    requires Progress(size, chunks, done, pending, rest) && rest != [] && |pending + rest[0]| >= size > 0
    ensures done < |chunks| && chunks[done] == pending + rest[0]
    ensures Progress(size, chunks, done + 1, [], rest[1..])
  {
  }

  /** The end of the input. */
  lemma ProgressEnds(size: nat, chunks: seq<seq<Row>>, done: nat, pending: seq<Row>)
    requires Progress(size, chunks, done, pending, [])
    ensures pending == [] ==> done == |chunks|
    ensures pending != [] ==> done + 1 == |chunks| && chunks[done] == pending
  {
  }

  /** The loop of `run_bulk_chunks` and the flush of what is left over. */
  method RunLoop(db: Server, l: Layout, results: seq<Result<Batch, ()>>, chunkSize: nat, ghost start: Table,
                 ghost view: Table, ghost batches: seq<Batch>, ghost chunks: seq<seq<Row>>)
    returns (r: Result<(), LoadError>, ghost done: nat)
    requires l.Valid() && chunkSize > 0 && Ready(db, l) && db.committed == start && db.View() == view
    requires batches == GoodPrefix(results) && l.BatchesFit(batches)
    requires chunks == ChunksOf(chunkSize, [], batches) && l.BatchesFit(chunks)
    modifies db
    ensures Committed(db, l, old(db.depth), start, chunks, done)
    ensures r.Ok? ==> |batches| == |results| && done == |chunks| && db.View() == AfterChunks(l, view, chunks, done)
    ensures r.Ok? || r == Err(SourceError) ==> db.depth == old(db.depth)
    ensures r == Err(EncodeError) ==> db.depth == old(db.depth) + 1
    ensures done > 0 ==> Distinct(l.TargetColumns())
  {
    var pending: seq<Batch>, pendingRows := [], 0;
    ghost var rows: seq<Row> := [];
    done := 0;
    for i := 0 to |results|
      invariant i <= |batches| && Ready(db, l) && db.depth == old(db.depth)
      invariant l.BatchesFit(pending) && pendingRows == |rows| && rows == Joined(pending)
      invariant Progress(chunkSize, chunks, done, rows, batches[i..])
      invariant done > 0 ==> Distinct(l.TargetColumns())
      invariant Committed(db, l, old(db.depth), start, chunks, done) && db.View() == AfterChunks(l, view, chunks, done)
    {
      if results[i].Err? { return Err(SourceError), done; }
      var batch := results[i].value;
      ghost var rest := batches[i..];
      assert rest[0] == batch && rest[1..] == batches[i + 1..];
      if |batch| > 0 {
        pendingRows := pendingRows + |batch|;
        JoinedConcat(pending, [batch]);
        JoinedOne(batch);
        pending := pending + [batch];
        if pendingRows >= chunkSize {
          ProgressCloses(chunkSize, chunks, done, rows, rest);
          r, done := FlushPending(db, l, pending, start, view, chunks, done);
          if r.Err? { return; }
          pending, pendingRows, rows := [], 0, [];
        } else {
          ProgressPends(chunkSize, chunks, done, rows, rest);
          rows := rows + batch;
        }
      } else {
        assert rows + batch == rows;
        ProgressPends(chunkSize, chunks, done, rows, rest);
      }
    }
    assert batches[|results|..] == [];
    ProgressEnds(chunkSize, chunks, done, rows);
    if pendingRows > 0 {
      r, done := FlushPending(db, l, pending, start, view, chunks, done);
      if r.Err? { return; }
    }
    return Ok(()), done;
  }

  /**
    `run_bulk_chunks`: on success every input row is in the table as the connection sees it, exactly
    once, in order and with its columns aligned, and all of them are committed if and only if no
    transaction was open before the call. Whatever fails and wherever, what is committed is the
    original content plus a whole number of leading chunks, and inside an open transaction just the
    original content.
   */
  method RunBulkChunks(db: Server, l: Layout, results: seq<Result<Batch, ()>>, chunkSize: nat)
    returns (r: Result<(), LoadError>, ghost landed: nat)
    requires l.Valid() && chunkSize > 0 && l.BatchesFit(GoodPrefix(results))
    modifies db
    ensures Allowed(SqlServer, l, Conn(old(db.committed), old(db.depth)),
                    Call(ChunksOf(chunkSize, [], GoodPrefix(results)), r, landed), Conn(db.committed, db.depth))
    ensures l.AllFit(Joined(GoodPrefix(results)))
    ensures r.Ok? ==> |GoodPrefix(results)| == |results|
    ensures landed > 0 || (r.Ok? && Joined(GoodPrefix(results)) != []) ==> Distinct(l.TargetColumns())
    ensures r.Ok? ==> db.View() == old(db.View()) + l.ExpectedAll(Joined(GoodPrefix(results)))
    ensures r.Ok? ==>
            (db.committed == old(db.committed) + l.ExpectedAll(Joined(GoodPrefix(results))) <==>
             old(db.depth) == 0 || Joined(GoodPrefix(results)) == [])
  {
    ghost var batches := GoodPrefix(results);
    ghost var chunks := ChunksOf(chunkSize, [], batches);
    ghost var start, view, outer := db.committed, db.View(), db.depth;
    JoinedFits(l, batches);
    ChunksFit(l, chunkSize, [], batches);
    landed := 0;
    var ok := db.CreateStaging(l.StagingColumns());
    if !ok { return Err(ServerError), landed; }
    ghost var done;
    r, done := RunLoop(db, l, results, chunkSize, start, view, batches, chunks);
    landed := if outer == 0 then done else 0;
    if r.Ok? {
      assert chunks[..done] == chunks;
      ChunksKeepRows(chunkSize, [], batches);
      assert [] + Joined(batches) == Joined(batches);
      AfterChunksIsAll(l, view, chunks, done);
    }
  }
}
