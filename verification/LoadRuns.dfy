/**
  Calls of a writer on one connection, one after the other, failed ones included: `write_batch` of
  either dialect and the SQL Server `bulk_write`
  (crates/shpx-driver-postgis/src/writer.rs:182-231, crates/shpx-driver-sqlserver/src/writer.rs:210-324).
 */
module LoadRuns {
  import opened Database
  import opened Lists
  import opened Wrappers

  datatype Dialect = Postgres | SqlServer

  /** What a call sees of the connection: the committed rows and how many transactions are open. */
  datatype Conn = Conn(committed: Table, depth: nat)

  /** A call with the chunks it commits one by one, what it returned, and how many of them got committed. */
  datatype Call = Call(chunks: seq<seq<Row>>, result: Result<(), LoadError>, landed: nat)

  /** The committed rows once the first `k` chunks are in. */
  ghost function AfterChunks(l: Layout, start: Table, chunks: seq<seq<Row>>, k: nat): Table
    requires l.Valid() && l.BatchesFit(chunks) && k <= |chunks|
  {
    if k == 0 then start else AfterChunks(l, start, chunks, k - 1) + l.ExpectedAll(chunks[k - 1])
  }

  lemma AfterOneMore(l: Layout, start: Table, chunks: seq<seq<Row>>, k: nat)
    requires l.Valid() && l.BatchesFit(chunks) && k < |chunks|
    ensures AfterChunks(l, start, chunks, k + 1) == AfterChunks(l, start, chunks, k) + l.ExpectedAll(chunks[k])
  {
  }

  /** Committing the chunks one after the other commits exactly their rows. */
  lemma {:induction false} AfterChunksIsAll(l: Layout, start: Table, chunks: seq<seq<Row>>, k: nat)
    requires l.Valid() && l.BatchesFit(chunks) && k <= |chunks|
    ensures l.AllFit(Joined(chunks[..k]))
    ensures AfterChunks(l, start, chunks, k) == start + l.ExpectedAll(Joined(chunks[..k]))
  {
    if k == 0 {
      assert l.ExpectedAll([]) == [];
    } else {
      AfterChunksIsAll(l, start, chunks, k - 1);
      JoinedStep(chunks, k - 1);
      ExpectedConcat(l, Joined(chunks[..k - 1]), chunks[k - 1]);
    }
  }

  /**
    What a call does: it commits leading chunks, and only when no transaction was left open before
    it. A call that returns Ok leaves the number of open transactions as it was, and has committed
    all its chunks if that is none. A PostgreSQL transaction that fails is rolled back. Nobody rolls
    back on SQL Server: a row that cannot be encoded leaves one more transaction open; after a
    failed statement the server itself may have ended them all.
   */
  ghost predicate Allowed(d: Dialect, l: Layout, s: Conn, c: Call, s': Conn)
    requires l.Valid()
  {
    && l.BatchesFit(c.chunks) && c.landed <= |c.chunks|
    && s'.committed == AfterChunks(l, s.committed, c.chunks, c.landed)
    && (s.depth > 0 ==> c.landed == 0)
    && (c.result.Ok? ==> s'.depth == s.depth && (s.depth == 0 ==> c.landed == |c.chunks|))
    && (c.result == Err(SourceError) ==> s'.depth == s.depth)
    && (d == SqlServer && c.result == Err(EncodeError) ==> s'.depth == s.depth + 1)
    && (d == Postgres && s.depth == 0 ==> s'.depth == 0)
  }

  ghost predicate StepAt(d: Dialect, l: Layout, states: seq<Conn>, calls: seq<Call>, i: nat)
    requires l.Valid() && i < |calls| < |states|
  {
    Allowed(d, l, states[i], calls[i], states[i + 1])
  }

  ghost predicate CallRun(d: Dialect, l: Layout, states: seq<Conn>, calls: seq<Call>)
    requires l.Valid()
  {
    && |states| == |calls| + 1 && states[0].depth == 0
    && forall i: nat :: i < |calls| ==> StepAt(d, l, states, calls, i)
  }

  // ---------------------------------------------------------------------------
  // What gets committed
  // ---------------------------------------------------------------------------

  predicate AllLanded(calls: seq<Call>, n: nat) {
    forall i :: 0 <= i < n && i < |calls| ==> calls[i].landed <= |calls[i].chunks|
  }

  /** The chunks that the first `n` calls committed, in order. */
  function LandedChunks(calls: seq<Call>, n: nat): seq<seq<Row>>
    requires n <= |calls| && AllLanded(calls, n)
  {
    if n == 0 then [] else LandedChunks(calls, n - 1) + calls[n - 1].chunks[..calls[n - 1].landed]
  }

  /** The rows are `rows`, and exactly these were added to `start`. */
  ghost predicate Added(l: Layout, start: Table, rows: seq<Row>, now: Table)
    requires l.Valid()
  {
    l.AllFit(rows) && now == start + l.ExpectedAll(rows)
  }

  lemma AddedMore(l: Layout, start: Table, a: seq<Row>, mid: Table, b: seq<Row>,
                  now: Table)
    requires l.Valid() && Added(l, start, a, mid) && Added(l, mid, b, now)
    ensures Added(l, start, a + b, now)
  {
    ExpectedConcat(l, a, b);
    Regroup(start, l.ExpectedAll(a), l.ExpectedAll(b));
  }

  /** What one call adds. */
  lemma CallAdds(d: Dialect, l: Layout, s: Conn, c: Call, s': Conn)
    requires l.Valid() && Allowed(d, l, s, c, s')
    ensures c.landed <= |c.chunks| && Added(l, s.committed, Joined(c.chunks[..c.landed]), s'.committed)
  {
    AfterChunksIsAll(l, s.committed, c.chunks, c.landed);
  }

  /** Over any run of calls, failed ones included, whole chunks are committed in order and nothing else. */
  lemma {:induction false} RunCommitsWholeChunks(d: Dialect, l: Layout, states: seq<Conn>, calls: seq<Call>, n: nat)
    requires l.Valid() && CallRun(d, l, states, calls) && n <= |calls|
    ensures AllLanded(calls, n) && Added(l, states[0].committed, Joined(LandedChunks(calls, n)), states[n].committed)
  {
    if n > 0 {
      var c := calls[n - 1];
      RunCommitsWholeChunks(d, l, states, calls, n - 1);
      assert StepAt(d, l, states, calls, n - 1);
      CallAdds(d, l, states[n - 1], c, states[n]);
      var before, now := LandedChunks(calls, n - 1), c.chunks[..c.landed];
      JoinedConcat(before, now);
      AddedMore(l, states[0].committed, Joined(before), states[n - 1].committed, Joined(now), states[n].committed);
    }
  }

  // ---------------------------------------------------------------------------
  // Which calls commit
  // ---------------------------------------------------------------------------

  /** PostgreSQL: a call that returns Ok has committed everything, whatever happened before it. */
  lemma {:induction false} PostgresOkLands(l: Layout, states: seq<Conn>, calls: seq<Call>, i: nat)
    requires l.Valid() && CallRun(Postgres, l, states, calls) && i < |calls|
    ensures states[i].depth == 0 && (calls[i].result.Ok? ==> calls[i].landed == |calls[i].chunks|)
  {
    if i > 0 {
      PostgresOkLands(l, states, calls, i - 1);
      assert StepAt(Postgres, l, states, calls, i - 1);
    }
    assert StepAt(Postgres, l, states, calls, i);
  }

  /** None of the calls from `a` up to `b` reported a failure of the server. */
  predicate ServerHolds(calls: seq<Call>, a: nat, b: nat) {
    forall i :: a <= i < b && i < |calls| ==> calls[i].result != Err(ServerError)
  }

  /** How many of the calls from `a` up to `b` met a row that cannot be encoded. */
  function EncodeFailures(calls: seq<Call>, a: nat, b: nat): nat
    requires a <= b <= |calls|
  {
    if a == b then 0
    else EncodeFailures(calls, a, b - 1) + if calls[b - 1].result == Err(EncodeError) then 1 else 0
  }

  lemma {:induction false} SqlServerDepth(l: Layout, states: seq<Conn>, calls: seq<Call>, a: nat, b: nat)
    requires l.Valid() && CallRun(SqlServer, l, states, calls) && a <= b <= |calls| && ServerHolds(calls, a, b)
    ensures states[b].depth == states[a].depth + EncodeFailures(calls, a, b)
  {
    if a < b {
      SqlServerDepth(l, states, calls, a, b - 1);
      assert StepAt(SqlServer, l, states, calls, b - 1);
      match calls[b - 1].result
      case Ok(_) =>
      case Err(e) =>
        assert calls[b - 1].result == Err(e) && e != ServerError;
        assert e == SourceError || e == EncodeError;
    }
  }

  lemma {:induction false} NoEncodeFailures(calls: seq<Call>, a: nat, b: nat)
    requires a <= b <= |calls|
    ensures EncodeFailures(calls, a, b) == 0 <==> forall i :: a <= i < b ==> calls[i].result != Err(EncodeError)
  {
    if a < b {
      NoEncodeFailures(calls, a, b - 1);
    }
  }

  /**
    SQL Server: as long as the server itself reports no failure, a call that returns Ok has committed
    its rows if and only if no earlier call met a row it could not encode; otherwise it has committed
    none of them.
   */
  lemma SqlServerOkLands(l: Layout, states: seq<Conn>, calls: seq<Call>, i: nat)
    requires l.Valid() && CallRun(SqlServer, l, states, calls) && ServerHolds(calls, 0, i)
    requires i < |calls| && calls[i].result.Ok?
    ensures calls[i].landed == |calls[i].chunks| <==>
            calls[i].chunks == [] || forall k :: 0 <= k < i ==> calls[k].result != Err(EncodeError)
    ensures calls[i].landed == 0 || calls[i].landed == |calls[i].chunks|
  {
    SqlServerDepth(l, states, calls, 0, i);
    NoEncodeFailures(calls, 0, i);
    assert StepAt(SqlServer, l, states, calls, i);
  }

  /** Whatever came before: such a call keeps all later ones from committing, until the server fails. */
  lemma EncodeFailureBlocks(l: Layout, states: seq<Conn>, calls: seq<Call>, k: nat, i: nat)
    requires l.Valid() && CallRun(SqlServer, l, states, calls) && k < i < |calls|
    requires calls[k].result == Err(EncodeError) && ServerHolds(calls, k, i)
    ensures calls[i].landed == 0 && states[i + 1].committed == states[i].committed
  {
    SqlServerDepth(l, states, calls, k, i);
    NoEncodeFailures(calls, k, i);
    assert StepAt(SqlServer, l, states, calls, i);
  }
}
