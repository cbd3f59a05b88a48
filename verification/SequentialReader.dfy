/**
  What a reader that batches rows returns, one call after the other, when nothing runs beside it:
  the reference for the streaming readers.
 */
module SequentialReader {
  import opened Lists
  import opened Wrappers

  datatype Config<!R, B, E> = Config(batchSize: nat, inWorker: bool, convert: seq<R> -> Result<B, E>)

  /** What the row source yields before it ends. */
  datatype Item<R, E> = Row(row: R) | Broken(error: E)

  /** An error ends the results. */
  function Then<B, E>(o: Result<B, E>, rest: seq<Result<B, E>>): seq<Result<B, E>> {
    if o.Ok? then [o] + rest else [o]
  }

  /** The results a single thread would return, from a partly filled buffer on. */
  function Script<R, B, E>(cfg: Config<R, B, E>, buf: seq<R>, source: seq<Item<R, E>>): seq<Result<B, E>>
    decreases |source|
  {
    if source == [] then
      if buf == [] then [] else [cfg.convert(buf)]
    else match source[0]
      case Broken(e) => [Err(e)]
      case Row(r) =>
        var buf' := buf + [r];
        if |buf'| >= cfg.batchSize then Then(cfg.convert(buf'), Script(cfg, [], source[1..]))
        else Script(cfg, buf', source[1..])
  }

  // ---------------------------------------------------------------------------
  // The results in terms of the source rows
  // ---------------------------------------------------------------------------

  /** The rows before the source breaks, and the error it breaks with. */
  function RowsOf<R, E>(source: seq<Item<R, E>>): seq<R> {
    if source == [] || source[0].Broken? then [] else [source[0].row] + RowsOf(source[1..])
  }

  function BreakOf<R, E>(source: seq<Item<R, E>>): Option<E> {
    if source == [] then None
    else match source[0]
      case Broken(e) => Some(e)
      case Row(_) => BreakOf(source[1..])
  }

  /** Chunks converted in order, up to and including the first that fails, then `rest`. */
  function Converted<R, B, E>(cfg: Config<R, B, E>, chunks: seq<seq<R>>, rest: seq<Result<B, E>>): seq<Result<B, E>> {
    if chunks == [] then rest else Then(cfg.convert(chunks[0]), Converted(cfg, chunks[1..], rest))
  }

  lemma {:induction false} ScriptIsChunked<R, B, E>(cfg: Config<R, B, E>, buf: seq<R>, source: seq<Item<R, E>>)
    requires |buf| < cfg.batchSize
    ensures var err := BreakOf(source);
            Script(cfg, buf, source) ==
            Converted(cfg, Chunks(cfg.batchSize, buf + RowsOf(source), err.None?),
                      if err.Some? then [Err(err.value)] else [])
    decreases |source|
  {
    if source == [] {
      assert buf + [] == buf;
    } else if source[0].Row? {
      var buf', tail := buf + [source[0].row], RowsOf(source[1..]);
      assert buf + RowsOf(source) == buf' + tail;
      if |buf'| >= cfg.batchSize {
        ScriptIsChunked(cfg, [], source[1..]);
        assert (buf' + tail)[..cfg.batchSize] == buf' && (buf' + tail)[cfg.batchSize..] == [] + tail;
      } else {
        ScriptIsChunked(cfg, buf', source[1..]);
      }
    } else {
      assert buf + [] == buf;
    }
  }

  ghost predicate AllOk<B, E>(rs: seq<Result<B, E>>) {
    forall i :: 0 <= i < |rs| ==> rs[i].Ok?
  }

  /** Results without an error are the converted chunks, one for one. */
  lemma {:induction false} ConvertedAllOk<R, B, E>(cfg: Config<R, B, E>, chunks: seq<seq<R>>, rest: seq<Result<B, E>>)
    requires AllOk(Converted(cfg, chunks, rest))
    ensures var rs := Converted(cfg, chunks, rest);
            && |rs| == |chunks| + |rest| && (rest == [] || rest[0].Ok?)
            && forall i :: 0 <= i < |chunks| ==> rs[i] == cfg.convert(chunks[i])
  {
    if chunks != [] {
      var rs := Converted(cfg, chunks, rest);
      assert rs[0].Ok?;
      assert rs[1..] == Converted(cfg, chunks[1..], rest);
      forall i | 0 <= i < |rs[1..]|
        ensures rs[1..][i].Ok?
      {
        assert rs[i + 1].Ok?;
      }
      ConvertedAllOk(cfg, chunks[1..], rest);
    }
  }

  lemma {:induction false} ConvertedLength<R, B, E>(cfg: Config<R, B, E>, chunks: seq<seq<R>>, rest: seq<Result<B, E>>)
    ensures |Converted(cfg, chunks, rest)| <= |chunks| + |rest|
  {
    if chunks != [] {
      ConvertedLength(cfg, chunks[1..], rest);
    }
  }

  /** A converted chunk stands where its chunk stands. */
  lemma {:induction false} ConvertedOkAt<R, B, E>(cfg: Config<R, B, E>, chunks: seq<seq<R>>, rest: seq<Result<B, E>>,
                                                  i: nat)
    requires forall j :: 0 <= j < |rest| ==> rest[j].Err?
    requires i < |Converted(cfg, chunks, rest)| && Converted(cfg, chunks, rest)[i].Ok?
    ensures i < |chunks| && Converted(cfg, chunks, rest)[i] == cfg.convert(chunks[i])
  {
    if chunks != [] && i > 0 {
      ConvertedOkAt(cfg, chunks[1..], rest, i - 1);
    }
  }

  lemma {:induction false} ConvertedErrorLast<R, B, E>(cfg: Config<R, B, E>, chunks: seq<seq<R>>,
                                                       rest: seq<Result<B, E>>, i: nat)
    requires |rest| <= 1 && i + 1 < |Converted(cfg, chunks, rest)|
    ensures Converted(cfg, chunks, rest)[i].Ok?
  {
    if chunks != [] && cfg.convert(chunks[0]).Ok? && i > 0 {
      ConvertedErrorLast(cfg, chunks[1..], rest, i - 1);
    }
  }

  lemma {:induction false} NoBreakMeansAllRows<R, E>(source: seq<Item<R, E>>)
    requires BreakOf(source).None?
    ensures |RowsOf(source)| == |source|
  {
    if source != [] {
      NoBreakMeansAllRows(source[1..]);
    }
  }

  /**
    Without an error the source never broke, and the results are its rows chunk by chunk in order,
    all chunks but the last exactly full and none empty.
   */
  lemma CleanScript<R, B, E>(cfg: Config<R, B, E>, source: seq<Item<R, E>>)
    requires cfg.batchSize > 0 && AllOk(Script(cfg, [], source))
    ensures BreakOf(source).None? && |RowsOf(source)| == |source|
    ensures var results, chunks := Script(cfg, [], source), Chunks(cfg.batchSize, RowsOf(source), true);
            && |results| == |chunks| && Joined(chunks) == RowsOf(source)
            && (forall i :: 0 <= i < |chunks| ==> results[i] == cfg.convert(chunks[i]) && chunks[i] != [])
            && (forall i :: 0 <= i < |chunks| - 1 ==> |chunks[i]| == cfg.batchSize)
  {
    ScriptIsChunked(cfg, [], source);
    var rows, err := RowsOf(source), BreakOf(source);
    assert [] + rows == rows;
    var rest: seq<Result<B, E>> := if err.Some? then [Err(err.value)] else [];
    ConvertedAllOk(cfg, Chunks(cfg.batchSize, rows, err.None?), rest);
    NoBreakMeansAllRows(source);
    ChunksPartition(cfg.batchSize, rows);
  }
}
