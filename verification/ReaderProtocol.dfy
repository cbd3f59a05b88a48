/**
  The streaming readers: a worker thread that batches source rows into a bounded channel, and the
  batch iterator that drains it. The Shapefile reader converts rows to a batch on the receiving
  side (crates/shpx-driver-shp/src/reader.rs), the PostGIS reader inside the worker
  (crates/shpx-driver-postgis/src/reader.rs); `inWorker` tells them apart. Every interleaving of
  the two threads is a run of the state machine below.
 */
module ReaderProtocol {
  import opened Lists
  import opened SequentialReader
  import opened Wrappers

  const CHANNEL_CAPACITY := 2

  datatype Message<R, B, E> = Rows(chunk: seq<R>) | Batch(batch: B) | Failed(error: E)

  /**
    The worker's program points; dropping the sender is part of `Finished`, and of a panic, which can
    happen anywhere: `Crashed` keeps where.
   */
  datatype Worker<R, B, E> =
    | Pulling(buf: seq<R>, source: seq<Item<R, E>>)
    | Sending(msg: Message<R, B, E>, source: seq<Item<R, E>>, last: bool)
    | Finished
    | Crashed(at: Worker<R, B, E>)

  /**
    `receiver`: the iterator still holds its receiving end. `ended`: the iterator has returned
    `None`. `abandoned`: the iterator was dropped before that.
   */
  datatype State<R, B, E> = State(worker: Worker<R, B, E>, queue: seq<Message<R, B, E>>, receiver: bool,
                                  delivered: seq<Result<B, E>>, ended: bool, abandoned: bool)

  function Init<R, B, E>(source: seq<Item<R, E>>): State<R, B, E> {
    State(Pulling([], source), [], true, [], false, false)
  }

  // ---------------------------------------------------------------------------
  // Steps
  // ---------------------------------------------------------------------------

  /** The message a full or final buffer becomes. */
  function Packed<R, B, E>(cfg: Config<R, B, E>, buf: seq<R>): Message<R, B, E> {
    if !cfg.inWorker then Rows(buf) else
    match cfg.convert(buf)
    case Ok(b) => Batch(b)
    case Err(e) => Failed(e)
  }

  function Pulled<R, B, E>(cfg: Config<R, B, E>, buf: seq<R>, source: seq<Item<R, E>>): Worker<R, B, E> {
    if source == [] then
      if buf == [] then Finished else Sending(Packed(cfg, buf), [], true)
    else match source[0]
      case Broken(e) => Sending(Failed(e), source[1..], true)
      case Row(r) =>
        var buf' := buf + [r];
        if |buf'| >= cfg.batchSize then
          var m := Packed(cfg, buf');
          Sending(m, source[1..], m.Failed?)
        else Pulling(buf', source[1..])
  }

  /** The worker's end of the channel is gone. */
  predicate Gone<R, B, E>(w: Worker<R, B, E>) {
    w.Finished? || w.Crashed?
  }

  /** One step of the worker; `None` when it is blocked on a full channel or gone. */
  function WorkerStep<R, B, E>(cfg: Config<R, B, E>, s: State<R, B, E>): Option<State<R, B, E>> {
    match s.worker
    case Finished => None
    case Crashed(_) => None
    case Pulling(buf, source) => Some(s.(worker := Pulled(cfg, buf, source)))
    case Sending(m, source, last) =>
      if !s.receiver then Some(s.(worker := Finished))
      else if |s.queue| < CHANNEL_CAPACITY then
        Some(s.(queue := s.queue + [m], worker := if last then Finished else Pulling([], source)))
      else None
  }

  /** What the iterator makes of a received message. */
  function Received<R, B, E>(cfg: Config<R, B, E>, m: Message<R, B, E>): Result<B, E> {
    match m
    case Rows(chunk) => cfg.convert(chunk)
    case Batch(b) => Ok(b)
    case Failed(e) => Err(e)
  }

  /** One call of `next`; `None` when it blocks on an empty channel. An error gives up the receiver. */
  function NextStep<R, B, E>(cfg: Config<R, B, E>, s: State<R, B, E>): Option<State<R, B, E>> {
    if !s.receiver then Some(s.(ended := true))
    else if s.queue != [] then
      var o := Received(cfg, s.queue[0]);
      Some(s.(delivered := s.delivered + [o], queue := if o.Ok? then s.queue[1..] else [], receiver := o.Ok?))
    else if Gone(s.worker) then Some(s.(receiver := false, ended := true))
    else None
  }

  /** The iterator is dropped early. */
  function DropStep<R, B, E>(s: State<R, B, E>): Option<State<R, B, E>> {
    if s.receiver then Some(s.(receiver := false, queue := [], abandoned := true)) else None
  }

  /** The worker panics. */
  function CrashStep<R, B, E>(s: State<R, B, E>): Option<State<R, B, E>> {
    if Gone(s.worker) then None else Some(s.(worker := Crashed(s.worker)))
  }

  ghost predicate Step<R, B, E>(cfg: Config<R, B, E>, s: State<R, B, E>, s': State<R, B, E>) {
    WorkerStep(cfg, s) == Some(s') || NextStep(cfg, s) == Some(s') || DropStep(s) == Some(s') ||
      CrashStep(s) == Some(s')
  }

  ghost predicate Run<R, B, E>(cfg: Config<R, B, E>, states: seq<State<R, B, E>>) {
    && states != []
    && forall i :: 0 < i < |states| ==> Step(cfg, states[i - 1], states[i])
  }

  // ---------------------------------------------------------------------------
  // Safety
  // ---------------------------------------------------------------------------

  /** The results still to come from the worker; those of a crashed one never will. */
  function WorkerResults<R, B, E>(cfg: Config<R, B, E>, w: Worker<R, B, E>): seq<Result<B, E>> {
    match w
    case Finished => []
    case Crashed(at) => WorkerResults(cfg, at)
    case Pulling(buf, source) => Script(cfg, buf, source)
    case Sending(m, source, last) => Then(Received(cfg, m), if last then [] else Script(cfg, [], source))
  }

  /** The results of the queued messages, then `rest`. */
  function QueueResults<R, B, E>(cfg: Config<R, B, E>, queue: seq<Message<R, B, E>>,
                                 rest: seq<Result<B, E>>): seq<Result<B, E>> {
    if queue == [] then rest else Then(Received(cfg, queue[0]), QueueResults(cfg, queue[1..], rest))
  }

  predicate EndsInError<B, E>(rs: seq<Result<B, E>>) {
    rs != [] && rs[|rs| - 1].Err?
  }

  ghost predicate Inv<R, B, E>(cfg: Config<R, B, E>, source: seq<Item<R, E>>, s: State<R, B, E>) {
    var all := Script(cfg, [], source);
    && |s.queue| <= CHANNEL_CAPACITY
    && (s.worker.Pulling? ==> |s.worker.buf| < cfg.batchSize)
    && (s.receiver ==> s.delivered + QueueResults(cfg, s.queue, WorkerResults(cfg, s.worker)) == all)
    && (s.receiver ==> !s.ended && !s.abandoned && !EndsInError(s.delivered))
    && s.delivered <= all
    && (!s.receiver && !s.abandoned ==>
          if EndsInError(s.delivered) then s.delivered == all
          else Gone(s.worker) && s.delivered + WorkerResults(cfg, s.worker) == all)
    && (s.worker.Crashed? ==> !Gone(s.worker.at))
  }

  lemma {:induction false} QueueAppends<R, B, E>(cfg: Config<R, B, E>, queue: seq<Message<R, B, E>>,
                                                 m: Message<R, B, E>, rest: seq<Result<B, E>>)
    ensures QueueResults(cfg, queue + [m], rest) == QueueResults(cfg, queue, Then(Received(cfg, m), rest))
  {
    if queue == [] {
      assert (queue + [m])[1..] == [];
    } else {
      QueueAppends(cfg, queue[1..], m, rest);
      assert (queue + [m])[1..] == queue[1..] + [m];
    }
  }

  lemma PullKeepsResults<R, B, E>(cfg: Config<R, B, E>, buf: seq<R>, source: seq<Item<R, E>>)
    ensures WorkerResults(cfg, Pulled(cfg, buf, source)) == Script(cfg, buf, source)
  {
  }

  /** What every single step of either thread keeps. */
  lemma StepKeepsInv<R, B, E>(cfg: Config<R, B, E>, source: seq<Item<R, E>>, s: State<R, B, E>, s': State<R, B, E>)
    requires cfg.batchSize > 0 && Inv(cfg, source, s) && Step(cfg, s, s')
    ensures Inv(cfg, source, s')
  {
    if WorkerStep(cfg, s) == Some(s') {
      match s.worker
      case Pulling(buf, src) => PullKeepsResults(cfg, buf, src);
      case Sending(m, src, last) => QueueAppends(cfg, s.queue, m, if last then [] else Script(cfg, [], src));
    }
  }

  lemma {:induction false} RunKeepsInv<R, B, E>(cfg: Config<R, B, E>, source: seq<Item<R, E>>,
                                                states: seq<State<R, B, E>>)
    requires cfg.batchSize > 0 && Run(cfg, states) && states[0] == Init(source)
    ensures Inv(cfg, source, states[|states| - 1])
  {
    if |states| > 1 {
      RunKeepsInv(cfg, source, states[..|states| - 1]);
      StepKeepsInv(cfg, source, states[|states| - 2], states[|states| - 1]);
    }
  }

  // ---------------------------------------------------------------------------
  // The theorems
  // ---------------------------------------------------------------------------

  /**
    Safety over every run: what the iterator has delivered is an in-order prefix of the sequential
    results, only the last of them can be an error, and at most two messages are queued.
   */
  lemma Safety<R, B, E>(cfg: Config<R, B, E>, source: seq<Item<R, E>>, states: seq<State<R, B, E>>)
    requires cfg.batchSize > 0 && Run(cfg, states) && states[0] == Init(source)
    ensures var s := states[|states| - 1];
            && s.delivered <= Script(cfg, [], source)
            && (forall i :: 0 <= i < |s.delivered| - 1 ==> s.delivered[i].Ok?)
            && |s.queue| <= 2
  {
    RunKeepsInv(cfg, source, states);
    ScriptIsChunked(cfg, [], source);
    var s := states[|states| - 1];
    var err := BreakOf(source);
    var rest := if err.Some? then [Err(err.value)] else [];
    forall i | 0 <= i < |s.delivered| - 1
      ensures s.delivered[i].Ok?
    {
      ConvertedErrorLast(cfg, Chunks(cfg.batchSize, [] + RowsOf(source), err.None?), rest, i);
    }
  }

  /** In terms of the source, in every run and at every moment: batch `i` is the `i`-th chunk of its rows. */
  lemma DeliveredChunks<R, B, E>(cfg: Config<R, B, E>, source: seq<Item<R, E>>, states: seq<State<R, B, E>>, i: nat)
    requires cfg.batchSize > 0 && Run(cfg, states) && states[0] == Init(source)
    requires var s := states[|states| - 1]; i < |s.delivered| && s.delivered[i].Ok?
    ensures var s, chunks := states[|states| - 1], Chunks(cfg.batchSize, RowsOf(source), BreakOf(source).None?);
            i < |chunks| && s.delivered[i] == cfg.convert(chunks[i])
  {
    Safety(cfg, source, states);
    ScriptIsChunked(cfg, [], source);
    var rows, err := RowsOf(source), BreakOf(source);
    assert [] + rows == rows;
    var rest: seq<Result<B, E>> := if err.Some? then [Err(err.value)] else [];
    ConvertedOkAt(cfg, Chunks(cfg.batchSize, rows, err.None?), rest, i);
  }

  /** Nothing follows an error or the end: once the receiver is gone no step delivers any more. */
  lemma NothingAfterTheEnd<R, B, E>(cfg: Config<R, B, E>, s: State<R, B, E>, s': State<R, B, E>)
    requires !s.receiver && Step(cfg, s, s')
    ensures !s'.receiver && s'.delivered == s.delivered
  {
  }

  /** The source never broke, and its rows were delivered, chunk by chunk in order. */
  ghost predicate Complete<R, B, E>(cfg: Config<R, B, E>, source: seq<Item<R, E>>, delivered: seq<Result<B, E>>)
    requires cfg.batchSize > 0
  {
    var chunks := Chunks(cfg.batchSize, RowsOf(source), true);
    && BreakOf(source).None? && |RowsOf(source)| == |source|
    && |delivered| == |chunks| && Joined(chunks) == RowsOf(source)
    && (forall i :: 0 <= i < |chunks| ==> delivered[i] == cfg.convert(chunks[i]))
    && (forall i :: 0 <= i < |chunks| - 1 ==> |chunks[i]| == cfg.batchSize)
  }

  lemma {:induction false} ResultsInHand<R, B, E>(cfg: Config<R, B, E>, buf: seq<R>, source: seq<Item<R, E>>)
    requires cfg.batchSize > 0
    ensures Script(cfg, buf, source) == [] <==> buf == [] && source == []
    decreases |source|
  {
    if source != [] && source[0].Row? && |buf| + 1 < cfg.batchSize {
      ResultsInHand(cfg, buf + [source[0].row], source[1..]);
    }
  }

  lemma CompleteIsAll<R, B, E>(cfg: Config<R, B, E>, source: seq<Item<R, E>>, delivered: seq<Result<B, E>>)
    requires cfg.batchSize > 0 && AllOk(delivered) && delivered <= Script(cfg, [], source)
    ensures Complete(cfg, source, delivered) <==> delivered == Script(cfg, [], source)
  {
    if delivered == Script(cfg, [], source) {
      CleanScript(cfg, source);
    }
    if Complete(cfg, source, delivered) {
      ScriptIsChunked(cfg, [], source);
      assert [] + RowsOf(source) == RowsOf(source);
      ConvertedLength(cfg, Chunks(cfg.batchSize, RowsOf(source), true), []);
    }
  }

  /**
    What a clean end means: if the iterator was used until it returned `None` and no error came, it
    has delivered all the rows if and only if the worker did not panic, or had nothing left then.
    The iterator cannot tell a panic from the end.
   */
  lemma CleanEnd<R, B, E>(cfg: Config<R, B, E>, source: seq<Item<R, E>>, states: seq<State<R, B, E>>)
    requires cfg.batchSize > 0 && Run(cfg, states) && states[0] == Init(source)
    requires var s := states[|states| - 1]; s.ended && !s.abandoned && AllOk(s.delivered)
    ensures var s := states[|states| - 1];
            Complete(cfg, source, s.delivered) <==> (s.worker.Crashed? ==> s.worker.at == Pulling([], []))
  {
    RunKeepsInv(cfg, source, states);
    var s := states[|states| - 1];
    assert !EndsInError(s.delivered);
    CompleteIsAll(cfg, source, s.delivered);
    assert s.delivered + [] == s.delivered;
    if s.worker.Crashed? {
      match s.worker.at
      case Pulling(buf, rest) =>
        assert WorkerResults(cfg, s.worker.at) == Script(cfg, buf, rest);
        ResultsInHand(cfg, buf, rest);
      case Sending(_, _, _) =>
        assert WorkerResults(cfg, s.worker.at) != [];
    }
  }

  /** Such a run: one row in the source, a panic before it is sent, and an end without an error or a row. */
  lemma PanicLooksLikeTheEnd<R, B, E>(cfg: Config<R, B, E>, row: R)
    requires cfg.batchSize > 0
    ensures exists states: seq<State<R, B, E>> ::
              Run(cfg, states) && states[0] == Init([Item.Row(row)])
              && states[|states| - 1].ended && !states[|states| - 1].abandoned && states[|states| - 1].delivered == []
  {
    var first: State<R, B, E> := Init([Item.Row(row)]);
    var crashed := first.(worker := Crashed(first.worker));
    var states := [first, crashed, crashed.(receiver := false, ended := true)];
    assert Step(cfg, states[0], states[1]) && Step(cfg, states[1], states[2]);
    assert Run(cfg, states);
  }

  // ---------------------------------------------------------------------------
  // Progress
  // ---------------------------------------------------------------------------

  /** No deadlock: while the iterator holds its receiver, one of the two threads can move. */
  lemma NoDeadlock<R, B, E>(cfg: Config<R, B, E>, source: seq<Item<R, E>>, s: State<R, B, E>)
    requires Inv(cfg, source, s)
    ensures s.receiver ==> WorkerStep(cfg, s).Some? || NextStep(cfg, s).Some?
  {
  }

  function WorkerFuel<R, B, E>(w: Worker<R, B, E>): nat {
    match w
    case Finished => 0
    case Crashed(_) => 0
    case Pulling(_, source) => 3 * |source| + 3
    case Sending(_, source, last) => if last then 1 else 3 * |source| + 4
  }

  function Fuel<R, B, E>(s: State<R, B, E>): nat {
    2 * WorkerFuel(s.worker) + |s.queue| + (if s.receiver then 1 else 0) + (if s.ended then 0 else 1)
  }

  /** Every step but asking again after the end uses up fuel, so every run reaches its end. */
  lemma StepsRunOut<R, B, E>(cfg: Config<R, B, E>, s: State<R, B, E>, s': State<R, B, E>)
    requires Step(cfg, s, s') && s' != s
    ensures Fuel(s') < Fuel(s)
  {
  }

  ghost predicate NoStutter<R, B, E>(states: seq<State<R, B, E>>) {
    forall i :: 0 < i < |states| ==> states[i] != states[i - 1]
  }

  lemma {:induction false} Countdown(fuels: seq<nat>)
    requires fuels != [] && forall i :: 0 < i < |fuels| ==> fuels[i] < fuels[i - 1]
    ensures |fuels| - 1 + fuels[|fuels| - 1] <= fuels[0]
  {
    if |fuels| > 1 {
      Countdown(fuels[..|fuels| - 1]);
    }
  }

  lemma RunUsesFuel<R, B, E>(cfg: Config<R, B, E>, states: seq<State<R, B, E>>)
    requires Run(cfg, states) && NoStutter(states)
    ensures |states| - 1 + Fuel(states[|states| - 1]) <= Fuel(states[0])
  {
    var fuels := seq(|states|, i requires 0 <= i < |states| => Fuel(states[i]));
    forall i | 0 < i < |fuels| ensures fuels[i] < fuels[i - 1] {
      StepsRunOut(cfg, states[i - 1], states[i]);
    }
    Countdown(fuels);
  }

  /** No thread can change anything any more. */
  ghost predicate Stuck<R, B, E>(cfg: Config<R, B, E>, s: State<R, B, E>) {
    && (WorkerStep(cfg, s).Some? ==> WorkerStep(cfg, s).value == s)
    && (NextStep(cfg, s).Some? ==> NextStep(cfg, s).value == s)
    && (DropStep(s).Some? ==> DropStep(s).value == s)
    && (CrashStep(s).Some? ==> CrashStep(s).value == s)
  }

  /**
    Every run ends: it makes at most `Fuel` steps that change anything, and it can only stop once
    the worker is gone and the iterator has returned `None`.
   */
  lemma EveryRunEnds<R, B, E>(cfg: Config<R, B, E>, source: seq<Item<R, E>>, states: seq<State<R, B, E>>)
    requires cfg.batchSize > 0 && Run(cfg, states) && states[0] == Init(source) && NoStutter(states)
    ensures |states| <= 6 * |source| + 9
    ensures Stuck(cfg, states[|states| - 1]) ==> states[|states| - 1].ended && Gone(states[|states| - 1].worker)
  {
    RunUsesFuel(cfg, states);
    RunKeepsInv(cfg, source, states);
    NoDeadlock(cfg, source, states[|states| - 1]);
  }

  function StopFuel<R, B, E>(cfg: Config<R, B, E>, w: Worker<R, B, E>): int {
    match w
    case Finished => 0
    case Crashed(_) => 0
    case Sending(_, _, _) => 1
    case Pulling(buf, _) => cfg.batchSize - |buf| + 1
  }

  /** How often the worker moves along a run. */
  function WorkerMoves<R(==), B(==), E(==)>(states: seq<State<R, B, E>>): nat {
    if |states| <= 1 then 0
    else (if states[1].worker != states[0].worker then 1 else 0) + WorkerMoves(states[1..])
  }

  /** Once the receiver is gone the worker moves at most `batchSize + 1` more times. */
  lemma {:induction false} WorkerStops<R, B, E>(cfg: Config<R, B, E>, source: seq<Item<R, E>>,
                                                states: seq<State<R, B, E>>)
    requires cfg.batchSize > 0 && Run(cfg, states) && Inv(cfg, source, states[0]) && !states[0].receiver
    ensures WorkerMoves(states) <= StopFuel(cfg, states[0].worker) <= cfg.batchSize + 1
  {
    if |states| > 1 {
      assert Step(cfg, states[0], states[1]);
      StepKeepsInv(cfg, source, states[0], states[1]);
      var tail := states[1..];
      forall i | 0 < i < |tail|
        ensures Step(cfg, tail[i - 1], tail[i])
      {
        assert Step(cfg, states[i], states[i + 1]);
      }
      WorkerStops(cfg, source, tail);
    }
  }
}
