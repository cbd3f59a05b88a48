/**
  The bulk loader of the PostGIS writer: rows are encoded into a buffer that is sent whenever it
  has grown past a threshold (crates/shpx-driver-postgis/src/writer.rs:244-301 and
  copy_binary.rs:48-263).
 */
module CopyWriter {
  import opened ByteOrder
  import opened Calendar
  import opened CopyFormat
  import opened Ewkb
  import opened Framing
  import opened Lists
  import opened MachineInts
  import opened NumericWire
  import opened PgNumericCodec
  import opened Wrappers

  const PG_EPOCH_DAYS_FROM_UNIX: int := 10_957
  const PG_EPOCH_MICROS_FROM_UNIX: int := 946_684_800_000_000

  datatype CopyError = SourceError | TooManyFields | DateOverflow | TimestampOverflow | BadScale
    | BadGeometry(e: EwkbError)
    | Unsupported | FieldTooLong | ServerError

  datatype TimeUnit = Second | Millisecond | Microsecond | Nanosecond

  /** An Arrow cell. `Bytes` covers the types whose bytes are sent as they are: text, binary, big-endian numbers. */
  datatype Cell =
    | Null
    | Bytes(bytes: seq<byte>)
    | Date(days: I32)
    | Timestamp(unit: TimeUnit, ticks: I64)
    | Decimal(value: I128, scale: I8)
    | Geometry(wkb: seq<byte>)
    | UnsupportedCell

  type Row = seq<Cell>
  type Batch = seq<Row>

  // ---------------------------------------------------------------------------
  // What a field must carry
  // ---------------------------------------------------------------------------

  /** Rust's `/`, which truncates towards zero. */
  function TruncDiv(a: int, b: int): int
    requires b > 0
  {
    if a >= 0 then a / b else -((-a) / b)
  }

  function UnixMicros(unit: TimeUnit, ticks: I64): int {
    match unit
    case Second => ticks as int * 1_000_000
    case Millisecond => ticks as int * 1_000
    case Microsecond => ticks
    case Nanosecond => TruncDiv(ticks, 1_000)
  }

  /** The epoch of the server is the first of January 2000, that of Arrow the first of January 1970. */
  lemma Epochs()
    ensures PG_EPOCH_DAYS_FROM_UNIX == YearStart(2000) - YearStart(1970)
    ensures PG_EPOCH_MICROS_FROM_UNIX == PG_EPOCH_DAYS_FROM_UNIX * 24 * 60 * 60 * 1_000_000
  {
  }

  function TicksPerSecond(unit: TimeUnit): nat {
    match unit
    case Second => 1
    case Millisecond => 1_000
    case Microsecond => 1_000_000
    case Nanosecond => 1_000_000_000
  }

  /** `q` is `a / b`, truncated toward zero. */
  predicate Truncates(q: int, a: int, b: nat) {
    if a >= 0 then q >= 0 && q * b <= a < (q + 1) * b else q <= 0 && (q - 1) * b < a <= q * b
  }

  /** `m` is the instant in microseconds: ticks over ticks per second times a million, truncated. */
  predicate IsInstant(m: int, unit: TimeUnit, ticks: int) {
    Truncates(m, ticks * 1_000_000, TicksPerSecond(unit))
  }

  lemma UnixMicrosIsInstant(unit: TimeUnit, ticks: I64)
    ensures IsInstant(UnixMicros(unit, ticks), unit, ticks)
  {
  }

  lemma Grows(n: nat, b: nat)
    ensures n * b >= 0
  {
  }

  lemma Ordered(x: int, y: int, b: nat)
    requires x <= y
    ensures x * b <= y * b && (x - 1) * b <= (y - 1) * b
  {
    Grows(y - x, b);
    assert y * b == x * b + (y - x) * b && (y - 1) * b == (x - 1) * b + (y - x) * b;
  }

  lemma TruncationUnique(p: int, q: int, a: int, b: nat)
    requires b > 0 && Truncates(p, a, b) && Truncates(q, a, b)
    ensures p == q
  {
    if p < q {
      Ordered(p + 1, q, b);
    } else if q < p {
      Ordered(q + 1, p, b);
    }
  }

  /** The ticks of each unit whose instant, counted from 1970 and from 2000, is a 64-bit number of microseconds. */
  predicate TicksFit(unit: TimeUnit, ticks: I64) {
    match unit
    case Second => -9_222_425_352_054 <= ticks <= 9_223_372_036_854
    case Millisecond => -9_222_425_352_054_775 <= ticks <= 9_223_372_036_854_775
    case Microsecond => -9_222_425_352_054_775_808 <= ticks
    case Nanosecond => true
  }

  predicate FitsI64(v: int) {
    -0x8000_0000_0000_0000 <= v < 0x8000_0000_0000_0000
  }

  lemma TicksFitIff(unit: TimeUnit, ticks: I64)
    ensures TicksFit(unit, ticks) <==>
            FitsI64(UnixMicros(unit, ticks)) && FitsI64(UnixMicros(unit, ticks) - PG_EPOCH_MICROS_FROM_UNIX)
  {
  }

  /** The cells that can be sent. */
  predicate Encodable(c: Cell, srid: I32) {
    match c
    case Null => true
    case Bytes(b) => |b| < 0x8000_0000
    case Date(d) => d - PG_EPOCH_DAYS_FROM_UNIX >= -0x8000_0000
    case Timestamp(u, t) => TicksFit(u, t)
    case Decimal(_, s) => s >= 0
    case Geometry(w) => EncodeWithSrid(w, srid).Ok? && |w| + 4 < 0x8000_0000
    case UnsupportedCell => false
  }

  ghost predicate NumericField(n: PgNumeric, v: int, scale: int, payload: seq<byte>) {
    |n.digits| <= 11 && Encodes(n, v, scale) && payload == Payload(n)
  }

  /** The value a reader of the field finds. */
  ghost predicate Carries(c: Cell, srid: I32, f: Field) {
    match c
    case Null => f.None?
    case Bytes(b) => f == Some(b)
    case Date(d) => f.Some? && |f.value| == 4 && GetI32(f.value, false) + PG_EPOCH_DAYS_FROM_UNIX == d
    case Timestamp(u, t) =>
      f.Some? && |f.value| == 8 && IsInstant(GetI64(f.value, false) + PG_EPOCH_MICROS_FROM_UNIX, u, t)
    case Decimal(v, s) => f.Some? && exists n: PgNumeric :: NumericField(n, v, s, f.value)
    case Geometry(w) => f.Some? && StripSrid(f.value) == Ok((w, Some(srid)))
    case UnsupportedCell => false
  }

  /** The word is determined by the cell. */
  lemma InstantUnique(c: Cell, srid: I32, f: Field, m: int)
    requires c.Timestamp? && Carries(c, srid, f) && IsInstant(m, c.unit, c.ticks)
    ensures GetI64(f.value, false) == m - PG_EPOCH_MICROS_FROM_UNIX
  {
    TruncationUnique(GetI64(f.value, false) + PG_EPOCH_MICROS_FROM_UNIX, m, c.ticks as int * 1_000_000,
                     TicksPerSecond(c.unit));
  }

  lemma Assoc(x: int, b: nat, k: nat)
    ensures x * (b * k) == x * b * k
  {
  }

  lemma Scaled(x: int, y: int, k: nat)
    requires k > 0
    ensures x <= y ==> x * k <= y * k
    ensures x < y ==> x * k < y * k
    ensures x >= 0 ==> x * k >= 0
    ensures x < 0 ==> x * k < 0
  {
  }

  lemma ScaledTruncation(q: int, a: int, b: nat, k: nat)
    requires k > 0 && Truncates(q, a, b)
    ensures Truncates(q, a * k, b * k)
  {
    Assoc(q, b, k);
    Assoc(q + 1, b, k);
    Assoc(q - 1, b, k);
    if a >= 0 {
      Scaled(q * b, a, k);
      Scaled(a, (q + 1) * b, k);
    } else {
      Scaled((q - 1) * b, a, k);
      Scaled(a, q * b, k);
    }
  }

  /**
    The words a PostgreSQL server does not read as a day or a microsecond: it takes the smallest and
    the largest for -infinity and infinity. A sent field never holds the largest, and holds the
    smallest for exactly one date and one moment.
   */
  lemma InfinitiesSent(c: Cell, srid: I32, f: Field)
    requires Encodable(c, srid) && Carries(c, srid, f)
    ensures c.Date? ==>
            && GetI32(f.value, false) < 0x7FFF_FFFF
            && (GetI32(f.value, false) == -0x8000_0000 <==> c.days == -2_147_472_691)
    ensures c.Timestamp? ==>
            && GetI64(f.value, false) < 0x7FFF_FFFF_FFFF_FFFF
            && (GetI64(f.value, false) == -0x8000_0000_0000_0000 <==>
                IsInstant(-9_222_425_352_054_775_808, c.unit, c.ticks))
  {
    if c.Timestamp? {
      TicksFitIff(c.unit, c.ticks);
      UnixMicrosIsInstant(c.unit, c.ticks);
      InstantUnique(c, srid, f, UnixMicros(c.unit, c.ticks));
      if IsInstant(-9_222_425_352_054_775_808, c.unit, c.ticks) {
        InstantUnique(c, srid, f, -9_222_425_352_054_775_808);
      }
    }
  }

  lemma Millions(t: int, k: nat)
    ensures t * 1_000_000 * k == 1_000_000 * (t * k)
  {
  }

  lemma SameInstant(m: int, n: int, t: int, u: int, k: nat, l: nat)
    requires k > 0 && l > 0 && Truncates(m, t * 1_000_000, k) && Truncates(n, u * 1_000_000, l)
    requires t * l == u * k
    ensures m == n
  {
    ScaledTruncation(m, t * 1_000_000, k, l);
    ScaledTruncation(n, u * 1_000_000, l, k);
    Millions(t, l);
    Millions(u, k);
    Grows(k, l);
    TruncationUnique(m, n, 1_000_000 * (t * l), k * l);
  }

  /** One instant, given in two units, is sent as one word. */
  lemma SameInstantSameWord(a: Cell, b: Cell, srid: I32, f: Field, g: Field)
    requires a.Timestamp? && b.Timestamp? && Carries(a, srid, f) && Carries(b, srid, g)
    requires a.ticks as int * TicksPerSecond(b.unit) == b.ticks as int * TicksPerSecond(a.unit)
    ensures f == g
  {
    var p, q := GetI64(f.value, false), GetI64(g.value, false);
    SameInstant(p + PG_EPOCH_MICROS_FROM_UNIX, q + PG_EPOCH_MICROS_FROM_UNIX, a.ticks, b.ticks,
                TicksPerSecond(a.unit), TicksPerSecond(b.unit));
    Canonical64(f.value, false);
    Canonical64(g.value, false);
  }

  ghost predicate RowCarried(row: Row, srid: I32, t: Tuple) {
    |t| == |row| && forall i :: 0 <= i < |row| ==> Carries(row[i], srid, t[i])
  }

  ghost predicate AllCarried(rows: seq<Row>, srid: I32, ts: seq<Tuple>) {
    |ts| == |rows| && forall i :: 0 <= i < |rows| ==> RowCarried(rows[i], srid, ts[i])
  }

  predicate RowEncodable(row: Row, srid: I32) {
    |row| <= 32_767 && forall c <- row :: Encodable(c, srid)
  }

  // ---------------------------------------------------------------------------
  // Encoding
  // ---------------------------------------------------------------------------

  method PutField(payload: seq<byte>, out: seq<byte>) returns (r: Result<seq<byte>, CopyError>)
    ensures r.Ok? <==> |payload| < 0x8000_0000
    ensures r.Ok? ==> r.value == out + FieldBytes(Some(payload))
  {
    if |payload| >= 0x8000_0000 {
      return Err(FieldTooLong);
    }
    var buf := out + PutI32(|payload|, false);
    Regroup(out, PutI32(|payload|, false), payload);
    return Ok(buf + payload);
  }

  method PutNumeric(value: I128, scale: U8, out: seq<byte>) returns (buf: seq<byte>, ghost f: Field)
    ensures buf == out + FieldBytes(f) && f.Some? && FieldOk(f)
    ensures exists n: PgNumeric :: NumericField(n, value, scale, f.value)
  {
    var n := FromI128Scale(value, scale);
    var len: I32 := 8 + 2 * |n.digits|;
    buf := WritePayload(n, out + PutI32(len, false));
    f := Some(Payload(n));
    Regroup(out, PutI32(len, false), Payload(n));
    assert NumericField(n, value, scale, f.value);
  }

  lemma TaggedLength(w: seq<byte>, srid: I32)
    requires EncodeWithSrid(w, srid).Ok?
    ensures |EncodeWithSrid(w, srid).value| == |w| + 4
  {
  }

  /** `encode_field` and `encode_geometry`. */
  method EncodeField(c: Cell, srid: I32, out: seq<byte>) returns (r: Result<seq<byte>, CopyError>, ghost f: Field)
    ensures r.Ok? <==> Encodable(c, srid)
    ensures r.Ok? ==> r.value == out + FieldBytes(f) && FieldOk(f) && Carries(c, srid, f)
  {
    f := None;
    match c {
      case Null =>
        r := Ok(out + PutI32(-1, false));
        assert PutI32(-1, false) + [] == PutI32(-1, false);
      case Bytes(b) =>
        r := PutField(b, out);
        f := Some(b);
      case Date(d) =>
        var days := d - PG_EPOCH_DAYS_FROM_UNIX;
        if days < -0x8000_0000 {
          return Err(DateOverflow), None;
        }
        r := PutField(PutI32(days, false), out);
        f := Some(PutI32(days, false));
      case Timestamp(u, t) =>
        TicksFitIff(u, t);
        UnixMicrosIsInstant(u, t);
        var unixMicros := UnixMicros(u, t);
        var micros := unixMicros - PG_EPOCH_MICROS_FROM_UNIX;
        if !FitsI64(unixMicros) || !FitsI64(micros) {
          return Err(TimestampOverflow), None;
        }
        r := PutField(PutI64(micros, false), out);
        f := Some(PutI64(micros, false));
      case Decimal(v, s) =>
        if s < 0 {
          return Err(BadScale), None;
        }
        var buf;
        buf, f := PutNumeric(v, s, out);
        r := Ok(buf);
      case Geometry(w) =>
        var ewkb := EncodeWithSrid(w, srid);
        if ewkb.Err? {
          return Err(BadGeometry(ewkb.error)), None;
        }
        TaggedLength(w, srid);
        EncodeStrip(w, srid);
        r := PutField(ewkb.value, out);
        f := Some(ewkb.value);
      case UnsupportedCell =>
        return Err(Unsupported), None;
    }
  }

  lemma {:induction false} EncodeAllAppend<T>(enc: Encoder<T>, xs: seq<T>, x: T)
    ensures EncodeAll(enc, xs + [x]) == EncodeAll(enc, xs) + enc(x)
  {
    EncodeAllAppends(enc, xs + [x], |xs|);
    assert (xs + [x])[..|xs| + 1] == xs + [x] && (xs + [x])[..|xs|] == xs;
  }

  /** `encode_row`: the field count, then the fields in column order with the geometry last. */
  method EncodeRow(row: Row, srid: I32, out: seq<byte>) returns (r: Result<seq<byte>, CopyError>, ghost t: Tuple)
    ensures r.Ok? <==> RowEncodable(row, srid)
    ensures r.Ok? ==> r.value == out + TupleBytes(t) && TupleOk(t) && RowCarried(row, srid, t)
    ensures r.Ok? ==> Value(r.value[|out|..|out| + 2]) == |row|
  {
    t := [];
    if |row| > MAX_FIELDS {
      return Err(TooManyFields), t;
    }
    var count: I16 := |row|;
    var head := out + PutI16(count, false);
    var buf := head;
    for i := 0 to |row|
      invariant |t| == i && buf == head + EncodeAll(FieldEncoder(), t) && EachOk(FieldOk, t)
      invariant forall k :: 0 <= k < i ==> Encodable(row[k], srid) && Carries(row[k], srid, t[k])
    {
      ghost var f;
      r, f := EncodeField(row[i], srid, buf);
      if r.Err? {
        assert row[i] in row;
        return;
      }
      EncodeAllAppend(FieldEncoder(), t, f);
      Regroup(head, EncodeAll(FieldEncoder(), t), FieldBytes(f));
      buf := r.value;
      t := t + [f];
    }
    Regroup(out, PutI16(count, false), EncodeAll(FieldEncoder(), t));
    TupleStarts(t);
    assert buf[|out|..|out| + 2] == TupleBytes(t)[..2];
    return Ok(buf), t;
  }

  // ---------------------------------------------------------------------------
  // The sink
  // ---------------------------------------------------------------------------

  /** `COPY ... FROM STDIN`: sending and finishing may fail; only finishing can commit. */
  class Sink {
    var sent: seq<seq<byte>>
    var committed: bool

    constructor ()
      ensures sent == [] && !committed
    {
      sent, committed := [], false;
    }

    method Send(chunk: seq<byte>) returns (ok: bool)
      modifies this
      ensures committed == old(committed)
      ensures sent == if ok then old(sent) + [chunk] else old(sent)
    {
      ok := *;
      if ok {
        sent := sent + [chunk];
      }
    }

    method Finish() returns (ok: bool)
      modifies this
      ensures sent == old(sent) && (ok ==> committed)
    {
      ok := *;
      committed := *;
      if ok {
        committed := true;
      }
    }
  }

  // ---------------------------------------------------------------------------
  // The flush loop
  // ---------------------------------------------------------------------------

  ghost predicate ChunksFull(chunks: seq<seq<byte>>, threshold: nat) {
    forall chunk <- chunks :: |chunk| >= threshold && chunk != []
  }

  ghost predicate AllButLastFull(chunks: seq<seq<byte>>, threshold: nat) {
    chunks != [] ==> ChunksFull(chunks[..|chunks| - 1], threshold) && chunks[|chunks| - 1] != []
  }

  lemma FullIsAllButLast(chunks: seq<seq<byte>>, threshold: nat)
    requires ChunksFull(chunks, threshold)
    ensures AllButLastFull(chunks, threshold)
    ensures forall last :: last != [] ==> AllButLastFull(chunks + [last], threshold)
  {
    forall last | last != [] ensures AllButLastFull(chunks + [last], threshold) {
      assert (chunks + [last])[..|chunks|] == chunks;
    }
  }

  /** Sent and buffered bytes together are the header and the tuples so far. */
  ghost predicate Streamed(sent: seq<seq<byte>>, buf: seq<byte>, ts: seq<Tuple>) {
    Joined(sent) + buf == COPY_HEADER + EncodeAll(TupleEncoder(), ts) && EachOk(TupleOk, ts)
  }

  lemma StreamedGrows(sent: seq<seq<byte>>, buf: seq<byte>, ts: seq<Tuple>, t: Tuple)
    requires Streamed(sent, buf, ts) && TupleOk(t)
    ensures Streamed(sent, buf + TupleBytes(t), ts + [t])
  {
    EncodeAllAppend(TupleEncoder(), ts, t);
    Regroup(Joined(sent), buf, TupleBytes(t));
    Regroup(COPY_HEADER, EncodeAll(TupleEncoder(), ts), TupleBytes(t));
  }

  lemma StreamedFlushes(sent: seq<seq<byte>>, buf: seq<byte>, ts: seq<Tuple>)
    requires Streamed(sent, buf, ts)
    ensures Streamed(sent + [buf], [], ts)
  {
  }

  lemma PrefixOfFile(sent: seq<seq<byte>>, buf: seq<byte>, ts: seq<Tuple>)
    requires Streamed(sent, buf, ts)
    ensures Joined(sent) <= FileBytes(ts) && Joined(sent) + (buf + COPY_TRAILER) == FileBytes(ts)
  {
    Regroup(COPY_HEADER, EncodeAll(TupleEncoder(), ts), COPY_TRAILER);
    Regroup(Joined(sent), buf, COPY_TRAILER);
    assert Joined(sent) <= Joined(sent) + (buf + COPY_TRAILER);
  }

  /** One row: encode it, and flush if the buffer has reached the threshold. */
  method WriteRow(sink: Sink, row: Row, srid: I32, threshold: nat, buf: seq<byte>, ghost ts: seq<Tuple>)
    returns (r: Result<seq<byte>, CopyError>, ghost t: Tuple)
    requires Streamed(sink.sent, buf, ts) && ChunksFull(sink.sent, threshold)
    modifies sink
    ensures sink.committed == old(sink.committed) && ChunksFull(sink.sent, threshold)
    ensures r.Ok? ==> Streamed(sink.sent, r.value, ts + [t]) && RowCarried(row, srid, t) && RowEncodable(row, srid)
    ensures r.Ok? ==> r.value == [] || |r.value| < threshold
    ensures r.Err? ==> sink.sent == old(sink.sent) && (r.error == ServerError || !RowEncodable(row, srid))
  {
    r, t := EncodeRow(row, srid, buf);
    if r.Err? { return; }
    StreamedGrows(sink.sent, buf, ts, t);
    if |r.value| >= threshold {
      StreamedFlushes(sink.sent, r.value, ts + [t]);
      assert |r.value| >= |TupleBytes(t)| >= 2;
      var ok := sink.Send(r.value);
      r := if ok then Ok([]) else Err(ServerError);
    }
  }

  ghost predicate Done(rows: seq<Row>, srid: I32, ts: seq<Tuple>) {
    AllCarried(rows, srid, ts) && forall row <- rows :: RowEncodable(row, srid)
  }

  lemma DoneGrows(rows: seq<Row>, row: Row, srid: I32, ts: seq<Tuple>, t: Tuple)
    requires Done(rows, srid, ts) && RowCarried(row, srid, t) && RowEncodable(row, srid)
    ensures Done(rows + [row], srid, ts + [t])
  {
  }

  /** The tuples are those of leading rows. */
  ghost predicate DonePrefix(rows: seq<Row>, srid: I32, ts: seq<Tuple>) {
    exists k: nat :: k <= |rows| && Done(rows[..k], srid, ts)
  }

  lemma PrefixDone(rows: seq<Row>, some: seq<Row>, srid: I32, ts: seq<Tuple>)
    requires some <= rows && DonePrefix(some, srid, ts)
    ensures DonePrefix(rows, srid, ts)
  {
    var k: nat :| k <= |some| && Done(some[..k], srid, ts);
    assert rows[..k] == some[..k];
  }

  lemma AllDone(rows: seq<Row>, srid: I32, ts: seq<Tuple>)
    requires Done(rows, srid, ts)
    ensures DonePrefix(rows, srid, ts)
  {
    assert rows[..|rows|] == rows;
  }

  /** The rows of one batch; `buf'` is the unsent rest, also when the batch fails. */
  method WriteBatch(sink: Sink, batch: Batch, srid: I32, threshold: nat, buf: seq<byte>, ghost before: seq<Row>,
                    ghost ts: seq<Tuple>)
    returns (r: Result<(), CopyError>, buf': seq<byte>, ghost ts': seq<Tuple>)
    requires Streamed(sink.sent, buf, ts) && ChunksFull(sink.sent, threshold) && Done(before, srid, ts)
    modifies sink
    ensures sink.committed == old(sink.committed) && ChunksFull(sink.sent, threshold)
    ensures Streamed(sink.sent, buf', ts')
    ensures r.Ok? ==> Done(before + batch, srid, ts')
    ensures DonePrefix(before + batch, srid, ts')
    ensures r.Err? && r.error != ServerError ==> exists row <- batch :: !RowEncodable(row, srid)
  {
    buf', ts' := buf, ts;
    AppendAll(before, batch);
    for i := 0 to |batch|
      invariant sink.committed == old(sink.committed) && ChunksFull(sink.sent, threshold)
      invariant Streamed(sink.sent, buf', ts') && Done(before + batch[..i], srid, ts')
    {
      AppendNext(before, batch, i);
      ghost var t;
      var written;
      written, t := WriteRow(sink, batch[i], srid, threshold, buf', ts');
      if written.Err? {
        AllDone(before + batch[..i], srid, ts');
        PrefixDone(before + batch, before + batch[..i], srid, ts');
        return Err(written.error), buf', ts';
      }
      DoneGrows(before + batch[..i], batch[i], srid, ts', t);
      buf', ts' := written.value, ts' + [t];
    }
    AllDone(before + batch, srid, ts');
    return Ok(()), buf', ts';
  }

  lemma BatchRowsAreRows(batches: seq<Batch>, i: nat)
    requires i < |batches|
    ensures forall row <- batches[i] :: row in Joined(batches)
  {
  }

  /** The loop over the batches. */
  method WriteBatches(sink: Sink, results: seq<Result<Batch, CopyError>>, srid: I32, threshold: nat, buf0: seq<byte>,
                      ghost batches: seq<Batch>)
    returns (r: Result<(), CopyError>, buf: seq<byte>, ghost ts: seq<Tuple>)
    requires sink.sent == [] && !sink.committed && batches == GoodPrefix(results) && buf0 == COPY_HEADER
    modifies sink
    ensures !sink.committed && Streamed(sink.sent, buf, ts) && ChunksFull(sink.sent, threshold)
    ensures r.Ok? ==> |batches| == |results| && Done(Joined(batches), srid, ts)
    ensures DonePrefix(Joined(batches), srid, ts)
    ensures r.Err? && r.error != ServerError && |batches| == |results| ==>
            exists row <- Joined(batches) :: !RowEncodable(row, srid)
  {
    buf, ts := buf0, [];
    assert Joined(sink.sent) == [] && [] + buf == COPY_HEADER + EncodeAll(TupleEncoder(), ts);
    for i := 0 to |results|
      invariant i <= |batches| && !sink.committed
      invariant Streamed(sink.sent, buf, ts) && ChunksFull(sink.sent, threshold) && Done(Joined(batches[..i]), srid, ts)
    {
      JoinedPrefix(batches, i);
      if results[i].Err? {
        AllDone(Joined(batches[..i]), srid, ts);
        PrefixDone(Joined(batches), Joined(batches[..i]), srid, ts);
        return Err(results[i].error), buf, ts;
      }
      JoinedStep(batches, i);
      JoinedPrefix(batches, i + 1);
      r, buf, ts := WriteBatch(sink, results[i].value, srid, threshold, buf, Joined(batches[..i]), ts);
      if r.Err? {
        PrefixDone(Joined(batches), Joined(batches[..i + 1]), srid, ts);
        BatchRowsAreRows(batches, i);
        return;
      }
    }
    assert batches[..|results|] == batches;
    AllDone(Joined(batches), srid, ts);
    return Ok(()), buf, ts;
  }

  /** The trailer, the last chunk, and the end of the command. */
  method Complete(sink: Sink, buf: seq<byte>, threshold: nat, ghost ts: seq<Tuple>) returns (r: Result<(), CopyError>)
    requires Streamed(sink.sent, buf, ts) && ChunksFull(sink.sent, threshold) && !sink.committed
    modifies sink
    ensures r.Ok? ==> sink.committed
    ensures r.Err? ==> r.error == ServerError
    ensures sink.committed ==> Joined(sink.sent) == FileBytes(ts) && ReadFile(Joined(sink.sent)) == Some(ts)
    ensures Joined(sink.sent) <= FileBytes(ts)
    ensures AllButLastFull(sink.sent, threshold)
  {
    PrefixOfFile(sink.sent, buf, ts);
    FullIsAllButLast(sink.sent, threshold);
    FileReadsBack(ts);
    var last := buf + COPY_TRAILER;
    if last != [] {
      JoinedConcat(sink.sent, [last]);
      JoinedOne(last);
      var ok := sink.Send(last);
      if !ok {
        return Err(ServerError);
      }
    }
    var ok := sink.Finish();
    return if ok then Ok(()) else Err(ServerError);
  }

  /**
    `bulk_write`. On success the chunks concatenate to one COPY file that a reader decodes to
    exactly the input rows in order. Whatever fails, what was sent is the beginning of such a file of
    leading rows of the input, and whatever gets committed is complete. Every chunk but the last reaches the threshold.
   */
  method BulkWrite(sink: Sink, results: seq<Result<Batch, CopyError>>, srid: I32, threshold: nat)
    returns (r: Result<(), CopyError>, ghost ts: seq<Tuple>)
    requires sink.sent == [] && !sink.committed
    modifies sink
    ensures r.Ok? ==> sink.committed
    ensures sink.committed ==> |GoodPrefix(results)| == |results| && Done(Joined(GoodPrefix(results)), srid, ts)
    ensures sink.committed ==> Joined(sink.sent) == FileBytes(ts) && ReadFile(Joined(sink.sent)) == Some(ts)
    ensures Joined(sink.sent) <= FileBytes(ts) && DonePrefix(Joined(GoodPrefix(results)), srid, ts)
    ensures AllButLastFull(sink.sent, threshold)
    ensures r.Err? && r.error != ServerError && |GoodPrefix(results)| == |results|
            ==> exists row <- Joined(GoodPrefix(results)) :: !RowEncodable(row, srid)
  {
    var buf := COPY_HEADER;
    ts := [];
    r, buf, ts := WriteBatches(sink, results, srid, threshold, buf, GoodPrefix(results));
    PrefixOfFile(sink.sent, buf, ts);
    FullIsAllButLast(sink.sent, threshold);
    if r.Ok? {
      r := Complete(sink, buf, threshold, ts);
    }
  }
}
