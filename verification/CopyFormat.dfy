/**
  The COPY "Binary Format" of PostgreSQL as its reader sees it: a header, tuples of nullable fields,
  a trailer (crates/shpx-driver-postgis/src/copy_binary.rs:38-67 and 219-250 write it).
 */
module CopyFormat {
  import opened Lists
  import opened Wrappers
  import opened MachineInts
  import opened ByteOrder
  import opened Framing

  /** `None` is SQL NULL. */
  type Field = Option<seq<byte>>
  type Tuple = seq<Field>

  const SIGNATURE: seq<byte> := [0x50, 0x47, 0x43, 0x4F, 0x50, 0x59, 0x0A, 0xFF, 0x0D, 0x0A, 0x00]
  /** Signature, no flags, no header extension. */
  const COPY_HEADER: seq<byte> := SIGNATURE + [0, 0, 0, 0, 0, 0, 0, 0]
  const COPY_TRAILER: seq<byte> := [0xFF, 0xFF]

  const MAX_FIELDS: nat := 0x7FFF

  // ---------------------------------------------------------------------------
  // Fields
  // ---------------------------------------------------------------------------

  predicate FieldOk(f: Field) {
    f.Some? ==> |f.value| < 0x8000_0000
  }

  /** The length word; a longer field has none, the writer panics on it. */
  function LengthWord(f: Field): I32 {
    if f.None? then -1 else if FieldOk(f) then |f.value| else 0
  }

  function FieldBytes(f: Field): seq<byte> {
    PutI32(LengthWord(f), false) + if f.None? then [] else f.value
  }

  /** The first four bytes, most significant first, are the length, or all ones for NULL. */
  lemma FieldStarts(f: Field)
    requires FieldOk(f)
    ensures |FieldBytes(f)| >= 4
    ensures Value(FieldBytes(f)[..4]) == if f.None? then 0xFFFF_FFFF else |f.value|
    ensures f.Some? ==> FieldBytes(f)[4..] == f.value
  {
    Written32(LengthWord(f), false);
    assert FieldBytes(f)[..4] == PutI32(LengthWord(f), false);
  }

  /** The length word, -1 for NULL, and the bytes. */
  function DecodeField(bs: seq<byte>, pos: nat): Option<(Field, nat)> {
    if pos + 4 > |bs| then None else
      var n := GetI32(bs[pos..pos + 4], false);
      if n == -1 then Some((None, pos + 4))
      else if n < 0 || pos + 4 + n > |bs| then None
      else Some((Some(bs[pos + 4..pos + 4 + n]), pos + 4 + n))
  }

  function FieldEncoder(): Encoder<Field> {
    f => FieldBytes(f)
  }

  function FieldDecoder(bs: seq<byte>): Decoder<Field> {
    pos => DecodeField(bs, pos)
  }

  lemma FieldSoundAt(bs: seq<byte>, pos: nat)
    requires DecodeField(bs, pos).Some?
    ensures var (f, next) := DecodeField(bs, pos).value;
            FieldOk(f) && At(bs, pos, FieldBytes(f)) && next == pos + |FieldBytes(f)|
  {
    var (f, next) := DecodeField(bs, pos).value;
    var word := bs[pos..pos + 4];
    Canonical32(word, false);
    assert FieldBytes(f) == word + if f.None? then [] else f.value;
    AtConcat(bs, pos, word, if f.None? then [] else f.value);
  }

  lemma FieldCompleteAt(bs: seq<byte>, pos: nat, f: Field)
    requires FieldOk(f) && At(bs, pos, FieldBytes(f))
    ensures DecodeField(bs, pos) == Some((f, pos + |FieldBytes(f)|))
  {
    AtConcat(bs, pos, PutI32(LengthWord(f), false), if f.None? then [] else f.value);
  }

  lemma FieldInverse(bs: seq<byte>)
    ensures Inverse(bs, FieldDecoder(bs), FieldEncoder(), FieldOk)
  {
    var dec, enc := FieldDecoder(bs), FieldEncoder();
    forall pos: nat ensures SoundAt(bs, dec, enc, FieldOk, pos) {
      if dec(pos).Some? {
        FieldSoundAt(bs, pos);
      }
    }
    forall pos: nat, f ensures CompleteAt(bs, dec, enc, FieldOk, pos, f) {
      if FieldOk(f) && At(bs, pos, FieldBytes(f)) {
        FieldCompleteAt(bs, pos, f);
      }
    }
  }

  // ---------------------------------------------------------------------------
  // Tuples
  // ---------------------------------------------------------------------------

  predicate TupleOk(t: Tuple) {
    |t| <= MAX_FIELDS && EachOk(FieldOk, t)
  }

  /** The field count; a wider tuple has none, the writer refuses it. */
  function CountWord(t: Tuple): I16 {
    if |t| <= MAX_FIELDS then |t| else 0
  }

  function TupleBytes(t: Tuple): (bs: seq<byte>)
    ensures |bs| >= 2
  {
    PutI16(CountWord(t), false) + EncodeAll(FieldEncoder(), t)
  }

  /** The first two bytes, most significant first, are the number of fields, and the fields follow. */
  lemma TupleStarts(t: Tuple)
    requires |t| <= MAX_FIELDS
    ensures Value(TupleBytes(t)[..2]) == |t| && TupleBytes(t)[2..] == EncodeAll(FieldEncoder(), t)
  {
    Written16(|t|, false);
    assert TupleBytes(t)[..2] == PutI16(|t|, false);
  }

  function DecodeTuple(bs: seq<byte>, pos: nat): Option<(Tuple, nat)> {
    if pos + 2 > |bs| then None else
      var n := GetI16(bs[pos..pos + 2], false);
      if n < 0 then None else DecodeItems(FieldDecoder(bs), pos + 2, n, [])
  }

  lemma TupleSoundAt(bs: seq<byte>, pos: nat)
    requires DecodeTuple(bs, pos).Some?
    ensures var (t, next) := DecodeTuple(bs, pos).value;
            TupleOk(t) && At(bs, pos, TupleBytes(t)) && next == pos + |TupleBytes(t)|
  {
    var (t, next) := DecodeTuple(bs, pos).value;
    var word := bs[pos..pos + 2];
    Canonical16(word, false);
    FieldInverse(bs);
    ItemsSound(bs, FieldDecoder(bs), FieldEncoder(), FieldOk, pos + 2, GetI16(word, false), []);
    assert t[0..] == t;
    AtConcat(bs, pos, word, EncodeAll(FieldEncoder(), t));
  }

  lemma TupleCompleteAt(bs: seq<byte>, pos: nat, t: Tuple)
    requires TupleOk(t) && At(bs, pos, TupleBytes(t))
    ensures DecodeTuple(bs, pos) == Some((t, pos + |TupleBytes(t)|))
    ensures pos + 2 <= |bs| && GetI16(bs[pos..pos + 2], false) == |t|
  {
    AtConcat(bs, pos, PutI16(CountWord(t), false), EncodeAll(FieldEncoder(), t));
    FieldInverse(bs);
    ItemsComplete(bs, FieldDecoder(bs), FieldEncoder(), FieldOk, pos + 2, t, []);
    assert [] + t == t;
  }

  function TupleEncoder(): Encoder<Tuple> {
    t => TupleBytes(t)
  }

  // ---------------------------------------------------------------------------
  // Files
  // ---------------------------------------------------------------------------

  /** Tuples until the field count -1, which must be the end of the data. */
  function ReadTuples(bs: seq<byte>, pos: nat): Option<seq<Tuple>>
    requires pos <= |bs|
    decreases |bs| - pos
  {
    if pos + 2 > |bs| then None
    else if GetI16(bs[pos..pos + 2], false) == -1 then if pos + 2 == |bs| then Some([]) else None
    else if DecodeTuple(bs, pos).None? then None
    else
      TupleSoundAt(bs, pos);
      var (t, next) := DecodeTuple(bs, pos).value;
      var more := ReadTuples(bs, next);
      if more.None? then None else Some([t] + more.value)
  }

  /** Signature, flags none of which is critical, a header extension that is skipped, tuples. */
  function ReadFile(bs: seq<byte>): Option<seq<Tuple>> {
    if |bs| < 19 || bs[..11] != SIGNATURE || GetU32(bs[11..15], false) >= 0x1_0000 then None else
      var extension := GetI32(bs[15..19], false);
      if extension < 0 || 19 + extension > |bs| then None else ReadTuples(bs, 19 + extension)
  }

  function FileBytes(ts: seq<Tuple>): seq<byte> {
    COPY_HEADER + (EncodeAll(TupleEncoder(), ts) + COPY_TRAILER)
  }

  lemma TrailerWord()
    ensures GetI16(COPY_TRAILER, false) == -1 && PutI16(-1, false) == COPY_TRAILER
  {
  }

  lemma Cut(bs: seq<byte>, pos: nat, a: seq<byte>, b: seq<byte>)
    requires pos <= |bs| && bs[pos..] == a + b
    ensures At(bs, pos, a) && bs[pos + |a|..] == b
  {
  }

  lemma Glue(bs: seq<byte>, pos: nat, a: seq<byte>, b: seq<byte>, c: seq<byte>)
    requires At(bs, pos, a) && bs[pos + |a|..] == b + c
    ensures bs[pos..] == a + b + c
  {
  }

  lemma OneMore(t: Tuple, ts: seq<Tuple>)
    ensures EncodeAll(TupleEncoder(), [t] + ts) == TupleBytes(t) + EncodeAll(TupleEncoder(), ts)
    ensures TupleOk(t) && EachOk(TupleOk, ts) ==> EachOk(TupleOk, [t] + ts)
  {
  }

  lemma ReadStep(bs: seq<byte>, pos: nat, t: Tuple, next: nat)
    requires pos < next <= |bs| && DecodeTuple(bs, pos) == Some((t, next))
    ensures ReadTuples(bs, pos) == if ReadTuples(bs, next).None? then None else Some([t] + ReadTuples(bs, next).value)
  {
  }

  lemma ReadEnd(bs: seq<byte>, pos: nat)
    requires pos <= |bs| && bs[pos..] == COPY_TRAILER
    ensures ReadTuples(bs, pos) == Some([])
  {
  }

  lemma TupleIsNoTrailer(bs: seq<byte>, pos: nat)
    requires pos <= |bs| && ReadTuples(bs, pos).Some?
    ensures pos + 2 <= |bs|
    ensures GetI16(bs[pos..pos + 2], false) == -1 ==> ReadTuples(bs, pos).value == [] && pos + 2 == |bs|
    ensures GetI16(bs[pos..pos + 2], false) != -1 ==> DecodeTuple(bs, pos).Some? && DecodeTuple(bs, pos).value.1 <= |bs|
  {
  }

  lemma CutTuple(bs: seq<byte>, pos: nat, ts: seq<Tuple>)
    requires ts != [] && pos <= |bs| && EachOk(TupleOk, ts)
    requires bs[pos..] == EncodeAll(TupleEncoder(), ts) + COPY_TRAILER
    ensures var next := pos + |TupleBytes(ts[0])|;
            && next <= |bs| && At(bs, pos, TupleBytes(ts[0]))
            && bs[next..] == EncodeAll(TupleEncoder(), ts[1..]) + COPY_TRAILER
  {
    var t, tail := TupleBytes(ts[0]), EncodeAll(TupleEncoder(), ts[1..]);
    Regroup(t, tail, COPY_TRAILER);
    Cut(bs, pos, t, tail + COPY_TRAILER);
  }

  /** Nothing but the trailer is taken for the trailer, and every tuple is read as it was written. */
  lemma {:induction false} TuplesComplete(bs: seq<byte>, pos: nat, ts: seq<Tuple>)
    requires pos <= |bs| && EachOk(TupleOk, ts) && bs[pos..] == EncodeAll(TupleEncoder(), ts) + COPY_TRAILER
    ensures ReadTuples(bs, pos) == Some(ts)
    decreases |ts|
  {
    if ts == [] {
      assert bs[pos..] == COPY_TRAILER;
      ReadEnd(bs, pos);
    } else {
      var next := pos + |TupleBytes(ts[0])|;
      CutTuple(bs, pos, ts);
      TupleCompleteAt(bs, pos, ts[0]);
      TuplesComplete(bs, next, ts[1..]);
      ReadStep(bs, pos, ts[0], next);
      assert [ts[0]] + ts[1..] == ts;
    }
  }

  lemma {:induction false} TuplesSound(bs: seq<byte>, pos: nat, ts: seq<Tuple>)
    requires pos <= |bs| && ReadTuples(bs, pos) == Some(ts)
    ensures EachOk(TupleOk, ts) && bs[pos..] == EncodeAll(TupleEncoder(), ts) + COPY_TRAILER
    decreases |bs| - pos
  {
    TupleIsNoTrailer(bs, pos);
    var word := bs[pos..pos + 2];
    if GetI16(word, false) == -1 {
      Canonical16(word, false);
      TrailerWord();
      assert bs[pos..] == word;
    } else {
      TupleSoundAt(bs, pos);
      var (t, next) := DecodeTuple(bs, pos).value;
      ReadStep(bs, pos, t, next);
      TuplesSound(bs, next, ts[1..]);
      Glue(bs, pos, TupleBytes(t), EncodeAll(TupleEncoder(), ts[1..]), COPY_TRAILER);
      OneMore(t, ts[1..]);
      assert ts == [t] + ts[1..];
    }
  }

  lemma HeaderFields(bs: seq<byte>)
    requires |bs| >= 19 && bs[..19] == COPY_HEADER
    ensures bs[..11] == SIGNATURE && GetU32(bs[11..15], false) == 0 && GetI32(bs[15..19], false) == 0
  {
    var zeros: seq<byte> := [0, 0, 0, 0];
    assert bs[..11] == bs[..19][..11];
    assert bs[11..15] == bs[..19][11..15] == zeros && bs[15..19] == bs[..19][15..19] == zeros;
    assert GetU32(zeros, false) == 0;
  }

  /** A reader gets back exactly the tuples. */
  lemma FileReadsBack(ts: seq<Tuple>)
    requires EachOk(TupleOk, ts)
    ensures ReadFile(FileBytes(ts)) == Some(ts)
  {
    var bs, rest := FileBytes(ts), EncodeAll(TupleEncoder(), ts) + COPY_TRAILER;
    assert bs[..19] == COPY_HEADER && bs[19..] == rest;
    HeaderFields(bs);
    TuplesComplete(bs, 19, ts);
  }

  /** And a file with the plain header that reads as these tuples is byte for byte the written one. */
  lemma FileUnique(bs: seq<byte>)
    requires |bs| >= 19 && bs[..19] == COPY_HEADER && ReadFile(bs).Some?
    ensures EachOk(TupleOk, ReadFile(bs).value) && bs == FileBytes(ReadFile(bs).value)
  {
    HeaderFields(bs);
    TuplesSound(bs, 19, ReadFile(bs).value);
    assert bs == bs[..19] + bs[19..];
  }
}
