/**
  The FeatureCollection reader: a byte state machine that pulls one array element per call
  (crates/shpx-driver-geojson/src/stream.rs:77-253).
 */
module FeatureStream {
  import opened Wrappers
  import opened ByteOrder

  /** What the file has to offer next: a byte, or a read error at this point. */
  datatype Sym = B(b: byte) | IoError

  datatype StreamError = Io | BracketNotFound | EndInsideArray | Unexpected(b: byte) | BadFeature

  /** What the element parser makes of the rest of the file. */
  datatype Parsed<T> = Element(value: T, used: nat) | Malformed | OnlyBlanks

  datatype State = BeforeFeatures | FirstElement | DuringFeatures | Done

  const OPEN: byte := '[' as int
  const CLOSE: byte := ']' as int
  const COMMA: byte := ',' as int
  const OBJECT: byte := '{' as int

  /** `is_ascii_whitespace`, which has the form feed on top of the four JSON blanks. */
  predicate IsWs(b: byte) {
    b == 0x20 || b == 0x09 || b == 0x0A || b == 0x0C || b == 0x0D
  }

  /** The blanks of section 2 of RFC 8259: space, tab, line feed, carriage return. */
  predicate IsJsonBlank(b: byte) {
    b in [0x20, 0x09, 0x0A, 0x0D]
  }

  /** The reader skips every blank of JSON, and one byte more. */
  lemma SkippedBlanks(b: byte)
    ensures IsWs(b) <==> IsJsonBlank(b) || b == 0x0C
  {
  }

  function Syms(bytes: seq<byte>): (s: seq<Sym>)
    ensures |s| == |bytes|
  {
    seq(|bytes|, i requires 0 <= i < |bytes| => B(bytes[i]))
  }

  predicate JsonBlank(s: seq<Sym>) {
    forall i :: 0 <= i < |s| ==> s[i].B? && IsJsonBlank(s[i].b)
  }

  function SkipWs(s: seq<Sym>): (t: seq<Sym>)
    ensures |t| <= |s|
  {
    if s != [] && s[0].B? && IsWs(s[0].b) then SkipWs(s[1..]) else s
  }

  // ---------------------------------------------------------------------------
  // The buffered reader
  // ---------------------------------------------------------------------------

  /** One buffer full of bytes, or a failing read. */
  datatype Chunk = Data(bytes: seq<byte>) | Fail

  /** The file behind its chunks. */
  function Flat(chunks: seq<Chunk>): seq<Sym> {
    if chunks == [] then [] else
      (if chunks[0].Data? then Syms(chunks[0].bytes) else [IoError]) + Flat(chunks[1..])
  }

  class BufReader {
    var chunks: seq<Chunk>

    /** An empty buffer would mean the end of the file. */
    ghost predicate Valid()
      reads this
    {
      forall i :: 0 <= i < |chunks| && chunks[i].Data? ==> chunks[i].bytes != []
    }

    ghost function Rest(): seq<Sym>
      reads this
    {
      Flat(chunks)
    }

    constructor (chunks: seq<Chunk>)
      requires forall i :: 0 <= i < |chunks| && chunks[i].Data? ==> chunks[i].bytes != []
      ensures Valid() && Rest() == Flat(chunks)
    {
      this.chunks := chunks;
    }

    method FillBuf() returns (r: Result<seq<byte>, StreamError>)
      requires Valid()
      modifies this
      ensures Valid()
      ensures r.Err? <==> old(Rest()) != [] && old(Rest())[0] == IoError
      ensures r.Err? ==> r.error == Io && Rest() == old(Rest())[1..]
      ensures r.Ok? ==> chunks == old(chunks) && (if chunks == [] then r.value == [] else chunks[0] == Data(r.value))
    {
      if chunks == [] {
        return Ok([]);
      }
      match chunks[0]
      case Data(bytes) =>
        assert Rest()[0] == B(bytes[0]);
        return Ok(bytes);
      case Fail =>
        assert Rest() == [IoError] + Flat(chunks[1..]);
        chunks := chunks[1..];
        return Err(Io);
    }

    method Consume(n: nat)
      requires Valid() && chunks != [] && chunks[0].Data? && n <= |chunks[0].bytes|
      modifies this
      ensures Valid() && n <= |old(Rest())| && Rest() == old(Rest())[n..]
      ensures n == |old(chunks)[0].bytes| ==> chunks == old(chunks)[1..]
    {
      ghost var rest := Rest();
      var bytes := chunks[0].bytes;
      if n == |bytes| {
        chunks := chunks[1..];
      } else {
        chunks := [Data(bytes[n..])] + chunks[1..];
        assert Syms(bytes[n..]) == Syms(bytes)[n..];
      }
    }

    method ReadByte() returns (r: Result<Option<byte>, StreamError>)
      requires Valid()
      modifies this
      ensures Valid()
      ensures old(Rest()) == [] ==> r == Ok(None) && Rest() == []
      ensures old(Rest()) != [] ==>
                && Rest() == old(Rest())[1..]
                && r == if old(Rest())[0] == IoError then Err(Io) else Ok(Some(old(Rest())[0].b))
    {
      var buf :- FillBuf();
      if buf == [] {
        return Ok(None);
      }
      assert Rest()[0] == B(buf[0]);
      Consume(1);
      return Ok(Some(buf[0]));
    }

    /** The next byte that is not whitespace, taken off the reader. */
    method NextNonWs() returns (r: Result<Option<byte>, StreamError>)
      requires Valid()
      modifies this
      ensures Valid()
      ensures var s := SkipWs(old(Rest()));
              if s == [] then r == Ok(None) && Rest() == []
              else Rest() == s[1..] && r == if s[0] == IoError then Err(Io) else Ok(Some(s[0].b))
    {
      while true
        invariant Valid() && SkipWs(Rest()) == SkipWs(old(Rest()))
        decreases |Rest()|
      {
        var b :- ReadByte();
        if b.None? || !IsWs(b.value) {
          return Ok(b);
        }
      }
    }

    /** The same byte, left on the reader: only the whitespace before it is consumed. */
    method PeekNonWs() returns (r: Result<Option<byte>, StreamError>)
      requires Valid()
      modifies this
      ensures Valid()
      ensures var s := SkipWs(old(Rest()));
              if s == [] then r == Ok(None) && Rest() == []
              else if s[0] == IoError then r == Err(Io) && Rest() == s[1..]
              else r == Ok(Some(s[0].b)) && Rest() == s
    {
      while true
        invariant Valid() && SkipWs(Rest()) == SkipWs(old(Rest()))
        decreases |Rest()|
      {
        var buf :- FillBuf();
        if buf == [] {
          return Ok(None);
        }
        ghost var rest := Rest();
        assert rest == Syms(buf) + Flat(chunks[1..]);
        for i := 0 to |buf|
          invariant Rest() == rest && Valid() && chunks != [] && chunks[0] == Data(buf)
          invariant SkipWs(rest[i..]) == SkipWs(old(Rest()))
        {
          assert rest[i] == B(buf[i]) && rest[i..][0] == rest[i] && rest[i..][1..] == rest[i + 1..];
          if !IsWs(buf[i]) {
            Consume(i);
            return Ok(Some(buf[i]));
          }
        }
        Consume(|buf|);
      }
    }
  }

  // ---------------------------------------------------------------------------
  // One call, on the flat file
  // ---------------------------------------------------------------------------

  datatype Outcome<T> = Outcome(item: Option<Result<T, StreamError>>, state: State, rest: seq<Sym>)

  function Failed<T>(e: StreamError): Outcome<T> {
    Outcome(Some(Err(e)), Done, [])
  }

  function Behind(s: seq<Sym>, n: nat): seq<Sym> {
    if n <= |s| then s[n..] else []
  }

  function ReadOne<T>(parse: seq<Sym> -> Parsed<T>, s: seq<Sym>): Outcome<T> {
    match parse(s)
    case Element(v, n) => Outcome(Some(Ok(v)), DuringFeatures, Behind(s, n))
    case Malformed => Failed(BadFeature)
    case OnlyBlanks => Outcome(None, Done, [])
  }

  function NextDuring<T>(parse: seq<Sym> -> Parsed<T>, s: seq<Sym>): Outcome<T> {
    var t := SkipWs(s);
    if t == [] then Failed(EndInsideArray)
    else if t[0] == IoError then Failed(Io)
    else if t[0].b == COMMA then ReadOne(parse, t[1..])
    else if t[0].b == CLOSE then Outcome(None, Done, [])
    else Failed(Unexpected(t[0].b))
  }

  function NextFirst<T>(parse: seq<Sym> -> Parsed<T>, s: seq<Sym>): Outcome<T> {
    var t := SkipWs(s);
    if t == [] then Failed(EndInsideArray)
    else if t[0] == IoError then Failed(Io)
    else if t[0].b == CLOSE then Outcome(None, Done, [])
    else ReadOne(parse, t)
  }

  function NextBefore<T>(parse: seq<Sym> -> Parsed<T>, s: seq<Sym>): Outcome<T> {
    if s == [] then Failed(BracketNotFound)
    else if s[0] == IoError then Failed(Io)
    else if s[0].b == OPEN then NextFirst(parse, s[1..])
    else NextBefore(parse, s[1..])
  }

  /** What one call returns and leaves behind. */
  function Next<T>(parse: seq<Sym> -> Parsed<T>, state: State, s: seq<Sym>): Outcome<T> {
    match state
    case BeforeFeatures => NextBefore(parse, s)
    case FirstElement => NextFirst(parse, s)
    case DuringFeatures => NextDuring(parse, s)
    case Done => Outcome(None, Done, [])
  }

  ghost predicate GoodAt<T>(parse: seq<Sym> -> Parsed<T>, s: seq<Sym>) {
    && (parse(s).Element? ==> 0 < parse(s).used <= |s|)
    && (parse(s).OnlyBlanks? <==> JsonBlank(s))
  }

  /**
    The element parser's side of the bargain: an element takes at least one byte of what is there,
    and `OnlyBlanks` means just that.
   */
  ghost predicate GoodParser<T(!new)>(parse: seq<Sym> -> Parsed<T>) {
    forall s :: GoodAt(parse, s)
  }

  class FcFeatureStream<T> {
    var reader: BufReader?
    var state: State
    const parse: seq<Sym> -> Parsed<T>

    ghost predicate Valid()
      reads this, reader
    {
      (reader != null ==> reader.Valid()) && (reader == null ==> state == Done)
    }

    constructor (reader: BufReader, parse: seq<Sym> -> Parsed<T>)
      requires reader.Valid()
      ensures Valid() && this.reader == reader && state == BeforeFeatures && this.parse == parse
    {
      this.reader, this.state, this.parse := reader, BeforeFeatures, parse;
    }

    /** What is still to be read. */
    ghost function Rest(): seq<Sym>
      reads this, reader
    {
      if reader == null || state == Done then [] else reader.Rest()
    }

    /** Reads on until the first `[`. */
    method SkipToBracket() returns (r: Result<(), StreamError>)
      requires Valid() && reader != null && state == BeforeFeatures
      modifies reader
      ensures Valid()
      ensures r.Ok? ==> NextBefore(parse, old(Rest())) == NextFirst(parse, Rest())
      ensures r.Err? ==> NextBefore(parse, old(Rest())) == Failed(r.error)
    {
      while true
        invariant Valid() && NextBefore(parse, Rest()) == NextBefore(parse, old(Rest()))
        decreases |Rest()|
      {
        var b :- reader.ReadByte();
        if b.None? {
          return Err(BracketNotFound);
        }
        if b.value == OPEN {
          return Ok(());
        }
      }
    }

    method Take(n: nat)
      requires Valid() && reader != null && state == DuringFeatures
      modifies reader
      ensures Valid() && Rest() == Behind(old(Rest()), n)
    {
      for i := 0 to n
        invariant Valid() && Rest() == Behind(old(Rest()), i)
      {
        var _ := reader.ReadByte();
      }
    }

    /** `read_one_feature`: the element parser takes what it needs off the reader. */
    method ReadOneFeature() returns (item: Option<Result<T, StreamError>>)
      requires Valid() && reader != null && state == DuringFeatures
      modifies this`state, reader
      ensures Valid()
      ensures Outcome(item, state, Rest()) == ReadOne(parse, old(Rest()))
    {
      var parsed := parse(Flat(reader.chunks));
      match parsed {
        case Element(v, n) =>
          Take(n);
          return Some(Ok(v));
        case Malformed =>
          state := Done;
          return Some(Err(BadFeature));
        case OnlyBlanks =>
          state := Done;
          return None;
      }
    }

    /**
      One call does what `Next` says of the flat file: how the bytes are cut into buffers makes no
      difference.
     */
    method Pull() returns (item: Option<Result<T, StreamError>>)
      requires Valid()
      modifies this, reader
      ensures Valid() && (reader == old(reader) || reader == null)
      ensures Outcome(item, state, Rest()) == Next(parse, old(state), old(Rest()))
    {
      if reader == null {
        return None;
      }
      ghost var want := Next(parse, state, Rest());
      while true
        invariant Valid() && reader != null && reader == old(reader) && Next(parse, state, Rest()) == want
        decreases if state == BeforeFeatures then 1 else 0
      {
        match state {
          case Done =>
            reader := null;
            return None;
          case BeforeFeatures =>
            var found := SkipToBracket();
            if found.Err? {
              state := Done;
              return Some(Err(found.error));
            }
            state := FirstElement;
          case FirstElement =>
            var peeked := reader.PeekNonWs();
            match peeked {
              case Ok(Some(b)) =>
                if b == CLOSE {
                  var _ := reader.ReadByte();
                  state := Done;
                  return None;
                }
                state := DuringFeatures;
                item := ReadOneFeature();
                return;
              case Ok(None) =>
                state := Done;
                return Some(Err(EndInsideArray));
              case Err(e) =>
                state := Done;
                return Some(Err(e));
            }
          case DuringFeatures =>
            var next := reader.NextNonWs();
            match next {
              case Ok(Some(b)) =>
                if b == COMMA {
                  item := ReadOneFeature();
                  return;
                }
                state := Done;
                return if b == CLOSE then None else Some(Err(Unexpected(b)));
              case Ok(None) =>
                state := Done;
                return Some(Err(EndInsideArray));
              case Err(e) =>
                state := Done;
                return Some(Err(e));
            }
        }
      }
    }
  }

  // ---------------------------------------------------------------------------
  // Whole runs
  // ---------------------------------------------------------------------------

  lemma ReadMakesProgress<T(!new)>(parse: seq<Sym> -> Parsed<T>, s: seq<Sym>)
    requires GoodParser(parse)
    ensures var o := ReadOne(parse, s);
            (o.state == Done && (o.item.None? || o.item.value.Err?))
            || (o.state == DuringFeatures && |o.rest| < |s| && o.item.Some? && o.item.value.Ok?)
  {
    assert GoodAt(parse, s);
  }

  /** Every call makes progress: it consumes something or the stream is over. */
  lemma {:induction false} CallsMakeProgress<T(!new)>(parse: seq<Sym> -> Parsed<T>, state: State, s: seq<Sym>)
    requires GoodParser(parse)
    ensures var o := Next(parse, state, s);
            o.state == Done || (o.state == DuringFeatures && |o.rest| < |s|)
    ensures var o := Next(parse, state, s);
            o.state == DuringFeatures <==> o.item.Some? && o.item.value.Ok?
    decreases |s|
  {
    match state
    case BeforeFeatures =>
      if s != [] && s[0] != IoError {
        if s[0].b == OPEN {
          ReadMakesProgress(parse, SkipWs(s[1..]));
        } else {
          CallsMakeProgress(parse, state, s[1..]);
        }
      }
    case FirstElement =>
      ReadMakesProgress(parse, SkipWs(s));
    case DuringFeatures =>
      if SkipWs(s) != [] {
        ReadMakesProgress(parse, SkipWs(s)[1..]);
      }
    case Done =>
  }

  /** What a caller gets until the first `None`. */
  ghost function Drain<T(!new)>(parse: seq<Sym> -> Parsed<T>, state: State,
                                s: seq<Sym>): (items: seq<Result<T, StreamError>>)
    requires GoodParser(parse)
    decreases state != Done, |s|
  {
    CallsMakeProgress(parse, state, s);
    var o := Next(parse, state, s);
    if o.item.None? then [] else [o.item.value] + Drain(parse, o.state, o.rest)
  }

  /** The first `None` is final, and an error is the last thing before it. */
  lemma NothingAfterTheEnd<T(!new)>(parse: seq<Sym> -> Parsed<T>, state: State, s: seq<Sym>)
    requires GoodParser(parse)
    ensures var o := Next(parse, state, s);
            o.item.None? || o.item.value.Err? ==>
            forall t :: Next(parse, o.state, t).item.None? && Next(parse, o.state, t).state == Done
  {
    CallsMakeProgress(parse, state, s);
  }

  /** So at most one error is ever returned. */
  lemma {:induction false} OneErrorAtMost<T(!new)>(parse: seq<Sym> -> Parsed<T>, state: State, s: seq<Sym>, i: nat)
    requires GoodParser(parse) && i < |Drain(parse, state, s)|
    ensures Drain(parse, state, s)[i].Err? ==> i == |Drain(parse, state, s)| - 1
    decreases state != Done, |s|
  {
    CallsMakeProgress(parse, state, s);
    var o := Next(parse, state, s);
    if i == 0 {
      NothingAfterTheEnd(parse, state, s);
    } else {
      OneErrorAtMost(parse, o.state, o.rest, i - 1);
    }
  }

  // ---------------------------------------------------------------------------
  // Well-formed documents
  // ---------------------------------------------------------------------------

  /** An element with the blanks around it; JSON values start with a visible byte that is no bracket. */
  datatype Item<T> = Item(lead: seq<byte>, text: seq<byte>, value: T, trail: seq<byte>)

  predicate Blanks(bytes: seq<byte>) {
    forall b <- bytes :: IsJsonBlank(b)
  }

  ghost predicate DelimitsAt<T>(parse: seq<Sym> -> Parsed<T>, item: Item<T>, lead: seq<byte>, after: seq<Sym>) {
    Blanks(lead) ==> parse(Syms(lead) + (Syms(item.text) + after)) == Element(item.value, |lead| + |item.text|)
  }

  /** The parser reads `text` as `value` and stops right behind it, whatever follows. */
  ghost predicate Delimits<T(!new)>(parse: seq<Sym> -> Parsed<T>, item: Item<T>) {
    && Blanks(item.lead) && Blanks(item.trail)
    && item.text != [] && !IsWs(item.text[0]) && item.text[0] != CLOSE
    && forall lead: seq<byte>, after: seq<Sym> :: DelimitsAt(parse, item, lead, after)
  }

  ghost predicate AllDelimit<T(!new)>(parse: seq<Sym> -> Parsed<T>, items: seq<Item<T>>) {
    forall i :: 0 <= i < |items| ==> Delimits(parse, items[i])
  }

  /** The elements from the second on, each behind its comma. */
  function More<T>(items: seq<Item<T>>, after: seq<Sym>): seq<Sym> {
    if items == [] then after else
      [B(COMMA)] + (Syms(items[0].lead) + (Syms(items[0].text) + (Syms(items[0].trail) + More(items[1..], after))))
  }

  /** All elements, up to where the closing bracket should be. */
  function Elements<T>(items: seq<Item<T>>, after: seq<Sym>): seq<Sym> {
    if items == [] then after else
      Syms(items[0].lead) + (Syms(items[0].text) + (Syms(items[0].trail) + More(items[1..], after)))
  }

  function Values<T>(items: seq<Item<T>>): seq<Result<T, StreamError>> {
    if items == [] then [] else [Ok(items[0].value)] + Values(items[1..])
  }

  lemma {:induction false} SkipBlanks(blanks: seq<byte>, after: seq<Sym>)
    requires Blanks(blanks)
    ensures SkipWs(Syms(blanks) + after) == SkipWs(after)
  {
    var s := Syms(blanks) + after;
    if blanks == [] {
      assert s == after;
    } else {
      assert blanks[0] in blanks;
      assert s[1..] == Syms(blanks[1..]) + after;
      SkipBlanks(blanks[1..], after);
    }
  }

  lemma ReadItem<T(!new)>(parse: seq<Sym> -> Parsed<T>, item: Item<T>, lead: seq<byte>, after: seq<Sym>)
    requires Delimits(parse, item) && Blanks(lead)
    ensures ReadOne(parse, Syms(lead) + (Syms(item.text) + after)) ==
            Outcome(Some(Ok(item.value)), DuringFeatures, after)
  {
    var s := Syms(lead) + (Syms(item.text) + after);
    assert DelimitsAt(parse, item, lead, after);
    assert s[|lead| + |item.text|..] == after;
  }

  /** A comma and an element. */
  lemma NextIsItem<T(!new)>(parse: seq<Sym> -> Parsed<T>, item: Item<T>, before: seq<byte>, after: seq<Sym>,
                            s: seq<Sym>)
    requires Delimits(parse, item) && Blanks(before)
    requires s == Syms(before) + ([B(COMMA)] + (Syms(item.lead) + (Syms(item.text) + after)))
    ensures NextDuring(parse, s) == Outcome(Some(Ok(item.value)), DuringFeatures, after)
  {
    var tail := Syms(item.lead) + (Syms(item.text) + after);
    SkipBlanks(before, [B(COMMA)] + tail);
    assert ([B(COMMA)] + tail)[1..] == tail;
    ReadItem(parse, item, item.lead, after);
  }

  /** The first element. */
  lemma FirstIsItem<T(!new)>(parse: seq<Sym> -> Parsed<T>, item: Item<T>, after: seq<Sym>, s: seq<Sym>)
    requires Delimits(parse, item) && s == Syms(item.lead) + (Syms(item.text) + after)
    ensures NextFirst(parse, s) == Outcome(Some(Ok(item.value)), DuringFeatures, after)
  {
    var text := Syms(item.text) + after;
    SkipBlanks(item.lead, text);
    assert text[0] == B(item.text[0]);
    assert Syms([]) + text == text;
    ReadItem(parse, item, [], after);
  }

  lemma DrainStep<T(!new)>(parse: seq<Sym> -> Parsed<T>, state: State, s: seq<Sym>, v: T, after: seq<Sym>)
    requires GoodParser(parse) && Next(parse, state, s) == Outcome(Some(Ok(v)), DuringFeatures, after)
    ensures Drain(parse, state, s) == [Ok(v)] + Drain(parse, DuringFeatures, after)
  {
  }

  lemma DrainSame<T(!new)>(parse: seq<Sym> -> Parsed<T>, state: State, s: seq<Sym>, state': State, s': seq<Sym>)
    requires GoodParser(parse) && Next(parse, state, s) == Next(parse, state', s')
    ensures Drain(parse, state, s) == Drain(parse, state', s')
  {
  }

  lemma ValuesStep<T>(items: seq<Item<T>>, end: seq<Result<T, StreamError>>)
    requires items != []
    ensures [Ok(items[0].value)] + (Values(items[1..]) + end) == Values(items) + end
  {
  }

  /** The rest of the array is read element by element, and then comes whatever follows it. */
  lemma {:induction false} DrainMore<T(!new)>(parse: seq<Sym> -> Parsed<T>, items: seq<Item<T>>, trail: seq<byte>,
                                              after: seq<Sym>)
    requires GoodParser(parse) && AllDelimit(parse, items) && Blanks(trail)
    ensures Drain(parse, DuringFeatures, Syms(trail) + More(items, after)) ==
            Values(items) + Drain(parse, DuringFeatures, after)
    decreases |items|
  {
    var s := Syms(trail) + More(items, after);
    if items == [] {
      SkipBlanks(trail, after);
      DrainSame(parse, DuringFeatures, s, DuringFeatures, after);
    } else {
      var item, rest := items[0], items[1..];
      var tail := Syms(item.trail) + More(rest, after);
      NextIsItem(parse, item, trail, tail, s);
      DrainStep(parse, DuringFeatures, s, item.value, tail);
      DrainMore(parse, rest, item.trail, after);
      ValuesStep(items, Drain(parse, DuringFeatures, after));
    }
  }

  predicate NoBracket(prefix: seq<byte>) {
    OPEN !in prefix
  }

  lemma {:induction false} PrefixSkipped<T(!new)>(parse: seq<Sym> -> Parsed<T>, prefix: seq<byte>, after: seq<Sym>)
    requires GoodParser(parse) && NoBracket(prefix)
    ensures NextBefore(parse, Syms(prefix) + ([B(OPEN)] + after)) == NextFirst(parse, after)
  {
    var s := Syms(prefix) + ([B(OPEN)] + after);
    if prefix == [] {
      assert s[0] == B(OPEN) && s[1..] == after;
    } else {
      assert s[0] == B(prefix[0]) && prefix[0] in prefix;
      assert s[1..] == Syms(prefix[1..]) + ([B(OPEN)] + after);
      PrefixSkipped(parse, prefix[1..], after);
    }
  }

  /** A document: anything without `[`, the bracket, the elements, and whatever comes after the last one. */
  function Document<T>(prefix: seq<byte>, items: seq<Item<T>>, after: seq<Sym>): seq<Sym> {
    Syms(prefix) + ([B(OPEN)] + Elements(items, after))
  }

  /** The stream yields exactly the elements, in order, and then depends only on what follows them. */
  lemma DocumentDrains<T(!new)>(parse: seq<Sym> -> Parsed<T>, prefix: seq<byte>, items: seq<Item<T>>, after: seq<Sym>)
    requires GoodParser(parse) && NoBracket(prefix) && AllDelimit(parse, items)
    ensures Drain(parse, BeforeFeatures, Document(prefix, items, after))
            == Values(items) + Drain(parse, if items == [] then FirstElement else DuringFeatures, after)
  {
    var s, inner := Document(prefix, items, after), Elements(items, after);
    PrefixSkipped(parse, prefix, inner);
    DrainSame(parse, BeforeFeatures, s, FirstElement, inner);
    if items != [] {
      var item, rest := items[0], items[1..];
      var tail := Syms(item.trail) + More(rest, after);
      FirstIsItem(parse, item, tail, inner);
      DrainStep(parse, FirstElement, inner, item.value, tail);
      DrainMore(parse, rest, item.trail, after);
      ValuesStep(items, Drain(parse, DuringFeatures, after));
    }
  }

  lemma DrainEmpty<T(!new)>(parse: seq<Sym> -> Parsed<T>, state: State, s: seq<Sym>)
    requires GoodParser(parse)
    ensures Drain(parse, state, s) == [] <==> Next(parse, state, s).item.None?
  {
  }

  /**
    A closed array gives its elements and no error, the empty one included; nothing behind the
    bracket is looked at.
   */
  lemma WellFormedDocument<T(!new)>(parse: seq<Sym> -> Parsed<T>, prefix: seq<byte>, items: seq<Item<T>>,
                                    blanks: seq<byte>, tail: seq<Sym>)
    requires GoodParser(parse) && NoBracket(prefix) && AllDelimit(parse, items) && Blanks(blanks)
    ensures Drain(parse, BeforeFeatures, Document(prefix, items, Syms(blanks) + ([B(CLOSE)] + tail))) == Values(items)
  {
    var after := Syms(blanks) + ([B(CLOSE)] + tail);
    DocumentDrains(parse, prefix, items, after);
    SkipBlanks(blanks, [B(CLOSE)] + tail);
    DrainEmpty(parse, if items == [] then FirstElement else DuringFeatures, after);
  }

  /**
    What follows the last element ends the array, or, if there is an element at all, it is a comma
    and then blanks to the end of the file.
   */
  ghost predicate EndsQuietly(anyElement: bool, after: seq<Sym>) {
    var t := SkipWs(after);
    t != [] && (t[0] == B(CLOSE) || (anyElement && t[0] == B(COMMA) && JsonBlank(t[1..])))
  }

  lemma {:induction false} NoWsLeft(s: seq<Sym>)
    ensures var t := SkipWs(s); t == [] || t[0] == IoError || !IsWs(t[0].b)
  {
    if s != [] && s[0].B? && IsWs(s[0].b) {
      NoWsLeft(s[1..]);
    }
  }

  lemma QuietStep<T(!new)>(parse: seq<Sym> -> Parsed<T>, anyElement: bool, after: seq<Sym>)
    requires GoodParser(parse)
    ensures Next(parse, if anyElement then DuringFeatures else FirstElement, after).item.None? <==>
            EndsQuietly(anyElement, after)
  {
    var t := SkipWs(after);
    NoWsLeft(after);
    if t != [] {
      assert GoodAt(parse, t[1..]) && GoodAt(parse, t);
      assert !anyElement && t[0].B? ==> !JsonBlank(t);
    }
  }

  /** An element, rather than the closing bracket or something the parser refuses, comes first. */
  ghost predicate StartsElement<T>(parse: seq<Sym> -> Parsed<T>, s: seq<Sym>) {
    var t := SkipWs(s);
    t != [] && t[0].B? && t[0].b != CLOSE && parse(t).Element?
  }

  /**
    When the end goes unnoticed: the stream stops without an error at the closing bracket, and also
    where the file was cut right after a comma, although that array is not closed. Everywhere else
    a cut is reported.
   */
  lemma QuietEnd<T(!new)>(parse: seq<Sym> -> Parsed<T>, prefix: seq<byte>, items: seq<Item<T>>, after: seq<Sym>)
    requires GoodParser(parse) && NoBracket(prefix) && AllDelimit(parse, items)
    ensures Drain(parse, BeforeFeatures, Document(prefix, items, after)) == Values(items) <==>
            EndsQuietly(items != [], after)
  {
    DocumentDrains(parse, prefix, items, after);
    DrainEmpty(parse, if items == [] then FirstElement else DuringFeatures, after);
    QuietStep(parse, items != [], after);
  }

  // ---------------------------------------------------------------------------
  // Documents with an earlier bracket
  // ---------------------------------------------------------------------------

  ghost predicate ObjectAt<T>(parse: seq<Sym> -> Parsed<T>, s: seq<Sym>) {
    parse(s).Element? ==> SkipWs(s) != [] && SkipWs(s)[0] == B(OBJECT)
  }

  /** A feature is a JSON object, so elements start with `{`. */
  ghost predicate ObjectsOnly<T(!new)>(parse: seq<Sym> -> Parsed<T>) {
    forall s :: ObjectAt(parse, s)
  }

  /** The first bracket of the file is taken for the features array, whatever it belongs to. */
  lemma FirstBracketWins<T(!new)>(parse: seq<Sym> -> Parsed<T>, before: seq<byte>, rest: seq<Sym>)
    requires GoodParser(parse) && NoBracket(before)
    ensures Drain(parse, BeforeFeatures, Syms(before) + ([B(OPEN)] + rest)) == Drain(parse, FirstElement, rest)
  {
    PrefixSkipped(parse, before, rest);
    DrainSame(parse, BeforeFeatures, Syms(before) + ([B(OPEN)] + rest), FirstElement, rest);
  }

  /** Without an element behind that bracket the run is over: with nothing, or with exactly one error. */
  lemma NoElementNoMore<T(!new)>(parse: seq<Sym> -> Parsed<T>, rest: seq<Sym>)
    requires GoodParser(parse) && !StartsElement(parse, rest)
    ensures var t, d := SkipWs(rest), Drain(parse, FirstElement, rest);
            if t != [] && t[0] == B(CLOSE) then d == [] else |d| == 1 && d[0].Err?
  {
    NoWsLeft(rest);
    QuietStep(parse, false, rest);
    DrainEmpty(parse, FirstElement, rest);
    CallsMakeProgress(parse, FirstElement, rest);
  }

  /** A prefix with a bracket in it, cut there: what stands before and what behind. */
  function CutAtBracket(prefix: seq<byte>): (c: (seq<byte>, seq<byte>))
    requires !NoBracket(prefix)
    ensures NoBracket(c.0) && prefix == c.0 + [OPEN] + c.1
  {
    if prefix[0] == OPEN then ([], prefix[1..]) else
      var (p, q) := CutAtBracket(prefix[1..]);
      ([prefix[0]] + p, q)
  }

  /** What the stream takes for the array: the bytes behind the first bracket, the real array included. */
  function Mistaken<T>(prefix: seq<byte>, items: seq<Item<T>>, after: seq<Sym>): seq<Sym>
    requires !NoBracket(prefix)
  {
    Document(CutAtBracket(prefix).1, items, after)
  }

  lemma MistakenDocument<T(!new)>(parse: seq<Sym> -> Parsed<T>, prefix: seq<byte>, items: seq<Item<T>>, after: seq<Sym>)
    requires GoodParser(parse) && !NoBracket(prefix)
    ensures Drain(parse, BeforeFeatures, Document(prefix, items, after)) ==
            Drain(parse, FirstElement, Mistaken(prefix, items, after))
  {
    var (p, q) := CutAtBracket(prefix);
    var rest := Mistaken(prefix, items, after);
    assert Syms(prefix) == Syms(p) + ([B(OPEN)] + Syms(q));
    assert Document(prefix, items, after) == Syms(p) + ([B(OPEN)] + rest);
    FirstBracketWins(parse, p, rest);
  }

  lemma {:induction false} AllValuesOk<T>(items: seq<Item<T>>)
    ensures |Values(items)| == |items| && forall i :: 0 <= i < |items| ==> Values(items)[i].Ok?
  {
    if items != [] {
      AllValuesOk(items[1..]);
    }
  }

  /** The first visible byte of a text, or the bracket behind it. */
  function FirstVisible(q: seq<byte>): byte {
    if q == [] then OPEN else if IsWs(q[0]) then FirstVisible(q[1..]) else q[0]
  }

  lemma {:induction false} MistakenIsVisible(q: seq<byte>, rest: seq<Sym>)
    ensures var t := SkipWs(Syms(q) + ([B(OPEN)] + rest)); t != [] && t[0] == B(FirstVisible(q))
  {
    var s := Syms(q) + ([B(OPEN)] + rest);
    if q == [] {
      assert s[0] == B(OPEN);
    } else {
      assert s[0] == B(q[0]) && s[1..] == Syms(q[1..]) + ([B(OPEN)] + rest);
      MistakenIsVisible(q[1..], rest);
    }
  }

  /**
    Exactly when a closed document is read: no bracket may stand before the features array. An
    earlier one, in a `bbox`, a list of tags or a name, costs all the elements, unless an element
    stands right behind it; if there are none to lose, an empty earlier array does no harm.
   */
  lemma EarlierBracket<T(!new)>(parse: seq<Sym> -> Parsed<T>, prefix: seq<byte>, items: seq<Item<T>>, blanks: seq<byte>,
                                tail: seq<Sym>)
    requires GoodParser(parse) && AllDelimit(parse, items) && Blanks(blanks)
    requires NoBracket(prefix) || !StartsElement(parse, Mistaken(prefix, items, Syms(blanks) + ([B(CLOSE)] + tail)))
    ensures var after := Syms(blanks) + ([B(CLOSE)] + tail);
            Drain(parse, BeforeFeatures, Document(prefix, items, after)) == Values(items)
            <==> NoBracket(prefix) || (items == [] && FirstVisible(CutAtBracket(prefix).1) == CLOSE)
  {
    var after := Syms(blanks) + ([B(CLOSE)] + tail);
    if NoBracket(prefix) {
      WellFormedDocument(parse, prefix, items, blanks, tail);
    } else {
      MistakenDocument(parse, prefix, items, after);
      NoElementNoMore(parse, Mistaken(prefix, items, after));
      MistakenIsVisible(CutAtBracket(prefix).1, Elements(items, after));
      AllValuesOk(items);
    }
  }

  /** It is enough to look at one byte: an earlier bracket without an object behind it starts no element. */
  lemma NoObjectNoElement<T(!new)>(parse: seq<Sym> -> Parsed<T>, prefix: seq<byte>, items: seq<Item<T>>,
                                   after: seq<Sym>)
    requires ObjectsOnly(parse) && !NoBracket(prefix) && FirstVisible(CutAtBracket(prefix).1) != OBJECT
    ensures !StartsElement(parse, Mistaken(prefix, items, after))
  {
    var s := Mistaken(prefix, items, after);
    var t := SkipWs(s);
    MistakenIsVisible(CutAtBracket(prefix).1, Elements(items, after));
    assert ObjectAt(parse, t);
    assert SkipWs(t) == t || IsWs(t[0].b);
    NoWsLeft(s);
  }

  lemma EarlyText<T(!new)>(parse: seq<Sym> -> Parsed<T>, name: seq<byte>, first: byte, more: seq<byte>,
                           items: seq<Item<T>>, after: seq<Sym>)
    requires GoodParser(parse) && ObjectsOnly(parse) && NoBracket(name) && !IsWs(first) && first != OBJECT
    ensures var d := Drain(parse, BeforeFeatures, Document(name + [OPEN, first] + more, items, after));
            if first == CLOSE then d == [] else |d| == 1 && d[0].Err?
  {
    var q := [first] + more;
    var rest := Document(q, items, after);
    assert Document(name + [OPEN, first] + more, items, after) == Syms(name) + ([B(OPEN)] + rest);
    FirstBracketWins(parse, name, rest);
    var t := SkipWs(rest);
    assert rest[0] == B(first);
    assert ObjectAt(parse, t);
    NoElementNoMore(parse, rest);
  }

  /** `{"bbox":[1` before the features: no element, one error. */
  lemma LeadingBbox<T(!new)>(parse: seq<Sym> -> Parsed<T>, more: seq<byte>, items: seq<Item<T>>, after: seq<Sym>)
    requires GoodParser(parse) && ObjectsOnly(parse)
    ensures var prefix := [0x7B, 0x22, 0x62, 0x62, 0x6F, 0x78, 0x22, 0x3A, 0x5B, 0x31] + more;
            var d := Drain(parse, BeforeFeatures, Document(prefix, items, after));
            |d| == 1 && d[0].Err?
  {
    EarlyText(parse, [0x7B, 0x22, 0x62, 0x62, 0x6F, 0x78, 0x22, 0x3A], 0x31, more, items, after);
    assert [0x7B, 0x22, 0x62, 0x62, 0x6F, 0x78, 0x22, 0x3A, 0x5B, 0x31] + more
        == [0x7B, 0x22, 0x62, 0x62, 0x6F, 0x78, 0x22, 0x3A] + [OPEN, 0x31] + more;
  }

  /** `{"tags":[]` before the features: no element and not even an error. */
  lemma EmptyEarlyArray<T(!new)>(parse: seq<Sym> -> Parsed<T>, more: seq<byte>, items: seq<Item<T>>, after: seq<Sym>)
    requires GoodParser(parse) && ObjectsOnly(parse)
    ensures var prefix := [0x7B, 0x22, 0x74, 0x61, 0x67, 0x73, 0x22, 0x3A, 0x5B, 0x5D] + more;
            Drain(parse, BeforeFeatures, Document(prefix, items, after)) == []
  {
    EarlyText(parse, [0x7B, 0x22, 0x74, 0x61, 0x67, 0x73, 0x22, 0x3A], CLOSE, more, items, after);
    assert [0x7B, 0x22, 0x74, 0x61, 0x67, 0x73, 0x22, 0x3A, 0x5B, 0x5D] + more
        == [0x7B, 0x22, 0x74, 0x61, 0x67, 0x73, 0x22, 0x3A] + [OPEN, CLOSE] + more;
  }
}
