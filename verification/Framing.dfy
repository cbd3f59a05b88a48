/**
  Encoders and decoders of length-prefixed binary data, and when a decoder inverts an encoder: it
  accepts a position exactly when the encoding of some admissible value stands there.
 */
module Framing {
  import opened Wrappers
  import opened MachineInts
  import opened ByteOrder

  type Encoder<!T> = T -> seq<byte>
  /** From a position: the value read there and the position behind it. */
  type Decoder<!T> = nat -> Option<(T, nat)>

  ghost predicate SoundAt<T>(bs: seq<byte>, dec: Decoder<T>, enc: Encoder<T>, ok: T -> bool, pos: nat) {
    dec(pos).Some? ==>
      var (x, next) := dec(pos).value;
      ok(x) && At(bs, pos, enc(x)) && next == pos + |enc(x)|
  }

  ghost predicate CompleteAt<T>(bs: seq<byte>, dec: Decoder<T>, enc: Encoder<T>, ok: T -> bool, pos: nat, x: T) {
    ok(x) && At(bs, pos, enc(x)) ==> dec(pos) == Some((x, pos + |enc(x)|))
  }

  /** Every decoded value is admissible and its encoding is what was read. */
  ghost predicate Sound<T>(bs: seq<byte>, dec: Decoder<T>, enc: Encoder<T>, ok: T -> bool) {
    forall pos: nat :: SoundAt(bs, dec, enc, ok, pos)
  }

  /** Wherever the encoding of an admissible value stands, that value is decoded. */
  ghost predicate Complete<T(!new)>(bs: seq<byte>, dec: Decoder<T>, enc: Encoder<T>, ok: T -> bool) {
    forall pos: nat, x: T :: CompleteAt(bs, dec, enc, ok, pos, x)
  }

  ghost predicate Inverse<T(!new)>(bs: seq<byte>, dec: Decoder<T>, enc: Encoder<T>, ok: T -> bool) {
    Sound(bs, dec, enc, ok) && Complete(bs, dec, enc, ok)
  }

  lemma SameAdmissible<T(!new)>(bs: seq<byte>, dec: Decoder<T>, enc: Encoder<T>, ok: T -> bool, ok': T -> bool)
    requires Inverse(bs, dec, enc, ok) && forall x :: ok(x) <==> ok'(x)
    ensures Inverse(bs, dec, enc, ok')
  {
    forall pos: nat
      ensures SoundAt(bs, dec, enc, ok', pos)
    {
      assert SoundAt(bs, dec, enc, ok, pos);
      if dec(pos).Some? {
        assert ok(dec(pos).value.0);
      }
    }
    forall pos: nat, x
      ensures CompleteAt(bs, dec, enc, ok', pos, x)
    {
      assert CompleteAt(bs, dec, enc, ok, pos, x);
    }
  }

  // ---------------------------------------------------------------------------
  // Runs of items
  // ---------------------------------------------------------------------------

  function EncodeAll<T>(enc: Encoder<T>, xs: seq<T>): seq<byte> {
    if xs == [] then [] else enc(xs[0]) + EncodeAll(enc, xs[1..])
  }

  /** `n` more items behind those in `acc`. */
  function DecodeItems<T>(dec: Decoder<T>, pos: nat, n: nat, acc: seq<T>): Option<(seq<T>, nat)>
    decreases n
  {
    if n == 0 then Some((acc, pos)) else
    match dec(pos)
    case None => None
    case Some((x, next)) => DecodeItems(dec, next, n - 1, acc + [x])
  }

  lemma {:induction false} EncodeAllAppends<T>(enc: Encoder<T>, xs: seq<T>, i: nat)
    requires i < |xs|
    ensures EncodeAll(enc, xs[..i + 1]) == EncodeAll(enc, xs[..i]) + enc(xs[i])
  {
    if i == 0 {
      assert xs[..1][1..] == [] && xs[..0] == [];
    } else {
      EncodeAllAppends(enc, xs[1..], i - 1);
      assert xs[..i + 1][1..] == xs[1..][..i] && xs[..i][1..] == xs[1..][..i - 1];
    }
  }

  /** Appending the encoding of one more item to a buffer. */
  lemma AppendItem<T>(start: seq<byte>, enc: Encoder<T>, xs: seq<T>, i: nat, out: seq<byte>)
    requires i < |xs| && out == start + EncodeAll(enc, xs[..i])
    ensures out + enc(xs[i]) == start + EncodeAll(enc, xs[..i + 1])
  {
    EncodeAllAppends(enc, xs, i);
  }

  predicate EachOk<T>(ok: T -> bool, xs: seq<T>) {
    forall i :: 0 <= i < |xs| ==> ok(xs[i])
  }

  lemma {:induction false} ItemsSound<T>(bs: seq<byte>, dec: Decoder<T>, enc: Encoder<T>, ok: T -> bool, pos: nat,
                                         n: nat, acc: seq<T>)
    requires Sound(bs, dec, enc, ok)
    requires DecodeItems(dec, pos, n, acc).Some?
    ensures var (ys, next) := DecodeItems(dec, pos, n, acc).value;
            && |ys| == |acc| + n && ys[..|acc|] == acc
            && EachOk(ok, ys[|acc|..])
            && next == pos + |EncodeAll(enc, ys[|acc|..])|
            && (pos <= |bs| ==> At(bs, pos, EncodeAll(enc, ys[|acc|..])))
    decreases n
  {
    if n > 0 {
      assert SoundAt(bs, dec, enc, ok, pos);
      var (x, p) := dec(pos).value;
      ItemsSound(bs, dec, enc, ok, p, n - 1, acc + [x]);
      var (ys, next) := DecodeItems(dec, pos, n, acc).value;
      var tail := ys[|acc|..];
      assert ys[..|acc|] == ys[..|acc| + 1][..|acc|];
      assert tail[0] == ys[..|acc| + 1][|acc|] == x;
      assert tail[1..] == ys[|acc| + 1..];
      AtConcat(bs, pos, enc(x), EncodeAll(enc, tail[1..]));
    }
  }

  lemma {:induction false} ItemsComplete<T(!new)>(bs: seq<byte>, dec: Decoder<T>, enc: Encoder<T>, ok: T -> bool,
                                                  pos: nat, xs: seq<T>, acc: seq<T>)
    requires Complete(bs, dec, enc, ok)
    requires EachOk(ok, xs) && At(bs, pos, EncodeAll(enc, xs))
    ensures DecodeItems(dec, pos, |xs|, acc) == Some((acc + xs, pos + |EncodeAll(enc, xs)|))
    decreases |xs|
  {
    if xs == [] {
      assert acc + xs == acc;
    } else {
      AtConcat(bs, pos, enc(xs[0]), EncodeAll(enc, xs[1..]));
      assert CompleteAt(bs, dec, enc, ok, pos, xs[0]);
      ItemsComplete(bs, dec, enc, ok, pos + |enc(xs[0])|, xs[1..], acc + [xs[0]]);
      assert acc + [xs[0]] + xs[1..] == acc + xs;
    }
  }

  /** Items of at least `perItem` bytes each take up at least that many bytes together. */
  lemma {:induction false} ItemsLength<T>(enc: Encoder<T>, perItem: nat, xs: seq<T>)
    requires forall x :: |enc(x)| >= perItem
    ensures |EncodeAll(enc, xs)| >= |xs| * perItem
  {
    if xs != [] {
      ItemsLength(enc, perItem, xs[1..]);
      assert |xs| * perItem == |xs[1..]| * perItem + perItem;
    }
  }

  // ---------------------------------------------------------------------------
  // Counts
  // ---------------------------------------------------------------------------

  /** Only these counts have an encoding; of any other the low 32 bits would be left. */
  predicate Countable(n: nat) { n < TWO_TO_THE_32 }

  function EncodeCount(n: nat, little: bool): (bs: seq<byte>)
    ensures |bs| == 4
  {
    PutU32(n % TWO_TO_THE_32, little)
  }

  function DecodeCount(bs: seq<byte>, pos: nat, little: bool): Option<(nat, nat)> {
    if pos + 4 <= |bs| then Some((GetU32(bs[pos..pos + 4], little), pos + 4)) else None
  }

  lemma CountSoundAt(bs: seq<byte>, pos: nat, little: bool)
    requires DecodeCount(bs, pos, little).Some?
    ensures var (n, next) := DecodeCount(bs, pos, little).value;
            Countable(n) && At(bs, pos, EncodeCount(n, little)) && next == pos + 4
  {
    Canonical32(bs[pos..pos + 4], little);
  }

  function CountEncoder(little: bool): Encoder<nat> {
    n => EncodeCount(n, little)
  }

  function CountDecoder(bs: seq<byte>, little: bool): Decoder<nat> {
    pos => DecodeCount(bs, pos, little)
  }

  lemma CountInverse(bs: seq<byte>, little: bool)
    ensures Inverse(bs, CountDecoder(bs, little), CountEncoder(little), Countable)
  {
    var dec, enc := CountDecoder(bs, little), CountEncoder(little);
    forall pos: nat
      ensures SoundAt(bs, dec, enc, Countable, pos)
    {
      if dec(pos).Some? {
        CountSoundAt(bs, pos, little);
      }
    }
    forall pos: nat, n: nat
      ensures CompleteAt(bs, dec, enc, Countable, pos, n)
    {
    }
  }

  // ---------------------------------------------------------------------------
  // Counted lists
  // ---------------------------------------------------------------------------

  function EncodeList<T>(count: Encoder<nat>, enc: Encoder<T>, xs: seq<T>): seq<byte> {
    count(|xs|) + EncodeAll(enc, xs)
  }

  /** A count, refused if that many items of `perItem` bytes cannot follow, then the items. */
  function DecodeList<T>(count: Decoder<nat>, dec: Decoder<T>, perItem: nat, size: nat,
                         pos: nat): Option<(seq<T>, nat)> {
    match count(pos)
    case None => None
    case Some((n, next)) => if n * perItem > size - next then None else DecodeItems(dec, next, n, [])
  }

  predicate ListAdmissible<T>(ok: T -> bool, xs: seq<T>) {
    Countable(|xs|) && EachOk(ok, xs)
  }

  lemma ListSoundAt<T>(bs: seq<byte>, decCount: Decoder<nat>, count: Encoder<nat>, dec: Decoder<T>, enc: Encoder<T>,
                       ok: T -> bool, perItem: nat, pos: nat)
    requires Sound(bs, decCount, count, Countable) && Sound(bs, dec, enc, ok)
    requires DecodeList(decCount, dec, perItem, |bs|, pos).Some?
    ensures var (xs, next) := DecodeList(decCount, dec, perItem, |bs|, pos).value;
            && ListAdmissible(ok, xs)
            && At(bs, pos, EncodeList(count, enc, xs)) && next == pos + |EncodeList(count, enc, xs)|
  {
    assert SoundAt(bs, decCount, count, Countable, pos);
    var (n, p) := decCount(pos).value;
    ItemsSound(bs, dec, enc, ok, p, n, []);
    var (xs, next) := DecodeList(decCount, dec, perItem, |bs|, pos).value;
    assert xs[0..] == xs;
    AtConcat(bs, pos, count(n), EncodeAll(enc, xs));
  }

  lemma ListCompleteAt<T(!new)>(bs: seq<byte>, decCount: Decoder<nat>, count: Encoder<nat>, dec: Decoder<T>,
                                enc: Encoder<T>, ok: T -> bool, perItem: nat, pos: nat, xs: seq<T>)
    requires Complete(bs, decCount, count, Countable) && Complete(bs, dec, enc, ok)
    requires forall x :: |enc(x)| >= perItem
    requires ListAdmissible(ok, xs) && At(bs, pos, EncodeList(count, enc, xs))
    ensures DecodeList(decCount, dec, perItem, |bs|, pos) == Some((xs, pos + |EncodeList(count, enc, xs)|))
  {
    AtConcat(bs, pos, count(|xs|), EncodeAll(enc, xs));
    assert CompleteAt<nat>(bs, decCount, count, Countable, pos, |xs|);
    ItemsLength(enc, perItem, xs);
    ItemsComplete(bs, dec, enc, ok, pos + |count(|xs|)|, xs, []);
    assert [] + xs == xs;
  }

  function ListEncoder<T>(count: Encoder<nat>, enc: Encoder<T>): Encoder<seq<T>> {
    xs => EncodeList(count, enc, xs)
  }

  function ListDecoder<T>(count: Decoder<nat>, dec: Decoder<T>, perItem: nat, size: nat): Decoder<seq<T>> {
    pos => DecodeList(count, dec, perItem, size, pos)
  }

  function ListOk<T>(ok: T -> bool): seq<T> -> bool {
    xs => ListAdmissible(ok, xs)
  }

  /** The list decoder inverts the list encoder; in particular its count guard rejects no encoded list. */
  lemma ListInverse<T(!new)>(bs: seq<byte>, decCount: Decoder<nat>, count: Encoder<nat>, dec: Decoder<T>,
                             enc: Encoder<T>, ok: T -> bool, perItem: nat)
    requires Inverse(bs, decCount, count, Countable) && Inverse(bs, dec, enc, ok)
    requires forall x :: |enc(x)| >= perItem
    ensures Inverse(bs, ListDecoder(decCount, dec, perItem, |bs|), ListEncoder(count, enc), ListOk(ok))
  {
    var decList, encList := ListDecoder(decCount, dec, perItem, |bs|), ListEncoder(count, enc);
    forall pos: nat
      ensures SoundAt(bs, decList, encList, ListOk(ok), pos)
    {
      if decList(pos).Some? {
        ListSoundAt(bs, decCount, count, dec, enc, ok, perItem, pos);
      }
    }
    forall pos: nat, xs
      ensures CompleteAt(bs, decList, encList, ListOk(ok), pos, xs)
    {
      if ListAdmissible(ok, xs) && At(bs, pos, EncodeList(count, enc, xs)) {
        ListCompleteAt(bs, decCount, count, dec, enc, ok, perItem, pos, xs);
      }
    }
  }
}
