/** The binary payload of a `numeric` (crates/shpx-driver-postgis/src/copy_binary.rs). */
module NumericWire {
  import opened Wrappers
  import opened MachineInts
  import opened ByteOrder
  import opened PgNumericCodec

  function DigitBytes(ds: seq<I16>): (bs: seq<byte>)
    ensures |bs| == 2 * |ds|
  {
    if ds == [] then [] else DigitBytes(ds[..|ds| - 1]) + PutI16(ds[|ds| - 1], false)
  }

  /** Digit count, weight, sign and display scale, all big-endian. */
  function PayloadHeader(nDigits: U16, weight: I16, sign: U16, dscale: U16): (bs: seq<byte>)
    ensures |bs| == 8
    ensures bs[0..2] == PutU16(nDigits, false) && bs[2..4] == PutI16(weight, false)
    ensures bs[4..6] == PutU16(sign, false) && bs[6..8] == PutU16(dscale, false)
  {
    PutU16(nDigits, false) + PutI16(weight, false) + PutU16(sign, false) + PutU16(dscale, false)
  }

  function Payload(n: PgNumeric): (bs: seq<byte>)
    requires |n.digits| < 0x1_0000
    ensures |bs| == 8 + 2 * |n.digits|
  {
    PayloadHeader(|n.digits|, n.weight, n.sign, n.dscale) + DigitBytes(n.digits)
  }

  lemma {:induction false} DigitPair(ds: seq<I16>, i: nat)
    requires i < |ds|
    ensures DigitBytes(ds)[2 * i..2 * i + 2] == PutI16(ds[i], false)
  {
    if i < |ds| - 1 {
      DigitPair(ds[..|ds| - 1], i);
      assert DigitBytes(ds)[2 * i..2 * i + 2] == DigitBytes(ds[..|ds| - 1])[2 * i..2 * i + 2];
    }
  }

  lemma HeaderWords(n: PgNumeric)
    requires |n.digits| < 0x1_0000
    ensures var p := Payload(n);
            && p[0..2] == PutU16(|n.digits|, false) && p[2..4] == PutI16(n.weight, false)
            && p[4..6] == PutU16(n.sign, false) && p[6..8] == PutU16(n.dscale, false)
            && p[8..] == DigitBytes(n.digits)
  {
    var header := PayloadHeader(|n.digits|, n.weight, n.sign, n.dscale);
    var p := Payload(n);
    assert p[..8] == header;
    assert p[0..2] == header[0..2] && p[2..4] == header[2..4] && p[4..6] == header[4..6] && p[6..8] == header[6..8];
  }

  /** The payload in numbers: every word stands most significant byte first, negative ones in two's complement. */
  lemma PayloadWords(n: PgNumeric)
    requires |n.digits| < 0x1_0000
    ensures var p := Payload(n);
            && Value(p[0..2]) == |n.digits| && Value(p[2..4]) == n.weight % 0x1_0000
            && Value(p[4..6]) == n.sign && Value(p[6..8]) == n.dscale
    ensures forall i :: 0 <= i < |n.digits| ==>
            Value(Payload(n)[8..][2 * i..2 * i + 2]) == (n.digits[i] as int) % 0x1_0000
  {
    HeaderWords(n);
    Written16(|n.digits|, false);
    Written16(n.weight, false);
    Written16(n.sign, false);
    Written16(n.dscale, false);
    forall i | 0 <= i < |n.digits|
      ensures Value(DigitBytes(n.digits)[2 * i..2 * i + 2]) == (n.digits[i] as int) % 0x1_0000
    {
      DigitPair(n.digits, i);
      Written16(n.digits[i], false);
    }
  }

  lemma CountBehind(out: seq<byte>, n: PgNumeric)
    requires |n.digits| < 0x1_0000
    ensures Value((out + Payload(n))[|out|..|out| + 2]) == |n.digits|
  {
    PayloadWords(n);
    assert (out + Payload(n))[|out|..|out| + 2] == Payload(n)[0..2];
  }

  /** `PgNumeric::write_payload`: the digit count is written as an `i16`, which the caller keeps in range. */
  method WritePayload(n: PgNumeric, out: seq<byte>) returns (out': seq<byte>)
    requires |n.digits| < 0x8000
    ensures out' == out + Payload(n)
    ensures Value(out'[|out|..|out| + 2]) == |n.digits|
  {
    var header := PutI16(|n.digits|, false) + PutI16(n.weight, false) + PutU16(n.sign, false) + PutU16(n.dscale, false);
    assert header == PayloadHeader(|n.digits|, n.weight, n.sign, n.dscale);
    out' := out + header;
    for i := 0 to |n.digits|
      invariant out' == out + (header + DigitBytes(n.digits[..i]))
    {
      assert n.digits[..i + 1][..i] == n.digits[..i];
      out' := out' + PutI16(n.digits[i], false);
    }
    assert n.digits[..|n.digits|] == n.digits;
    CountBehind(out, n);
  }

  method ReadDigits(raw: seq<byte>, count: nat) returns (digits: seq<I16>)
    requires 8 + 2 * count <= |raw|
    ensures |digits| == count && At(raw, 8, DigitBytes(digits))
  {
    digits := [];
    for i := 0 to count
      invariant |digits| == i && DigitBytes(digits) == raw[8..8 + 2 * i]
    {
      var off := 8 + i * 2;
      Canonical16(raw[off..off + 2], false);
      var more := digits + [GetI16(raw[off..off + 2], false)];
      assert more[..i] == digits;
      digits := more;
    }
  }

  lemma HeaderCanonical(h: seq<byte>)
    requires |h| == 8
    ensures PayloadHeader(GetU16(h[0..2], false), GetI16(h[2..4], false), GetU16(h[4..6], false),
                          GetU16(h[6..8], false)) == h
  {
  }

  lemma PayloadCount(n: PgNumeric, raw: seq<byte>)
    requires |n.digits| < 0x1_0000
    ensures At(raw, 0, Payload(n)) ==> |raw| >= 8 + 2 * |n.digits| && GetU16(raw[0..2], false) == |n.digits|
  {
  }

  /**
    `PgNumeric::from_sql`: succeeds exactly on byte strings that start with some payload, and
    returns the numeric of that payload. Bytes after it are ignored.
   */
  method FromSql(raw: seq<byte>) returns (r: Option<PgNumeric>)
    ensures r.Some? ==> |r.value.digits| < 0x1_0000 && At(raw, 0, Payload(r.value))
    ensures r.None? ==> forall n: PgNumeric | |n.digits| < 0x1_0000 :: !At(raw, 0, Payload(n))
  {
    if |raw| < 8 {
      return None;
    }
    var nDigits: U16 := GetU16(raw[0..2], false);
    var weight := GetI16(raw[2..4], false);
    var sign := GetU16(raw[4..6], false);
    var dscale := GetU16(raw[6..8], false);
    var count: int := nDigits;
    if |raw| < 8 + count * 2 {
      forall n: PgNumeric | |n.digits| < 0x1_0000
        ensures !At(raw, 0, Payload(n))
      {
        PayloadCount(n, raw);
      }
      return None;
    }
    var digits := ReadDigits(raw, count);
    HeaderCanonical(raw[0..8]);
    AtConcat(raw, 0, raw[0..8], DigitBytes(digits));
    return Some(PgNumeric(digits, weight, sign, dscale));
  }

  lemma SplitTail(a: seq<byte>, x: seq<byte>, b: seq<byte>, y: seq<byte>)
    requires |a| == |b| && a + x == b + y
    ensures a == b && x == y
  {
    assert (a + x)[..|a|] == a && (a + x)[|a|..] == x;
    assert (b + y)[..|b|] == b && (b + y)[|b|..] == y;
  }

  lemma {:induction false} DigitBytesInjective(a: seq<I16>, b: seq<I16>)
    requires |a| == |b| && DigitBytes(a) == DigitBytes(b)
    ensures a == b
  {
    if a != [] {
      var k := |a| - 1;
      SplitTail(DigitBytes(a[..k]), PutI16(a[k], false), DigitBytes(b[..k]), PutI16(b[k], false));
      DigitBytesInjective(a[..k], b[..k]);
      assert a == a[..k] + [a[k]] && b == b[..k] + [b[k]];
    }
  }

  /** A byte string starts with at most one payload: what was written is what is read. */
  lemma PayloadUnique(a: PgNumeric, b: PgNumeric, raw: seq<byte>)
    requires |a.digits| < 0x1_0000 && |b.digits| < 0x1_0000
    requires At(raw, 0, Payload(a)) && At(raw, 0, Payload(b))
    ensures a == b
  {
    PayloadCount(a, raw);
    PayloadCount(b, raw);
    var ha := PayloadHeader(|a.digits|, a.weight, a.sign, a.dscale);
    var hb := PayloadHeader(|b.digits|, b.weight, b.sign, b.dscale);
    AtConcat(raw, 0, ha, DigitBytes(a.digits));
    AtConcat(raw, 0, hb, DigitBytes(b.digits));
    assert ha == hb;
    assert PutI16(a.weight, false) == PutI16(b.weight, false);
    assert PutU16(a.sign, false) == PutU16(b.sign, false);
    assert PutU16(a.dscale, false) == PutU16(b.dscale, false);
    DigitBytesInjective(a.digits, b.digits);
  }

  /** The whole way through the database: encode, send, receive, decode. */
  method ThroughTheWire(value: I128, scale: U8, rest: seq<byte>) returns (r: Result<I128, NumericError>)
    ensures r.Ok? <==> value != I128_MIN
    ensures r.Ok? ==> r.value == value
  {
    var n := FromI128Scale(value, scale);
    var sent := WritePayload(n, []);
    var received := FromSql(sent + rest);
    assert At(sent + rest, 0, Payload(n));
    PayloadUnique(n, received.value, sent + rest);
    RoundTrip(n, value, scale);
    r := ToI128WithScale(received.value, scale);
  }
}
