/** The GeoPackage geometry header, section 2.1.3.1.1 of OGC GeoPackage 1.3 (crates/shpx-geom/src/gpkg_blob.rs). */
module GpkgBlob {
  import opened Wrappers
  import opened MachineInts
  import opened ByteOrder
  import opened Doubles
  import opened SpatialiteFormat
  import opened Framing

  const MAGIC: seq<byte> := [0x47, 0x50]
  const VERSION: byte := 0

  datatype BinaryType = Standard | Extended

  /** How many doubles an envelope of this type has. */
  function Dimension(envType: nat): nat {
    match envType
    case 1 => 4
    case 2 => 6
    case 3 => 6
    case 4 => 8
    case _ => 0
  }

  /** The bounding ranges, by envelope type 0 to 4. */
  datatype Envelope = NoEnvelope | Xy(a4: seq<F64>) | Xyz(z6: seq<F64>) | Xym(m6: seq<F64>) | Xyzm(a8: seq<F64>) {
    predicate Valid() {
      |Values()| == Dimension(TypeCode())
    }

    function TypeCode(): (c: nat)
      ensures c <= 4
    {
      match this
      case NoEnvelope => 0
      case Xy(_) => 1
      case Xyz(_) => 2
      case Xym(_) => 3
      case Xyzm(_) => 4
    }

    function Values(): seq<F64> {
      match this
      case NoEnvelope => []
      case Xy(a) => a
      case Xyz(a) => a
      case Xym(a) => a
      case Xyzm(a) => a
    }
  }

  /** The array sizes of the source are part of the type. */
  type FixedEnvelope = e: Envelope | e.Valid() witness NoEnvelope

  datatype GpkgHeader = GpkgHeader(srsId: I32, envelope: FixedEnvelope, empty: bool, binaryType: BinaryType)

  datatype GpkgError = TooShort | BadMagic | BadVersion | BadEnvelopeType | Truncated

  // ---------------------------------------------------------------------------
  // Doubles in a row
  // ---------------------------------------------------------------------------

  function F64Encoder(little: bool): Encoder<F64> {
    v => PutF64(v, little)
  }

  function F64Bytes(vs: seq<F64>, little: bool): seq<byte> {
    EncodeAll(F64Encoder(little), vs)
  }

  function F64At(bs: seq<byte>, i: nat, little: bool): F64
    requires 8 * i + 8 <= |bs|
  {
    GetF64(bs[8 * i..8 * i + 8], little)
  }

  function F64sOf(bs: seq<byte>, n: nat, little: bool): (vs: seq<F64>)
    requires |bs| >= 8 * n
    ensures |vs| == n
  {
    seq(n, i requires 0 <= i < n => F64At(bs, i, little))
  }

  lemma SwappedTwice(v: F64, little: bool)
    ensures PutF64(GetF64(v, little), little) == v
  {
    assert Swapped(Swapped(v)) == v;
  }

  ghost predicate EightBytes(enc: Encoder<F64>) {
    forall v :: |enc(v)| == 8
  }

  lemma {:induction false} PieceAt(enc: Encoder<F64>, vs: seq<F64>, i: nat)
    requires EightBytes(enc) && i < |vs|
    ensures |EncodeAll(enc, vs)| == 8 * |vs| && EncodeAll(enc, vs)[8 * i..8 * i + 8] == enc(vs[i])
    decreases |vs|
  {
    var tail := EncodeAll(enc, vs[1..]);
    if i > 0 {
      PieceAt(enc, vs[1..], i - 1);
      assert EncodeAll(enc, vs)[8 * i..8 * i + 8] == tail[8 * (i - 1)..8 * (i - 1) + 8];
    } else if |vs| > 1 {
      PieceAt(enc, vs[1..], 0);
    } else {
      assert tail == [];
    }
  }

  lemma {:induction false} PiecesDetermine(enc: Encoder<F64>, vs: seq<F64>, bs: seq<byte>)
    requires |bs| == 8 * |vs| && forall i :: 0 <= i < |vs| ==> bs[8 * i..8 * i + 8] == enc(vs[i])
    ensures EncodeAll(enc, vs) == bs
    decreases |vs|
  {
    if vs != [] {
      var tail := bs[8..];
      forall i | 0 <= i < |vs| - 1 ensures tail[8 * i..8 * i + 8] == enc(vs[1..][i]) {
        assert tail[8 * i..8 * i + 8] == bs[8 * (i + 1)..8 * (i + 1) + 8];
      }
      PiecesDetermine(enc, vs[1..], tail);
      assert bs == bs[8 * 0..8 * 0 + 8] + tail;
    }
  }

  lemma F64sRoundTrip(vs: seq<F64>, little: bool)
    ensures |F64Bytes(vs, little)| == 8 * |vs|
    ensures F64sOf(F64Bytes(vs, little), |vs|, little) == vs
  {
    forall i | 0 <= i < |vs|
      ensures |F64Bytes(vs, little)| == 8 * |vs| && F64At(F64Bytes(vs, little), i, little) == vs[i]
    {
      PieceAt(F64Encoder(little), vs, i);
    }
  }

  lemma F64sCanonical(bs: seq<byte>, n: nat, little: bool)
    requires |bs| == 8 * n
    ensures F64Bytes(F64sOf(bs, n, little), little) == bs
  {
    var enc, vs := F64Encoder(little), F64sOf(bs, n, little);
    forall i | 0 <= i < |vs| ensures bs[8 * i..8 * i + 8] == enc(vs[i]) {
      SwappedTwice(bs[8 * i..8 * i + 8], little);
    }
    PiecesDetermine(enc, vs, bs);
  }

  /** `read_f64_array` fills a caller's buffer in place. */
  method ReadF64Array(slice: seq<byte>, out: array<F64>, little: bool) returns (ok: bool)
    modifies out
    ensures ok <==> |slice| >= 8 * out.Length
    ensures ok ==> out[..] == F64sOf(slice, out.Length, little)
  {
    if |slice| < out.Length * 8 {
      return false;
    }
    for i := 0 to out.Length
      invariant out[..i] == F64sOf(slice, i, little)
    {
      out[i] := F64At(slice, i, little);
    }
    return true;
  }

  // ---------------------------------------------------------------------------
  // Header bytes
  // ---------------------------------------------------------------------------

  /** The two highest flag bits, which the format reserves. */
  type Reserved = n: nat | n < 4

  function Bit(b: bool): (n: nat)
    ensures n <= 1 && (n == 1 <==> b)
  {
    if b then 1 else 0
  }

  lemma BitsOf(order: nat, kind: nat, empty: nat, extended: nat, reserved: nat, f: nat)
    requires order < 2 && kind < 8 && empty < 2 && extended < 2 && reserved < 4
    requires f == order + 2 * kind + 16 * empty + 32 * extended + 64 * reserved
    ensures f < 256 && f % 2 == order && f / 2 % 8 == kind && f / 16 % 2 == empty && f / 32 % 2 == extended &&
            f / 64 == reserved
  {
  }

  lemma BitShifts(f: nat)
    ensures f / 16 == f / 2 / 8 && f / 32 == f / 16 / 2 && f / 64 == f / 32 / 2
  {
  }

  lemma SumOfBits(f: nat)
    ensures f == f % 2 + 2 * (f / 2 % 8) + 16 * (f / 16 % 2) + 32 * (f / 32 % 2) + 64 * (f / 64)
  {
    BitShifts(f);
  }

  /** Bit 0 byte order, bits 1 to 3 envelope type, bit 4 empty, bit 5 extended, two reserved bits. */
  function FlagsIn(little: bool, reserved: Reserved, h: GpkgHeader): (f: byte)
    ensures (f % 2 == 1) == little && f / 2 % 8 == h.envelope.TypeCode() && f / 64 == reserved
    ensures (f / 16 % 2 == 1) == h.empty && (f / 32 % 2 == 1) == (h.binaryType == Extended)
  {
    var order, kind, empty, extended := Bit(little), h.envelope.TypeCode(), Bit(h.empty), Bit(h.binaryType == Extended);
    var f := order + 2 * kind + 16 * empty + 32 * extended + 64 * reserved;
    BitsOf(order, kind, empty, extended, reserved, f);
    f
  }

  /** The fields as the format lays them out, in a given byte order. */
  function EncodedIn(little: bool, reserved: Reserved, h: GpkgHeader, wkb: seq<byte>): seq<byte> {
    MAGIC + [VERSION, FlagsIn(little, reserved, h)] + PutI32(h.srsId, little)
    + F64Bytes(h.envelope.Values(), little) + wkb
  }

  /** What this library writes: always little-endian, reserved bits zero. */
  function Encoded(h: GpkgHeader, wkb: seq<byte>): seq<byte> {
    EncodedIn(true, 0, h, wkb)
  }

  /** `build_flags` */
  function Flags(h: GpkgHeader): (f: byte)
    ensures f == FlagsIn(true, 0, h)
  {
    var f: int := 1;
    var f := f + 2 * h.envelope.TypeCode();
    var f := if h.empty then f + 16 else f;
    if h.binaryType == Extended then f + 32 else f
  }

  /** `encode`, with the loop of `write_envelope_le`. */
  method Encode(h: GpkgHeader, wkb: seq<byte>) returns (buf: seq<byte>)
    ensures buf == Encoded(h, wkb)
  {
    buf := MAGIC;
    buf := buf + [VERSION];
    buf := buf + [Flags(h)];
    buf := buf + PutI32(h.srsId, true);
    ghost var start := buf;
    var vs := h.envelope.Values();
    for i := 0 to |vs|
      invariant buf == start + F64Bytes(vs[..i], true)
    {
      AppendItem(start, F64Encoder(true), vs, i, buf);
      buf := buf + PutF64(vs[i], true);
    }
    assert vs[..|vs|] == vs;
    buf := buf + wkb;
  }

  function EnvelopeOf(envType: nat, vs: seq<F64>): Envelope {
    match envType
    case 1 => Xy(vs)
    case 2 => Xyz(vs)
    case 3 => Xym(vs)
    case 4 => Xyzm(vs)
    case _ => NoEnvelope
  }

  /** Long enough, with the right magic and version. */
  predicate Framed(blob: seq<byte>) {
    |blob| >= 8 && blob[0..2] == MAGIC && blob[2] == VERSION
  }

  predicate WellFormed(blob: seq<byte>) {
    && Framed(blob) && blob[3] / 2 % 8 <= 4 && |blob| >= 8 + 8 * Dimension(blob[3] / 2 % 8)
  }

  /** The header at the front of a blob that passes all checks. */
  function HeaderOf(blob: seq<byte>): (h: GpkgHeader)
    requires WellFormed(blob)
  {
    var f: int := blob[3];
    var little, n := f % 2 == 1, Dimension(f / 2 % 8);
    GpkgHeader(GetI32(blob[4..8], little), EnvelopeOf(f / 2 % 8, F64sOf(blob[8..8 + 8 * n], n, little)),
               f / 16 % 2 == 1, if f / 32 % 2 == 1 then Extended else Standard)
  }

  /** Header and payload stand in the blob, in one of the byte orders and with some reserved bits. */
  ghost predicate IsGpkg(blob: seq<byte>, h: GpkgHeader, wkb: seq<byte>) {
    exists little: bool, reserved: Reserved :: blob == EncodedIn(little, reserved, h, wkb)
  }

  lemma SplitsInto(blob: seq<byte>, end: nat)
    requires 8 <= end <= |blob|
    ensures blob == blob[0..2] + [blob[2], blob[3]] + blob[4..8] + blob[8..end] + blob[end..]
  {
  }

  lemma FlagsDetermined(f: byte, little: bool, reserved: Reserved, h: GpkgHeader)
    requires (f % 2 == 1) == little && f / 64 == reserved && f / 2 % 8 == h.envelope.TypeCode()
    requires (f / 16 % 2 == 1) == h.empty && (f / 32 % 2 == 1) == (h.binaryType == Extended)
    ensures f == FlagsIn(little, reserved, h)
  {
    SumOfBits(f);
    SumOfBits(FlagsIn(little, reserved, h));
  }

  /** A well-formed blob is the encoding of the header read from it, in its own byte order. */
  lemma ReadIsWritten(blob: seq<byte>)
    requires WellFormed(blob)
    ensures var end := 8 + 8 * Dimension(blob[3] / 2 % 8);
            blob == EncodedIn(blob[3] % 2 == 1, blob[3] / 64, HeaderOf(blob), blob[end..])
  {
    var h, little, n := HeaderOf(blob), blob[3] % 2 == 1, Dimension(blob[3] / 2 % 8);
    var end := 8 + 8 * n;
    FlagsDetermined(blob[3], little, blob[3] / 64, h);
    Canonical32(blob[4..8], little);
    F64sCanonical(blob[8..end], n, little);
    SplitsInto(blob, end);
  }

  lemma FieldsOf(little: bool, reserved: Reserved, h: GpkgHeader, wkb: seq<byte>, blob: seq<byte>)
    requires blob == EncodedIn(little, reserved, h, wkb)
    ensures var vs := h.envelope.Values();
            && |blob| >= 8 + 8 * |vs| && blob[0..2] == MAGIC && blob[2] == VERSION
            && blob[3] == FlagsIn(little, reserved, h) && blob[4..8] == PutI32(h.srsId, little)
            && blob[8..8 + 8 * |vs|] == F64Bytes(vs, little) && blob[8 + 8 * |vs|..] == wkb
  {
    F64sRoundTrip(h.envelope.Values(), little);
  }

  lemma EnvelopeIsRead(h: GpkgHeader, little: bool)
    ensures var vs, kind := h.envelope.Values(), h.envelope.TypeCode();
            && |vs| == Dimension(kind) && |F64Bytes(vs, little)| == 8 * |vs|
            && EnvelopeOf(kind, F64sOf(F64Bytes(vs, little), |vs|, little)) == h.envelope
  {
    F64sRoundTrip(h.envelope.Values(), little);
  }

  /** Whatever the byte order and the reserved bits, the fields written are the fields read. */
  lemma WrittenIsRead(little: bool, reserved: Reserved, h: GpkgHeader, wkb: seq<byte>, blob: seq<byte>)
    requires blob == EncodedIn(little, reserved, h, wkb)
    ensures WellFormed(blob) && HeaderOf(blob) == h && blob[8 + 8 * Dimension(blob[3] / 2 % 8)..] == wkb
    ensures (blob[3] % 2 == 1) == little && blob[3] / 64 == reserved
  {
    FieldsOf(little, reserved, h, wkb, blob);
    EnvelopeIsRead(h, little);
  }

  /** A blob has at most one byte order, header and payload. */
  lemma BlobUnique(blob: seq<byte>, h1: GpkgHeader, w1: seq<byte>, h2: GpkgHeader, w2: seq<byte>)
    requires IsGpkg(blob, h1, w1) && IsGpkg(blob, h2, w2)
    ensures h1 == h2 && w1 == w2
  {
    var l1: bool, r1: Reserved :| blob == EncodedIn(l1, r1, h1, w1);
    var l2: bool, r2: Reserved :| blob == EncodedIn(l2, r2, h2, w2);
    WrittenIsRead(l1, r1, h1, w1, blob);
    WrittenIsRead(l2, r2, h2, w2, blob);
  }

  lemma OnlyWellFormed(blob: seq<byte>)
    requires !WellFormed(blob)
    ensures forall h, wkb :: !IsGpkg(blob, h, wkb)
  {
    forall h, wkb ensures !IsGpkg(blob, h, wkb) {
      if IsGpkg(blob, h, wkb) {
        var l: bool, r: Reserved :| blob == EncodedIn(l, r, h, wkb);
        WrittenIsRead(l, r, h, wkb, blob);
      }
    }
  }

  method DecodeChecked(blob: seq<byte>) returns (r: Result<(GpkgHeader, seq<byte>), GpkgError>)
    ensures r.Ok? <==> WellFormed(blob)
    ensures r.Ok? ==> r.value == (HeaderOf(blob), blob[8 + 8 * Dimension(blob[3] / 2 % 8)..])
    ensures r == Err(TooShort) <==> |blob| < 8
    ensures r == Err(BadMagic) <==> |blob| >= 8 && blob[0..2] != MAGIC
    ensures r == Err(BadVersion) <==> |blob| >= 8 && blob[0..2] == MAGIC && blob[2] != VERSION
    ensures r == Err(BadEnvelopeType) <==> Framed(blob) && blob[3] / 2 % 8 > 4
    ensures r == Err(Truncated) <==>
            Framed(blob) && blob[3] / 2 % 8 <= 4 && |blob| < 8 + 8 * Dimension(blob[3] / 2 % 8)
  {
    if |blob| < 8 {
      return Err(TooShort);
    }
    if blob[0..2] != MAGIC {
      return Err(BadMagic);
    }
    if blob[2] != VERSION {
      return Err(BadVersion);
    }
    var flags: int := blob[3];
    var little := flags % 2 == 1;
    var envType := flags / 2 % 8;
    if envType > 4 {
      return Err(BadEnvelopeType);
    }
    var headerEnd := 8 + 8 * Dimension(envType);
    if |blob| < headerEnd {
      return Err(Truncated);
    }
    var values := new F64[Dimension(envType)];
    var ok := ReadF64Array(blob[8..headerEnd], values, little);
    return Ok((GpkgHeader(GetI32(blob[4..8], little), EnvelopeOf(envType, values[..]), flags / 16 % 2 == 1,
                          if flags / 32 % 2 == 1 then Extended else Standard),
               blob[headerEnd..]));
  }

  /** `decode`, its checks in their order: accepts exactly the blobs and returns what was written. */
  method Decode(blob: seq<byte>) returns (r: Result<(GpkgHeader, seq<byte>), GpkgError>)
    ensures r.Ok? ==> IsGpkg(blob, r.value.0, r.value.1)
    ensures r.Err? ==> forall h, wkb :: !IsGpkg(blob, h, wkb)
    ensures r == Err(TooShort) <==> |blob| < 8
    ensures r == Err(BadMagic) <==> |blob| >= 8 && blob[0..2] != MAGIC
    ensures r == Err(BadVersion) <==> |blob| >= 8 && blob[0..2] == MAGIC && blob[2] != VERSION
    ensures r == Err(BadEnvelopeType) <==> Framed(blob) && blob[3] / 2 % 8 > 4
    ensures r == Err(Truncated) <==>
            Framed(blob) && blob[3] / 2 % 8 <= 4 && |blob| < 8 + 8 * Dimension(blob[3] / 2 % 8)
  {
    r := DecodeChecked(blob);
    if WellFormed(blob) {
      ReadIsWritten(blob);
    } else {
      OnlyWellFormed(blob);
    }
  }

  /** Every header and payload comes back. */
  method EncodeThenDecode(h: GpkgHeader, wkb: seq<byte>) returns (r: Result<(GpkgHeader, seq<byte>), GpkgError>)
    ensures r == Ok((h, wkb))
  {
    var blob := Encode(h, wkb);
    assert IsGpkg(blob, h, wkb);
    r := Decode(blob);
    BlobUnique(blob, h, wkb, r.value.0, r.value.1);
  }

  /** An accepted blob re-encodes to itself exactly when it is little-endian with zero reserved bits. */
  lemma DecodeEncode(blob: seq<byte>, h: GpkgHeader, wkb: seq<byte>)
    requires IsGpkg(blob, h, wkb)
    ensures Encoded(h, wkb) == blob <==> blob[3] % 2 == 1 && blob[3] / 64 == 0
  {
    var little: bool, reserved: Reserved :| blob == EncodedIn(little, reserved, h, wkb);
    WrittenIsRead(little, reserved, h, wkb, blob);
    if Encoded(h, wkb) == blob {
      WrittenIsRead(true, 0, h, wkb, blob);
    }
  }
}
