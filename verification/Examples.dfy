/**
  Small inputs with the bytes and texts they become, written out. The other modules say what the
  formats keep and how they are read back; these say what they look like.
 */
module Examples {
  import opened ByteOrder
  import opened CopyFormat
  import DecimalText
  import opened Doubles
  import opened Ewkb
  import opened Framing
  import opened Geometry
  import GpkgBlob
  import opened MachineInts
  import opened NumericWire
  import opened PgNumericCodec
  import opened PowersOfTen
  import opened SpatialiteBlob
  import opened SpatialiteFormat
  import opened WkbFormat
  import opened Wrappers

  // ---------------------------------------------------------------------------
  // Words and lists
  // ---------------------------------------------------------------------------

  lemma SmallWord(n: nat)
    requires n < 0x100
    ensures PutU32(n, true) == [n, 0, 0, 0] && PutU32(n, false) == [0, 0, 0, n]
    ensures PutU16(n, true) == [n, 0] && PutU16(n, false) == [0, n]
  {
  }

  lemma OneItem<T>(enc: Encoder<T>, x: T)
    ensures EncodeAll(enc, [x]) == enc(x)
  {
    assert [x][1..] == [];
  }

  lemma TwoItems<T>(enc: Encoder<T>, x: T, y: T)
    ensures EncodeAll(enc, [x, y]) == enc(x) + enc(y)
  {
    assert [x, y][1..] == [y];
    OneItem(enc, y);
  }

  lemma Wgs84()
    ensures PutI32(4326, true) == [0xE6, 0x10, 0, 0] && PutI32(4326, false) == [0, 0, 0x10, 0xE6]
  {
  }

  // ---------------------------------------------------------------------------
  // PostgreSQL
  // ---------------------------------------------------------------------------

  /** -12345.678: the digits 1, 2345, 6780 with weight 1. */
  lemma NumericDigits(n: PgNumeric)
    requires Encodes(n, -12_345_678, 3)
    ensures n == PgNumeric([1, 2345, 6780], 1, 0x4000, 3)
  {
    var m := PgNumeric([1, 2345, 6780], 1, 0x4000, 3);
    assert m.digits[..2] == [1, 2345] && [1, 2345][..1] == [1] && [1][..0] == [];
    assert PgNumericCodec.Magnitude(m.digits) == 123_456_780;
    assert LastExponent(m, 3) == -1;
    assert Pow10(1) == 10;
    NormalFormUnique(n, 12_345_678, 3, m, 12_345_678, 3);
  }

  lemma NumericWords()
    ensures PayloadHeader(3, 1, 0x4000, 3) == [0, 3, 0, 1, 0x40, 0, 0, 3]
    ensures PutI16(1, false) == [0, 1] && PutI16(2345, false) == [0x09, 0x29] && PutI16(6780, false) == [0x1A, 0x7C]
  {
    assert PutU16(3, false) == [0, 3] && PutI16(1, false) == [0, 1] && PutU16(0x4000, false) == [0x40, 0];
  }

  lemma ThreeDigits(a: I16, b: I16, c: I16)
    ensures DigitBytes([a, b, c]) == PutI16(a, false) + PutI16(b, false) + PutI16(c, false)
  {
    assert [a, b, c][..2] == [a, b] && [a, b][..1] == [a] && [a][..0] == [];
    assert DigitBytes([a]) == PutI16(a, false);
  }

  lemma NumericPayload(n: PgNumeric)
    requires n == PgNumeric([1, 2345, 6780], 1, 0x4000, 3)
    ensures Payload(n) == [0, 3, 0, 1, 0x40, 0, 0, 3, 0, 1, 0x09, 0x29, 0x1A, 0x7C]
  {
    NumericWords();
    ThreeDigits(1, 2345, 6780);
  }

  lemma CopyFields()
    ensures FieldBytes(Some([0x61])) == [0, 0, 0, 1, 0x61] && FieldBytes(None) == [0xFF, 0xFF, 0xFF, 0xFF]
  {
    SmallWord(1);
  }

  lemma CopyTuple()
    ensures TupleBytes([Some([0x61]), None]) == [0, 2, 0, 0, 0, 1, 0x61, 0xFF, 0xFF, 0xFF, 0xFF]
  {
    SmallWord(2);
    CopyFields();
    TwoItems(FieldEncoder(), Some([0x61]), None);
  }

  /** One row with the text `a` and a NULL. */
  lemma CopyFile()
    ensures FileBytes([[Some([0x61]), None]]) ==
            [0x50, 0x47, 0x43, 0x4F, 0x50, 0x59, 0x0A, 0xFF, 0x0D, 0x0A, 0, 0, 0, 0, 0, 0, 0, 0, 0]
            + [0, 2, 0, 0, 0, 1, 0x61, 0xFF, 0xFF, 0xFF, 0xFF] + [0xFF, 0xFF]
  {
    CopyTuple();
    OneItem(TupleEncoder(), [Some([0x61]), None]);
  }

  lemma TaggedType()
    ensures PutU32(0x2000_0001, true) == [1, 0, 0, 0x20] && PutU32(0x2000_0001, false) == [0x20, 0, 0, 1]
  {
  }

  /** A WKB point becomes EWKB with SRID 4326. */
  lemma TaggedPoint(xy: seq<byte>)
    ensures EncodeWithSrid([1, 1, 0, 0, 0] + xy, 4326) == Ok([1, 1, 0, 0, 0x20, 0xE6, 0x10, 0, 0] + xy)
  {
    SmallWord(1);
    Wgs84();
    TaggedType();
    assert [1] + PutU32(1, true) + xy == [1, 1, 0, 0, 0] + xy;
    TypeWordOf(1, 1, xy);
    FlagMoves(1);
    assert TypeWord([1, 1, 0, 0, 0] + xy) == 1 && Set(1, SRID_FLAG) == 0x2000_0001;
    assert ([1, 1, 0, 0, 0] + xy)[5..] == xy;
    assert [1] + [1, 0, 0, 0x20] + [0xE6, 0x10, 0, 0] + xy == [1, 1, 0, 0, 0x20, 0xE6, 0x10, 0, 0] + xy;
  }

  lemma TaggedBigEndianPoint(xy: seq<byte>)
    ensures EncodeWithSrid([0, 0, 0, 0, 1] + xy, 4326) == Ok([0, 0x20, 0, 0, 1, 0, 0, 0x10, 0xE6] + xy)
  {
    SmallWord(1);
    Wgs84();
    TaggedType();
    assert [0] + PutU32(1, false) + xy == [0, 0, 0, 0, 1] + xy;
    TypeWordOf(0, 1, xy);
    FlagMoves(1);
    assert TypeWord([0, 0, 0, 0, 1] + xy) == 1 && Set(1, SRID_FLAG) == 0x2000_0001;
    assert ([0, 0, 0, 0, 1] + xy)[5..] == xy;
    assert [0] + [0x20, 0, 0, 1] + [0, 0, 0x10, 0xE6] + xy == [0, 0x20, 0, 0, 1, 0, 0, 0x10, 0xE6] + xy;
  }

  // ---------------------------------------------------------------------------
  // WKB
  // ---------------------------------------------------------------------------

  lemma PointMember(p: Pt)
    ensures PointEncoder()(Child(true, p)) == [1, 1, 0, 0, 0] + (p.x + p.y)
    ensures PointEncoder()(Child(false, p)) == [0, 0, 0, 0, 1] + (Swapped(p.x) + Swapped(p.y))
  {
    SmallWord(1);
  }

  lemma MultiPointStart()
    ensures Tag(4, true) == [1, 4, 0, 0, 0] && CountEncoder(true)(2) == [2, 0, 0, 0]
  {
    SmallWord(4);
    SmallWord(2);
  }

  /** A little-endian multipoint with a big-endian second member. */
  lemma MixedMultiPoint(p: Pt, q: Pt)
    ensures EncodeWkb(Wkb(true, Points([Child(true, p), Child(false, q)]))) ==
            [1, 4, 0, 0, 0] + ([2, 0, 0, 0]
            + ([1, 1, 0, 0, 0] + (p.x + p.y) + ([0, 0, 0, 0, 1] + (Swapped(q.x) + Swapped(q.y)))))
  {
    MultiPointStart();
    PointMember(p);
    PointMember(q);
    TwoItems(PointEncoder(), Child(true, p), Child(false, q));
  }

  lemma OneRing(little: bool, p: Pt, one: seq<byte>)
    requires one == CountEncoder(little)(1)
    ensures EncodersFor(little).rings([[p]]) == one + one + EncodePt(p, little)
  {
    var e := EncodersFor(little);
    OneItem(PtEncoder(little), p);
    OneItem(e.ring, [p]);
    assert e.ring([p]) == one + EncodePt(p, little);
    assert e.rings([[p]]) == one + e.ring([p]);
  }

  /** A polygon with one ring of one point, in either byte order. */
  lemma SmallPolygon(p: Pt)
    ensures EncodeWkb(Wkb(true, OnePolygon([[p]]))) == [1, 3, 0, 0, 0, 1, 0, 0, 0, 1, 0, 0, 0] + (p.x + p.y)
  {
    SmallWord(3);
    SmallWord(1);
    OneRing(true, p, [1, 0, 0, 0]);
    assert Tag(3, true) == [1, 3, 0, 0, 0];
  }

  lemma SmallBigEndianPolygon(p: Pt)
    ensures EncodeWkb(Wkb(false, OnePolygon([[p]]))) ==
            [0, 0, 0, 0, 3, 0, 0, 0, 1, 0, 0, 0, 1] + (Swapped(p.x) + Swapped(p.y))
  {
    SmallWord(3);
    SmallWord(1);
    OneRing(false, p, [0, 0, 0, 1]);
    assert Tag(3, false) == [0, 0, 0, 0, 3];
  }

  // ---------------------------------------------------------------------------
  // SpatiaLite and GeoPackage
  // ---------------------------------------------------------------------------

  /** The blob of a multipoint with one member. */
  lemma SpatialiteMultiPoint(m: Mbr, p: Pt)
    ensures Blob(true, 4326, BoxBytes(m), MultiPoint([p])) ==
            [0x00, 0x01, 0xE6, 0x10, 0, 0] + (m.minX + m.minY + m.maxX + m.maxY) + [0x7C]
            + ([4, 0, 0, 0, 1, 0, 0, 0, 0x69, 1, 0, 0, 0] + (p.x + p.y)) + [0xFE]
  {
    SmallWord(4);
    SmallWord(1);
    Wgs84();
    OneItem(TaggedEncoder(MemberTag(TY_POINT, true), PtEncoder(true)), p);
    assert EncodeGeom(MultiPoint([p]), true) == [4, 0, 0, 0, 1, 0, 0, 0, 0x69, 1, 0, 0, 0] + (p.x + p.y);
  }

  /** A GeoPackage blob without an envelope, and with one of two ranges. */
  lemma GpkgHeaders(a: F64, b: F64, c: F64, d: F64, wkb: seq<byte>)
    ensures GpkgBlob.Encoded(GpkgBlob.GpkgHeader(4326, GpkgBlob.NoEnvelope, true, GpkgBlob.Standard), wkb) ==
            [0x47, 0x50, 0, 0x11, 0xE6, 0x10, 0, 0] + wkb
    ensures GpkgBlob.Encoded(GpkgBlob.GpkgHeader(4326, GpkgBlob.Xy([a, b, c, d]), false, GpkgBlob.Standard), wkb) ==
            [0x47, 0x50, 0, 0x03, 0xE6, 0x10, 0, 0] + (a + b + c + d) + wkb
  {
    Wgs84();
    var enc := GpkgBlob.F64Encoder(true);
    TwoItems(enc, c, d);
    assert [a, b, c, d][1..] == [b, c, d] && [b, c, d][1..] == [c, d];
    assert EncodeAll(enc, [a, b, c, d]) == a + (b + (c + d));
  }

  /** The flag bytes of the other envelopes and of an extended blob. */
  lemma GpkgFlags(six: seq<F64>, eight: seq<F64>)
    requires |six| == 6 && |eight| == 8
    ensures GpkgBlob.Flags(GpkgBlob.GpkgHeader(0, GpkgBlob.Xyz(six), false, GpkgBlob.Standard)) == 0x05
    ensures GpkgBlob.Flags(GpkgBlob.GpkgHeader(0, GpkgBlob.Xym(six), false, GpkgBlob.Standard)) == 0x07
    ensures GpkgBlob.Flags(GpkgBlob.GpkgHeader(0, GpkgBlob.Xyzm(eight), false, GpkgBlob.Extended)) == 0x29
  {
  }

  // ---------------------------------------------------------------------------
  // Decimals
  // ---------------------------------------------------------------------------

  lemma DecimalTexts()
    ensures DecimalText.Text(12_345, 2) == "123.45" && DecimalText.Text(-5, 2) == "-0.05"
    ensures DecimalText.Text(7, 0) == "7" && DecimalText.Text(7, -3) == "7"
  {
  }
}
