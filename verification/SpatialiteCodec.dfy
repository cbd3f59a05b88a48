/** `encode` and `decode` of SpatiaLite blobs (crates/shpx-geom/src/spatialite_blob.rs). */
module SpatialiteCodec {
  import opened Wrappers
  import opened MachineInts
  import opened ByteOrder
  import opened Framing
  import opened Geometry
  import opened SpatialiteFormat
  import opened SpatialiteBlob
  import opened SpatialiteReader
  import opened WkbFormat
  import opened WkbCodec

  // ---------------------------------------------------------------------------
  // Size
  // ---------------------------------------------------------------------------

  function RingsSize(perRing: nat, rings: seq<seq<Pt>>): nat {
    if rings == [] then 0 else perRing + |rings[0]| * 16 + RingsSize(perRing, rings[1..])
  }

  function PolysSize(polys: seq<seq<seq<Pt>>>): nat {
    if polys == [] then 0 else 1 + 4 + 4 + RingsSize(4, polys[0]) + PolysSize(polys[1..])
  }

  /** `estimate_size`. */
  function EstimateSize(g: Geom): nat {
    var payload := match g
      case Point(_) => 16
      case LineString(pts) => 4 + |pts| * 16
      case Polygon(rings) => 4 + RingsSize(4, rings)
      case MultiPoint(pts) => 4 + |pts| * (1 + 4 + 16)
      case MultiLineString(lines) => 4 + RingsSize(1 + 4 + 4, lines)
      case MultiPolygon(polys) => 4 + PolysSize(polys);
    39 + 4 + payload + 1
  }

  lemma {:induction false} UniformLength<T>(enc: Encoder<T>, k: nat, xs: seq<T>)
    requires forall x :: |enc(x)| == k
    ensures |EncodeAll(enc, xs)| == |xs| * k
  {
    if xs != [] {
      UniformLength(enc, k, xs[1..]);
      assert |xs| * k == |xs[1..]| * k + k;
    }
  }

  lemma RingLength(pts: seq<Pt>)
    ensures |EncodersFor(true).ring(pts)| == 4 + |pts| * 16
  {
    UniformLength(PtEncoder(true), 16, pts);
  }

  lemma {:induction false} RingsLength(enc: Encoder<seq<Pt>>, perRing: nat, rings: seq<seq<Pt>>)
    requires forall r :: |enc(r)| == perRing + |r| * 16
    ensures |EncodeAll(enc, rings)| == RingsSize(perRing, rings)
  {
    if rings != [] {
      RingsLength(enc, perRing, rings[1..]);
    }
  }

  lemma {:induction false} PolysLength(enc: Encoder<seq<seq<Pt>>>, polys: seq<seq<seq<Pt>>>)
    requires forall p :: |enc(p)| == 9 + RingsSize(4, p)
    ensures |EncodeAll(enc, polys)| == PolysSize(polys)
  {
    if polys != [] {
      PolysLength(enc, polys[1..]);
    }
  }

  lemma RingsListLength(rings: seq<seq<Pt>>)
    ensures |EncodersFor(true).rings(rings)| == 4 + RingsSize(4, rings)
  {
    var enc := EncodersFor(true).ring;
    forall r ensures |enc(r)| == 4 + |r| * 16 { RingLength(r); }
    RingsLength(enc, 4, rings);
  }

  /** The size estimate is exact. */
  lemma SizeIsExact(srid: I32, box: seq<byte>, g: Geom)
    requires |box| == 32
    ensures |Blob(true, srid, box, g)| == EstimateSize(g)
  {
    match g
    case Point(_) =>
    case LineString(pts) => RingLength(pts);
    case Polygon(rings) => RingsListLength(rings);
    case MultiPoint(pts) =>
      UniformLength(TaggedEncoder(MemberTag(TY_POINT, true), PtEncoder(true)), 21, pts);
    case MultiLineString(lines) =>
      var enc := TaggedEncoder(MemberTag(TY_LINESTRING, true), EncodersFor(true).ring);
      forall r ensures |enc(r)| == 9 + |r| * 16 { RingLength(r); }
      RingsLength(enc, 9, lines);
    case MultiPolygon(polys) =>
      var enc := TaggedEncoder(MemberTag(TY_POLYGON, true), EncodersFor(true).rings);
      forall p ensures |enc(p)| == 9 + RingsSize(4, p) { RingsListLength(p); }
      PolysLength(enc, polys);
  }

  // ---------------------------------------------------------------------------
  // Which byte strings are blobs
  // ---------------------------------------------------------------------------

  /** Some ordinate on each axis is finite, and the others are finite or NaN. */
  ghost predicate HasBox(g: Geom) {
    Bounded(Xs(Coords(g))) && Bounded(Ys(Coords(g)))
  }

  ghost predicate IsBlob(blob: seq<byte>, little: bool, srid: I32, box: seq<byte>, g: Geom) {
    |box| == 32 && Encodable(g) && blob == Blob(little, srid, box, g)
  }

  lemma HeaderAt(blob: seq<byte>, little: bool, srid: I32, box: seq<byte>)
    requires |box| == 32 && |blob| >= 39
    ensures At(blob, 0, Header(little, srid, box)) <==>
            && blob[0] == GAIA_BLOB_START && blob[1] == (if little then ENDIAN_LE else ENDIAN_BE)
            && GetI32(blob[2..6], little) == srid && blob[6..38] == box && blob[38] == GAIA_MBR_END
  {
    var h := blob[..39];
    assert h == [h[0], h[1]] + h[2..6] + h[6..38] + [h[38]];
    var h' := Header(little, srid, box);
    assert h'[0] == GAIA_BLOB_START && h'[1] == (if little then ENDIAN_LE else ENDIAN_BE) && h'[38] == GAIA_MBR_END;
    assert h'[2..6] == PutI32(srid, little) && h'[6..38] == box;
    Canonical32(blob[2..6], little);
    assert blob[2..6] == h[2..6] && blob[6..38] == h[6..38];
  }

  lemma ThreeParts(bs: seq<byte>, a: seq<byte>, b: seq<byte>, c: seq<byte>)
    ensures bs == a + b + c <==> At(bs, 0, a) && At(bs, |a|, b) && At(bs, |a| + |b|, c) && |bs| == |a| + |b| + |c|
  {
  }

  lemma BlobAt(blob: seq<byte>, little: bool, srid: I32, box: seq<byte>, g: Geom)
    requires |box| == 32
    ensures var end := 39 + |EncodeGeom(g, little)|;
            blob == Blob(little, srid, box, g) <==>
            At(blob, 0, Header(little, srid, box)) && At(blob, 39, EncodeGeom(g, little)) &&
            At(blob, end, [GAIA_BLOB_END]) && |blob| == end + 1
  {
    ThreeParts(blob, Header(little, srid, box), EncodeGeom(g, little), [GAIA_BLOB_END]);
  }

  /** No two readings of one byte string: byte order, SRID, box and geometry are determined. */
  lemma BlobUnique(blob: seq<byte>, l1: bool, s1: I32, b1: seq<byte>, g1: Geom, l2: bool, s2: I32, b2: seq<byte>,
                   g2: Geom)
    requires IsBlob(blob, l1, s1, b1, g1) && IsBlob(blob, l2, s2, b2, g2)
    ensures l1 == l2 && s1 == s2 && b1 == b2 && g1 == g2
  {
    BlobAt(blob, l1, s1, b1, g1);
    BlobAt(blob, l2, s2, b2, g2);
    HeaderAt(blob, l1, s1, b1);
    HeaderAt(blob, l2, s2, b2);
    GeomInverse(blob, 39, g1, 39 + |EncodeGeom(g1, l1)|, l1);
    GeomInverse(blob, 39, g2, 39 + |EncodeGeom(g2, l2)|, l2);
  }

  /** Where a blob stands, its geometry decodes, one byte before the end. */
  lemma BlobDecodes(blob: seq<byte>, little: bool, srid: I32, box: seq<byte>, g: Geom)
    requires IsBlob(blob, little, srid, box, g)
    ensures |blob| >= 39 + 4 + 1 && At(blob, 0, Header(little, srid, box))
    ensures DecodeGeom(blob, 39, little) == Some((g, |blob| - 1)) && blob[|blob| - 1] == GAIA_BLOB_END
  {
    BlobAt(blob, little, srid, box, g);
    GeomInverse(blob, 39, g, 39 + |EncodeGeom(g, little)|, little);
  }

  // ---------------------------------------------------------------------------
  // decode and encode
  // ---------------------------------------------------------------------------

  /** What `decode` checks, step by step. */
  ghost predicate Readable(blob: seq<byte>) {
    && |blob| >= 39 + 4 + 1
    && blob[0] == GAIA_BLOB_START && (blob[1] == ENDIAN_LE || blob[1] == ENDIAN_BE) && blob[38] == GAIA_MBR_END
    && var geom := DecodeGeom(blob, 39, blob[1] == ENDIAN_LE);
       geom.Some? && geom.value.1 == |blob| - 1 && blob[|blob| - 1] == GAIA_BLOB_END
  }

  lemma BlobsAreReadable(blob: seq<byte>)
    requires !Readable(blob)
    ensures forall little, srid, box, g :: !IsBlob(blob, little, srid, box, g)
  {
    forall little, srid, box, g
      ensures !IsBlob(blob, little, srid, box, g)
    {
      if IsBlob(blob, little, srid, box, g) {
        BlobDecodes(blob, little, srid, box, g);
        HeaderAt(blob, little, srid, box);
      }
    }
  }

  lemma ReadGeom(blob: seq<byte>, little: bool, g: Geom, end: nat)
    requires DecodeGeom(blob, 39, little) == Some((g, end))
    ensures At(blob, 39, EncodeGeom(g, little)) && end == 39 + |EncodeGeom(g, little)| && Encodable(g)
  {
    GeomInverse(blob, 39, g, end, little);
  }

  lemma LastByte(blob: seq<byte>, end: nat)
    requires end < |blob|
    ensures At(blob, end, [blob[end]])
  {
  }

  lemma PartsMakeBlob(blob: seq<byte>, little: bool, srid: I32, box: seq<byte>, g: Geom, end: nat)
    requires |box| == 32 && Encodable(g) && end == 39 + |EncodeGeom(g, little)| && |blob| == end + 1
    requires At(blob, 0, Header(little, srid, box)) && At(blob, 39, EncodeGeom(g, little)) && blob[end] == GAIA_BLOB_END
    ensures IsBlob(blob, little, srid, box, g)
  {
    LastByte(blob, end);
    BlobAt(blob, little, srid, box, g);
  }

  lemma ReadablesAreBlobs(blob: seq<byte>)
    requires Readable(blob)
    ensures var little := blob[1] == ENDIAN_LE;
            IsBlob(blob, little, GetI32(blob[2..6], little), blob[6..38], DecodeGeom(blob, 39, little).value.0)
  {
    var little, end := blob[1] == ENDIAN_LE, |blob| - 1;
    var srid, box, g := GetI32(blob[2..6], little), blob[6..38], DecodeGeom(blob, 39, little).value.0;
    ReadGeom(blob, little, g, end);
    HeaderAt(blob, little, srid, box);
    PartsMakeBlob(blob, little, srid, box, g, end);
  }

  method DecodeChecked(blob: seq<byte>) returns (r: Result<(I32, Geom), GeometryError>)
    ensures r.Ok? <==> Readable(blob)
    ensures r.Ok? ==> var little := blob[1] == ENDIAN_LE;
                      r.value == (GetI32(blob[2..6], little), DecodeGeom(blob, 39, little).value.0)
  {
    if |blob| < 39 + 4 + 1 {
      return Err(GeometryError);
    }
    if blob[0] != GAIA_BLOB_START {
      return Err(GeometryError);
    }
    if blob[1] != ENDIAN_LE && blob[1] != ENDIAN_BE {
      return Err(GeometryError);
    }
    var little := blob[1] == ENDIAN_LE;
    var srid := GetI32(blob[2..6], little);
    if blob[38] != GAIA_MBR_END {
      return Err(GeometryError);
    }
    var c := new Cursor(blob, 39);
    var geom :- c.ReadInner(little);
    var end :- c.Take(1);
    if end[0] != GAIA_BLOB_END {
      return Err(GeometryError);
    }
    if c.pos != |blob| {
      return Err(GeometryError);
    }
    return Ok((srid, geom));
  }

  /** `decode` up to the geometry: accepts exactly the blobs, and returns what they were made of. */
  method DecodeBlob(blob: seq<byte>) returns (r: Result<(I32, Geom), GeometryError>)
    ensures r.Ok? ==> |blob| >= 38 && IsBlob(blob, blob[1] == ENDIAN_LE, r.value.0, blob[6..38], r.value.1)
    ensures r.Err? ==> forall little, srid, box, g :: !IsBlob(blob, little, srid, box, g)
  {
    r := DecodeChecked(blob);
    if r.Ok? {
      ReadablesAreBlobs(blob);
    } else {
      BlobsAreReadable(blob);
    }
  }

  /**
    `encode` from the geometry on: succeeds exactly when both axes are bounded and every count fits,
    and writes the tight box.
   */
  method EncodeBlob(srid: I32, g: Geom) returns (r: Result<seq<byte>, GeometryError>)
    ensures r.Ok? <==> HasBox(g) && Encodable(g)
    ensures r.Ok? ==> exists box :: Tight(Coords(g), box) && r.value == Blob(true, srid, BoxBytes(box), g)
    ensures r.Ok? ==> |r.value| == EstimateSize(g)
  {
    var mbr := ComputeMbr(g);
    if mbr.None? {
      return Err(GeometryError);
    }
    var box := mbr.value;
    var buf := [GAIA_BLOB_START, ENDIAN_LE] + PutI32(srid, true);
    buf := buf + (box.minX + box.minY + box.maxX + box.maxY);
    buf := buf + [GAIA_MBR_END];
    assert buf == Header(true, srid, BoxBytes(box));
    var out :- WriteInner(buf, g);
    SizeIsExact(srid, BoxBytes(box), g);
    return Ok(out + [GAIA_BLOB_END]);
  }

  // ---------------------------------------------------------------------------
  // From WKB and back to it
  // ---------------------------------------------------------------------------

  /** The WKB that `wkb::encode` writes. */
  function StandardWkb(g: Geom): seq<byte> {
    EncodeWkb(Plain(g))
  }

  lemma StandardIsWkb(g: Geom)
    requires Encodable(g)
    ensures IsWkb(StandardWkb(g), g)
  {
    ErasePlain(g);
    FitsIffEncodable(Plain(g));
  }

  lemma WkbUnique(wkb: seq<byte>, g: Geom, g': Geom)
    requires IsWkb(wkb, g) && IsWkb(wkb, g')
    ensures g == g'
  {
    ReadIffWkb(wkb, g);
    ReadIffWkb(wkb, g');
  }

  lemma WkbIsEncodable(wkb: seq<byte>, g: Geom)
    requires IsWkb(wkb, g)
    ensures Encodable(g)
  {
    var w: Wkb :| Erase(w) == g && ShapeOk(w.shape) && wkb == EncodeWkb(w);
    FitsIffEncodable(w);
  }

  /** The bytes are WKB of a geometry that has a box. */
  ghost predicate Boxed(wkb: seq<byte>) {
    exists g :: IsWkb(wkb, g) && HasBox(g)
  }

  /** The bytes are the WKB this library writes. */
  ghost predicate Standard(wkb: seq<byte>) {
    exists g :: IsWkb(wkb, g) && wkb == StandardWkb(g)
  }

  /** The blob `encode` makes: SRID, tight box and geometry of the WKB. */
  ghost predicate Wraps(blob: seq<byte>, srid: I32, wkb: seq<byte>) {
    exists g, box: Mbr ::
      IsWkb(wkb, g) && Tight(Coords(g), box) && blob == Blob(true, srid, BoxBytes(box), g) && |blob| == EstimateSize(g)
  }

  /** `encode`: succeeds exactly for WKB, in any byte orders, of a geometry with a box. */
  method Encode(srid: I32, wkb: seq<byte>) returns (r: Result<seq<byte>, GeometryError>)
    ensures r.Ok? <==> Boxed(wkb)
    ensures r.Ok? ==> Wraps(r.value, srid, wkb)
  {
    var d := WkbCodec.Decode(wkb);
    if d.Err? {
      return Err(GeometryError);
    }
    var g := d.value;
    WkbIsEncodable(wkb, g);
    forall g' | IsWkb(wkb, g') ensures g' == g {
      WkbUnique(wkb, g, g');
    }
    r := EncodeBlob(srid, g);
  }

  /** The standard WKB of the blob's geometry. */
  ghost predicate Unwraps(blob: seq<byte>, srid: I32, wkb: seq<byte>) {
    exists little, box, g :: IsBlob(blob, little, srid, box, g) && wkb == StandardWkb(g)
  }

  /**
    `decode`: accepts exactly the blobs, in either byte order, and returns the SRID and the standard
    WKB of the geometry. The box is not looked at.
   */
  method Decode(blob: seq<byte>) returns (r: Result<(I32, seq<byte>), GeometryError>)
    ensures r.Ok? ==> Unwraps(blob, r.value.0, r.value.1)
    ensures r.Err? ==> forall little, srid, box, g :: !IsBlob(blob, little, srid, box, g)
  {
    var d :- DecodeBlob(blob);
    // The counts of a decoded geometry fit, so this cannot fail.
    var wkb := WkbCodec.Encode(d.1);
    return Ok((d.0, wkb.value));
  }

  lemma OneUnwrapping(blob: seq<byte>, little: bool, srid: I32, box: seq<byte>, g: Geom, srid': I32, wkb: seq<byte>)
    requires IsBlob(blob, little, srid, box, g) && Unwraps(blob, srid', wkb)
    ensures srid' == srid && wkb == StandardWkb(g)
  {
    var little', box', g' :| IsBlob(blob, little', srid', box', g') && wkb == StandardWkb(g');
    BlobUnique(blob, little, srid, box, g, little', srid', box', g');
  }

  /**
    What was encoded comes back with its SRID as the standard WKB of the same geometry, which is the
    argument itself exactly when that was standard.
   */
  method EncodeThenDecode(srid: I32, wkb: seq<byte>)
    returns (encoded: bool, back: Result<(I32, seq<byte>), GeometryError>)
    ensures encoded <==> Boxed(wkb)
    ensures encoded ==> back.Ok? && back.value.0 == srid
    ensures encoded ==> exists g :: IsWkb(wkb, g) && IsWkb(back.value.1, g) && back.value.1 == StandardWkb(g)
    ensures encoded ==> (back.value.1 == wkb <==> Standard(wkb))
  {
    var blob := Encode(srid, wkb);
    if blob.Err? {
      return false, Err(GeometryError);
    }
    back := Decode(blob.value);
    ghost var g, box: Mbr :| IsWkb(wkb, g) && Tight(Coords(g), box) && blob.value == Blob(true, srid, BoxBytes(box), g);
    WkbIsEncodable(wkb, g);
    assert IsBlob(blob.value, true, srid, BoxBytes(box), g);
    OneUnwrapping(blob.value, true, srid, BoxBytes(box), g, back.value.0, back.value.1);
    StandardIsWkb(g);
    forall g' | IsWkb(wkb, g') ensures g' == g {
      WkbUnique(wkb, g, g');
    }
    return true, back;
  }

  /** A little-endian blob of a geometry that has a box. */
  ghost predicate Renewable(blob: seq<byte>) {
    exists srid, box, g :: IsBlob(blob, true, srid, box, g) && HasBox(g)
  }

  lemma OneGeometry(blob: seq<byte>, little: bool, srid: I32, box: seq<byte>, g: Geom)
    requires IsBlob(blob, little, srid, box, g)
    ensures Renewable(blob) <==> little && HasBox(g)
  {
    if Renewable(blob) {
      var s2, b2, g2 :| IsBlob(blob, true, s2, b2, g2) && HasBox(g2);
      BlobUnique(blob, little, srid, box, g, true, s2, b2, g2);
    }
  }

  lemma SameOutside(head: seq<byte>, b1: seq<byte>, b2: seq<byte>, mark: seq<byte>, body: seq<byte>, end: seq<byte>)
    requires |head| == 6 && |b1| == |b2| == 32 && |mark| == |end| == 1 && |body| >= 4
    ensures var x, y := head + b1 + mark + body + end, head + b2 + mark + body + end;
            |x| == |y| >= 44 && x[..6] == y[..6] && x[38..] == y[38..]
  {
  }

  lemma OutsideTheBox(srid: I32, b1: seq<byte>, b2: seq<byte>, g: Geom)
    requires |b1| == 32 && |b2| == 32
    ensures var x, y := Blob(true, srid, b1, g), Blob(true, srid, b2, g);
            |x| == |y| >= 44 && x[..6] == y[..6] && x[38..] == y[38..]
  {
    SameOutside([GAIA_BLOB_START, ENDIAN_LE] + PutI32(srid, true), b1, b2, [GAIA_MBR_END], EncodeGeom(g, true),
                [GAIA_BLOB_END]);
  }

  /** A decoded little-endian blob re-encodes to itself outside the box, bytes 6 to 37. */
  method DecodeThenEncode(blob: seq<byte>) returns (again: Option<seq<byte>>)
    ensures again.Some? <==> Renewable(blob)
    ensures again.Some? ==>
            |again.value| == |blob| >= 44 && again.value[..6] == blob[..6] && again.value[38..] == blob[38..]
  {
    var d := Decode(blob);
    if d.Err? {
      return None;
    }
    ghost var little, was, g :| IsBlob(blob, little, d.value.0, was, g) && d.value.1 == StandardWkb(g);
    OneGeometry(blob, little, d.value.0, was, g);
    HeaderAt(blob, little, d.value.0, was);
    BlobDecodes(blob, little, d.value.0, was, g);
    if blob[1] != ENDIAN_LE {
      return None;
    }
    StandardIsWkb(g);
    forall g' | IsWkb(d.value.1, g') ensures g' == g {
      WkbUnique(d.value.1, g, g');
    }
    var e := Encode(d.value.0, d.value.1);
    if e.Err? {
      return None;
    }
    ghost var box: Mbr :| Tight(Coords(g), box) && e.value == Blob(true, d.value.0, BoxBytes(box), g);
    OutsideTheBox(d.value.0, was, BoxBytes(box), g);
    return Some(e.value);
  }
}
