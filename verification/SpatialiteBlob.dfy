/** Writing and reading SpatiaLite blobs (crates/shpx-geom/src/spatialite_blob.rs). */
module SpatialiteBlob {
  import opened Lists
  import opened Wrappers
  import opened MachineInts
  import opened ByteOrder
  import opened Framing
  import opened Geometry
  import opened SpatialiteFormat

  /** `Error::Geometry`; the message text is not modelled. */
  datatype GeometryError = GeometryError

  // ---------------------------------------------------------------------------
  // The whole blob
  // ---------------------------------------------------------------------------

  /** Start marker, byte order, SRID, bounding box, end-of-box marker. */
  function Header(little: bool, srid: I32, box: seq<byte>): (bs: seq<byte>)
    requires |box| == 32
    ensures |bs| == 39
  {
    [GAIA_BLOB_START, if little then ENDIAN_LE else ENDIAN_BE] + PutI32(srid, little) + box + [GAIA_MBR_END]
  }

  function Blob(little: bool, srid: I32, box: seq<byte>, g: Geom): seq<byte>
    requires |box| == 32
  {
    Header(little, srid, box) + EncodeGeom(g, little) + [GAIA_BLOB_END]
  }

  function BoxBytes(m: Mbr): (bs: seq<byte>)
    ensures |bs| == 32
  {
    m.minX + m.minY + m.maxX + m.maxY
  }

  // ---------------------------------------------------------------------------
  // Writing
  // ---------------------------------------------------------------------------

  lemma CountBytes(n: nat)
    requires Countable(n)
    ensures CountEncoder(true)(n) == PutU32(n, true)
  {
  }

  method WriteCount(buf: seq<byte>, n: nat) returns (r: Result<seq<byte>, GeometryError>)
    ensures r == if Countable(n) then Ok(buf + CountEncoder(true)(n)) else Err(GeometryError)
  {
    if n >= TWO_TO_THE_32 {
      return Err(GeometryError);
    }
    CountBytes(n);
    return Ok(buf + PutU32(n, true));
  }

  method WriteXY(buf: seq<byte>, p: Pt) returns (out: seq<byte>)
    ensures out == buf + PtEncoder(true)(p)
  {
    out := buf + p.x;
    out := out + p.y;
  }

  method WriteMember(buf: seq<byte>, ty: U32) returns (out: seq<byte>)
    ensures out == buf + MemberTag(ty, true)
  {
    out := buf + [GAIA_MARK_ENTITY];
    out := out + PutU32(ty, true);
  }

  /** A count, then that many points. */
  method WriteRing(buf: seq<byte>, pts: seq<Pt>) returns (r: Result<seq<byte>, GeometryError>)
    ensures r.Ok? <==> RingFits(pts)
    ensures r.Ok? ==> r.value == buf + EncodersFor(true).ring(pts)
  {
    ghost var enc := PtEncoder(true);
    var out :- WriteCount(buf, |pts|);
    ghost var start := out;
    for i := 0 to |pts|
      invariant out == start + EncodeAll(enc, pts[..i])
    {
      AppendItem(start, enc, pts, i, out);
      out := WriteXY(out, pts[i]);
    }
    assert pts[..|pts|] == pts;
    Regroup(buf, CountEncoder(true)(|pts|), EncodeAll(enc, pts));
    return Ok(out);
  }

  /** A count, then that many rings. */
  method WriteRings(buf: seq<byte>, rings: seq<seq<Pt>>) returns (r: Result<seq<byte>, GeometryError>)
    ensures r.Ok? <==> RingsFit(rings)
    ensures r.Ok? ==> r.value == buf + EncodersFor(true).rings(rings)
  {
    ghost var enc := EncodersFor(true).ring;
    var out :- WriteCount(buf, |rings|);
    ghost var start := out;
    for i := 0 to |rings|
      invariant out == start + EncodeAll(enc, rings[..i])
      invariant EachRingFits(rings) == EachRingFits(rings[i..])
    {
      AppendItem(start, enc, rings, i, out);
      assert rings[i..][1..] == rings[i + 1..];
      out :- WriteRing(out, rings[i]);
    }
    assert rings[..|rings|] == rings;
    Regroup(buf, CountEncoder(true)(|rings|), EncodeAll(enc, rings));
    return Ok(out);
  }

  /** Each point behind an entity marker and its type. */
  method WriteMultiPoint(buf: seq<byte>, pts: seq<Pt>) returns (r: Result<seq<byte>, GeometryError>)
    ensures r.Ok? <==> RingFits(pts)
    ensures r.Ok? ==> r.value == buf + EncodersFor(true).points(pts)
  {
    ghost var enc := TaggedEncoder(MemberTag(TY_POINT, true), PtEncoder(true));
    var out :- WriteCount(buf, |pts|);
    ghost var start := out;
    for i := 0 to |pts|
      invariant out == start + EncodeAll(enc, pts[..i])
    {
      AppendItem(start, enc, pts, i, out);
      Regroup(out, MemberTag(TY_POINT, true), PtEncoder(true)(pts[i]));
      out := WriteMember(out, TY_POINT);
      out := WriteXY(out, pts[i]);
    }
    assert pts[..|pts|] == pts;
    Regroup(buf, CountEncoder(true)(|pts|), EncodeAll(enc, pts));
    return Ok(out);
  }

  /** Each line behind an entity marker and its type. */
  method WriteMultiLineString(buf: seq<byte>, lines: seq<seq<Pt>>) returns (r: Result<seq<byte>, GeometryError>)
    ensures r.Ok? <==> RingsFit(lines)
    ensures r.Ok? ==> r.value == buf + EncodersFor(true).lines(lines)
  {
    ghost var enc := TaggedEncoder(MemberTag(TY_LINESTRING, true), EncodersFor(true).ring);
    var out :- WriteCount(buf, |lines|);
    ghost var start := out;
    for i := 0 to |lines|
      invariant out == start + EncodeAll(enc, lines[..i])
      invariant EachRingFits(lines) == EachRingFits(lines[i..])
    {
      AppendItem(start, enc, lines, i, out);
      Regroup(out, MemberTag(TY_LINESTRING, true), EncodersFor(true).ring(lines[i]));
      out := WriteMember(out, TY_LINESTRING);
      assert lines[i..][1..] == lines[i + 1..];
      out :- WriteRing(out, lines[i]);
    }
    assert lines[..|lines|] == lines;
    Regroup(buf, CountEncoder(true)(|lines|), EncodeAll(enc, lines));
    return Ok(out);
  }

  /** Each polygon behind an entity marker and its type. */
  method WriteMultiPolygon(buf: seq<byte>, polys: seq<seq<seq<Pt>>>) returns (r: Result<seq<byte>, GeometryError>)
    ensures r.Ok? <==> PolysFit(polys)
    ensures r.Ok? ==> r.value == buf + EncodersFor(true).polys(polys)
  {
    ghost var enc := TaggedEncoder(MemberTag(TY_POLYGON, true), EncodersFor(true).rings);
    var out :- WriteCount(buf, |polys|);
    ghost var start := out;
    for i := 0 to |polys|
      invariant out == start + EncodeAll(enc, polys[..i])
      invariant EachPolyFits(polys) == EachPolyFits(polys[i..])
    {
      AppendItem(start, enc, polys, i, out);
      Regroup(out, MemberTag(TY_POLYGON, true), EncodersFor(true).rings(polys[i]));
      out := WriteMember(out, TY_POLYGON);
      assert polys[i..][1..] == polys[i + 1..];
      out :- WriteRings(out, polys[i]);
    }
    assert polys[..|polys|] == polys;
    Regroup(buf, CountEncoder(true)(|polys|), EncodeAll(enc, polys));
    return Ok(out);
  }

  /** `write_inner`: fails exactly when some count does not fit a `u32`. */
  method WriteInner(buf: seq<byte>, g: Geom) returns (r: Result<seq<byte>, GeometryError>)
    ensures r.Ok? <==> Encodable(g)
    ensures r.Ok? ==> r.value == buf + EncodeGeom(g, true)
  {
    var ty := PutU32(TypeCode(g), true);
    Regroup(buf, ty, EncodeBody(EncodersFor(true), g));
    match g {
      case Point(p) =>
        var out := WriteXY(buf + ty, p);
        r := Ok(out);
      case LineString(pts) => r := WriteRing(buf + ty, pts);
      case Polygon(rings) => r := WriteRings(buf + ty, rings);
      case MultiPoint(pts) => r := WriteMultiPoint(buf + ty, pts);
      case MultiLineString(lines) => r := WriteMultiLineString(buf + ty, lines);
      case MultiPolygon(polys) => r := WriteMultiPolygon(buf + ty, polys);
    }
  }
}
