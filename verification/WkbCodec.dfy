/** Writing and reading WKB (crates/shpx-geom/src/wkb.rs). */
module WkbCodec {
  import opened Wrappers
  import opened MachineInts
  import opened ByteOrder
  import opened Framing
  import opened Geometry
  import opened Lists
  import opened SpatialiteFormat
  import opened SpatialiteBlob
  import opened SpatialiteReader
  import opened WkbFormat

  // ---------------------------------------------------------------------------
  // What a WKB value is
  // ---------------------------------------------------------------------------

  /** The bytes are the geometry's, in some choice of byte orders. */
  ghost predicate IsWkb(bs: seq<byte>, g: Geom) {
    exists w: Wkb :: Erase(w) == g && ShapeOk(w.shape) && bs == EncodeWkb(w)
  }

  /** The geometry of the bytes, if they are one geometry and nothing else. */
  function Read(bs: seq<byte>): Option<Geom> {
    match DecodeWkb(bs, 0)
    case None => None
    case Some((w, next)) => if next == |bs| then Some(Erase(w)) else None
  }

  lemma WholeAt(bs: seq<byte>, part: seq<byte>)
    ensures At(bs, 0, part) && |bs| == |part| <==> bs == part
  {
    assert bs[0..|bs|] == bs;
  }

  lemma ReadIffWkb(bs: seq<byte>, g: Geom)
    ensures Read(bs) == Some(g) <==> IsWkb(bs, g)
  {
    if Read(bs) == Some(g) {
      var w := DecodeWkb(bs, 0).value.0;
      WkbInverse(bs, 0, w, |bs|);
      WholeAt(bs, EncodeWkb(w));
    }
    if IsWkb(bs, g) {
      var w: Wkb :| Erase(w) == g && ShapeOk(w.shape) && bs == EncodeWkb(w);
      WholeAt(bs, EncodeWkb(w));
      WkbInverse(bs, 0, w, |bs|);
    }
  }

  lemma EachBody<T>(ok: T -> bool, cs: seq<Child<T>>)
    ensures EachOk(ChildOk(ok), cs) <==> EachOk(ok, Bodies(cs))
  {
    if EachOk(ok, Bodies(cs)) {
      forall i | 0 <= i < |cs| ensures ChildOk(ok)(cs[i]) {
        assert ok(Bodies(cs)[i]);
      }
    }
    if EachOk(ChildOk(ok), cs) {
      forall i | 0 <= i < |cs| ensures ok(Bodies(cs)[i]) {
        assert ChildOk(ok)(cs[i]);
      }
    }
  }

  /** The counts are those of the geometry, whatever the byte orders. */
  lemma FitsIffEncodable(w: Wkb)
    ensures ShapeOk(w.shape) <==> Encodable(Erase(w))
  {
    match w.shape
    case Points(cs) =>
      EachBody(AnyPt, cs);
    case Lines(cs) =>
      EachBody(RingFits, cs);
      EachRing(Bodies(cs));
    case Polygons(cs) =>
      EachBody(RingsFit, cs);
      EachPoly(Bodies(cs));
    case _ =>
  }

  // ---------------------------------------------------------------------------
  // Writing
  // ---------------------------------------------------------------------------

  method WriteHeader(buf: seq<byte>, ty: U32) returns (out: seq<byte>)
    ensures out == buf + Tag(ty, true)
  {
    out := buf + [1];
    out := out + PutU32(ty, true);
  }

  method EncodePointInto(buf: seq<byte>, p: Pt) returns (out: seq<byte>)
    ensures out == buf + PointEncoder()(Child(true, p))
  {
    out := WriteHeader(buf, TY_POINT);
    Regroup(buf, Tag(TY_POINT, true), EncodePt(p, true));
    out := WriteXY(out, p);
  }

  method EncodeLineStringInto(buf: seq<byte>, pts: seq<Pt>) returns (r: Result<seq<byte>, GeometryError>)
    ensures r.Ok? <==> RingFits(pts)
    ensures r.Ok? ==> r.value == buf + LineEncoder()(Child(true, pts))
  {
    var out := WriteHeader(buf, TY_LINESTRING);
    Regroup(buf, Tag(TY_LINESTRING, true), EncodersFor(true).ring(pts));
    r := WriteRing(out, pts);
  }

  method EncodePolygonInto(buf: seq<byte>, rings: seq<seq<Pt>>) returns (r: Result<seq<byte>, GeometryError>)
    ensures r.Ok? <==> RingsFit(rings)
    ensures r.Ok? ==> r.value == buf + PolygonEncoder()(Child(true, rings))
  {
    var out := WriteHeader(buf, TY_POLYGON);
    Regroup(buf, Tag(TY_POLYGON, true), EncodersFor(true).rings(rings));
    r := WriteRings(out, rings);
  }

  method WritePoints(buf: seq<byte>, pts: seq<Pt>) returns (r: Result<seq<byte>, GeometryError>)
    ensures r.Ok? <==> RingFits(pts)
    ensures r.Ok? ==> r.value == buf + WkbEncodersFor(true).points(Children(pts))
  {
    ghost var enc, cs := PointEncoder(), Children(pts);
    var out :- WriteCount(buf, |pts|);
    ghost var start := out;
    for i := 0 to |pts|
      invariant out == start + EncodeAll(enc, cs[..i])
    {
      AppendItem(start, enc, cs, i, out);
      out := EncodePointInto(out, pts[i]);
    }
    assert cs[..|cs|] == cs;
    Regroup(buf, CountEncoder(true)(|cs|), EncodeAll(enc, cs));
    return Ok(out);
  }

  method WriteLines(buf: seq<byte>, lines: seq<seq<Pt>>) returns (r: Result<seq<byte>, GeometryError>)
    ensures r.Ok? <==> RingsFit(lines)
    ensures r.Ok? ==> r.value == buf + WkbEncodersFor(true).lines(Children(lines))
  {
    ghost var enc, cs := LineEncoder(), Children(lines);
    var out :- WriteCount(buf, |lines|);
    ghost var start := out;
    for i := 0 to |lines|
      invariant out == start + EncodeAll(enc, cs[..i])
      invariant EachRingFits(lines) == EachRingFits(lines[i..])
    {
      AppendItem(start, enc, cs, i, out);
      assert lines[i..][1..] == lines[i + 1..];
      out :- EncodeLineStringInto(out, lines[i]);
    }
    assert cs[..|cs|] == cs;
    Regroup(buf, CountEncoder(true)(|cs|), EncodeAll(enc, cs));
    return Ok(out);
  }

  method WritePolygons(buf: seq<byte>, polys: seq<seq<seq<Pt>>>) returns (r: Result<seq<byte>, GeometryError>)
    ensures r.Ok? <==> PolysFit(polys)
    ensures r.Ok? ==> r.value == buf + WkbEncodersFor(true).polygons(Children(polys))
  {
    ghost var enc, cs := PolygonEncoder(), Children(polys);
    var out :- WriteCount(buf, |polys|);
    ghost var start := out;
    for i := 0 to |polys|
      invariant out == start + EncodeAll(enc, cs[..i])
      invariant EachPolyFits(polys) == EachPolyFits(polys[i..])
    {
      AppendItem(start, enc, cs, i, out);
      assert polys[i..][1..] == polys[i + 1..];
      out :- EncodePolygonInto(out, polys[i]);
    }
    assert cs[..|cs|] == cs;
    Regroup(buf, CountEncoder(true)(|cs|), EncodeAll(enc, cs));
    return Ok(out);
  }

  /** The bytes of the little-endian form, case by case. */
  function PlainBytes(g: Geom): seq<byte> {
    match g
    case Point(p) => PointEncoder()(Child(true, p))
    case LineString(pts) => LineEncoder()(Child(true, pts))
    case Polygon(rings) => PolygonEncoder()(Child(true, rings))
    case MultiPoint(pts) => Tag(TY_MULTIPOINT, true) + WkbEncodersFor(true).points(Children(pts))
    case MultiLineString(lines) => Tag(TY_MULTILINESTRING, true) + WkbEncodersFor(true).lines(Children(lines))
    case MultiPolygon(polys) => Tag(TY_MULTIPOLYGON, true) + WkbEncodersFor(true).polygons(Children(polys))
  }

  lemma PlainBytesAre(g: Geom)
    ensures PlainBytes(g) == EncodeWkb(Plain(g))
  {
  }

  /** `encode_into`: fails exactly when some count does not fit a `u32`. */
  method EncodeInto(g: Geom, buf: seq<byte>) returns (r: Result<seq<byte>, GeometryError>)
    ensures r.Ok? <==> Encodable(g)
    ensures r.Ok? ==> r.value == buf + PlainBytes(g)
  {
    match g {
      case Point(p) =>
        var out := EncodePointInto(buf, p);
        r := Ok(out);
      case LineString(pts) => r := EncodeLineStringInto(buf, pts);
      case Polygon(rings) => r := EncodePolygonInto(buf, rings);
      case MultiPoint(pts) =>
        var out := WriteHeader(buf, TY_MULTIPOINT);
        Regroup(buf, Tag(TY_MULTIPOINT, true), WkbEncodersFor(true).points(Children(pts)));
        r := WritePoints(out, pts);
      case MultiLineString(lines) =>
        var out := WriteHeader(buf, TY_MULTILINESTRING);
        Regroup(buf, Tag(TY_MULTILINESTRING, true), WkbEncodersFor(true).lines(Children(lines)));
        r := WriteLines(out, lines);
      case MultiPolygon(polys) =>
        var out := WriteHeader(buf, TY_MULTIPOLYGON);
        Regroup(buf, Tag(TY_MULTIPOLYGON, true), WkbEncodersFor(true).polygons(Children(polys)));
        r := WritePolygons(out, polys);
    }
  }

  /** `encode` */
  method Encode(g: Geom) returns (r: Result<seq<byte>, GeometryError>)
    ensures r.Ok? <==> Encodable(g)
    ensures r.Ok? ==> r.value == EncodeWkb(Plain(g)) && IsWkb(r.value, g)
  {
    r := EncodeInto(g, []);
    if r.Ok? {
      ErasePlain(g);
      FitsIffEncodable(Plain(g));
      PlainBytesAre(g);
      assert [] + PlainBytes(g) == PlainBytes(g);
    }
  }

  // ---------------------------------------------------------------------------
  // Reading
  // ---------------------------------------------------------------------------

  function ErasedAt(bs: seq<byte>, pos: nat): Option<(Geom, nat)> {
    Mapped(DecodeWkb(bs, pos), w => Erase(w))
  }

  lemma DecodeAdvances(bs: seq<byte>, pos: nat)
    requires ErasedAt(bs, pos).Some?
    ensures ErasedAt(bs, pos).value.1 > pos
  {
    var (w, next) := DecodeWkb(bs, pos).value;
    WkbInverse(bs, pos, w, next);
  }

  /** The decoder of the members without their byte orders. */
  function BodyDecoder<T>(dec: Decoder<Child<T>>): Decoder<T> {
    pos => Mapped(dec(pos), (c: Child<T>) => c.body)
  }

  lemma {:induction false} BodiesDecode<T>(dec: Decoder<Child<T>>, pos: nat, n: nat, acc: seq<Child<T>>)
    ensures Mapped(DecodeItems(dec, pos, n, acc), cs => Bodies(cs)) ==
            DecodeItems(BodyDecoder(dec), pos, n, Bodies(acc))
    decreases n
  {
    if n > 0 && dec(pos).Some? {
      var (x, next) := dec(pos).value;
      assert Bodies(acc + [x]) == Bodies(acc) + [x.body];
      BodiesDecode(dec, next, n - 1, acc + [x]);
    }
  }

  function PointOf(g: Geom): Option<Pt> { if g.Point? then Some(g.p) else None }
  function LineOf(g: Geom): Option<seq<Pt>> { if g.LineString? then Some(g.pts) else None }
  function PolygonOf(g: Geom): Option<seq<seq<Pt>>> { if g.Polygon? then Some(g.rings) else None }

  ghost predicate IsBody<T>(bs: seq<byte>, pos: nat, dec: Decoder<T>, body: Geom -> Option<T>) {
    dec(pos) == match ErasedAt(bs, pos)
                case None => None
                case Some((g, next)) => if body(g).Some? then Some((body(g).value, next)) else None
  }

  /** The decoder reads any geometry and refuses those of another kind. */
  ghost predicate ReadsBodies<T>(bs: seq<byte>, dec: Decoder<T>, body: Geom -> Option<T>) {
    forall pos: nat :: IsBody(bs, pos, dec, body)
  }

  /** A member is a geometry of the member's kind. */
  lemma MemberIsGeometry(bs: seq<byte>, pos: nat)
    ensures var d := DecodeWkb(bs, pos);
            && PointDecoder(bs)(pos) == (if d.Some? && d.value.0.shape.OnePoint?
                                         then Some((Child(d.value.0.little, d.value.0.shape.p), d.value.1)) else None)
            && LineDecoder(bs)(pos) == (if d.Some? && d.value.0.shape.OneLine?
                                        then Some((Child(d.value.0.little, d.value.0.shape.pts), d.value.1)) else None)
            && PolygonDecoder(bs)(pos) == (if !d.Some? || !d.value.0.shape.OnePolygon? then None
                                           else Some((Child(d.value.0.little, d.value.0.shape.rings), d.value.1)))
  {
  }

  lemma PointBodies(bs: seq<byte>)
    ensures ReadsBodies(bs, BodyDecoder(PointDecoder(bs)), PointOf)
  {
    forall pos: nat ensures IsBody(bs, pos, BodyDecoder(PointDecoder(bs)), PointOf) {
      MemberIsGeometry(bs, pos);
    }
  }

  lemma LineBodies(bs: seq<byte>)
    ensures ReadsBodies(bs, BodyDecoder(LineDecoder(bs)), LineOf)
  {
    forall pos: nat ensures IsBody(bs, pos, BodyDecoder(LineDecoder(bs)), LineOf) {
      MemberIsGeometry(bs, pos);
    }
  }

  lemma PolygonBodies(bs: seq<byte>)
    ensures ReadsBodies(bs, BodyDecoder(PolygonDecoder(bs)), PolygonOf)
  {
    forall pos: nat ensures IsBody(bs, pos, BodyDecoder(PolygonDecoder(bs)), PolygonOf) {
      MemberIsGeometry(bs, pos);
    }
  }

  /** `DecodeShape` without the byte orders of the members. */
  function DecodeErased(d: WkbDecoders, pos: nat, ty: nat): Option<(Geom, nat)> {
    if ty == TY_POINT then Mapped(d.pt(pos), p => Point(p))
    else if ty == TY_LINESTRING then Mapped(d.ring(pos), pts => LineString(pts))
    else if ty == TY_POLYGON then Mapped(d.rings(pos), rings => Polygon(rings))
    else if ty == TY_MULTIPOINT then Mapped(d.points(pos), cs => MultiPoint(Bodies(cs)))
    else if ty == TY_MULTILINESTRING then Mapped(d.lines(pos), cs => MultiLineString(Bodies(cs)))
    else if ty == TY_MULTIPOLYGON then Mapped(d.polygons(pos), cs => MultiPolygon(Bodies(cs)))
    else None
  }

  lemma ErasedShape(d: WkbDecoders, pos: nat, ty: nat)
    ensures DecodeErased(d, pos, ty) == Mapped(DecodeShape(d, pos, ty), s => EraseShape(s))
  {
  }

  /** One member of a multipoint: read as any geometry, and refused if it is of another kind. */
  method ReadPointMember(c: Cursor, ghost level: nat, ghost dec: Decoder<Pt>) returns (r: Result<Pt, GeometryError>)
    requires c.Valid() && ReadsBodies(c.bytes, dec, PointOf) && 9 * level <= c.pos
    modifies c
    ensures c.Valid() && Follows(r, c.pos, dec(old(c.pos)))
    ensures r.Ok? ==> c.pos > old(c.pos)
    decreases |c.bytes| - c.pos, 1
  {
    assert IsBody(c.bytes, c.pos, dec, PointOf);
    if ErasedAt(c.bytes, c.pos).Some? {
      DecodeAdvances(c.bytes, c.pos);
    }
    var g :- ReadGeom(c, level);
    if !g.Point? {
      return Err(GeometryError);
    }
    return Ok(g.p);
  }

  method ReadPointMembers(c: Cursor, ghost level: nat, n: nat, ghost dec: Decoder<Pt>)
    returns (r: Result<seq<Pt>, GeometryError>)
    requires c.Valid() && ReadsBodies(c.bytes, dec, PointOf) && 9 * level <= c.pos
    modifies c
    ensures c.Valid() && Follows(r, c.pos, DecodeCounted(dec, 21, |c.bytes|, old(c.pos), n))
    decreases |c.bytes| - c.pos, 2
  {
    var _ :- c.EnsureRemainingFor(n, 5 + 16);
    var members: seq<Pt> := [];
    for i := 0 to n
      invariant c.Valid() && c.pos >= old(c.pos)
      invariant DecodeItems(dec, c.pos, n - i, members) == DecodeItems(dec, old(c.pos), n, [])
    {
      var member :- ReadPointMember(c, level, dec);
      members := members + [member];
    }
    return Ok(members);
  }

  method ReadMultiPoint(c: Cursor, ghost level: nat, little: bool) returns (r: Result<seq<Pt>, GeometryError>)
    requires c.Valid() && 9 * level + 5 <= c.pos
    modifies c
    ensures c.Valid()
    ensures Follows(r, c.pos, Mapped(WkbDecodersFor(c.bytes, little).points(old(c.pos)), cs => Bodies(cs)))
    decreases |c.bytes| - c.pos, 3
  {
    ghost var dec := PointDecoder(c.bytes);
    var n :- c.ReadU32(little);
    BodiesDecode(dec, c.pos, n, []);
    PointBodies(c.bytes);
    r := ReadPointMembers(c, level + 1, n, BodyDecoder(dec));
  }

  /** One member of a multilinestring: read as any geometry, and refused if it is of another kind. */
  method ReadLineMember(c: Cursor, ghost level: nat, ghost dec: Decoder<seq<Pt>>)
    returns (r: Result<seq<Pt>, GeometryError>)
    requires c.Valid() && ReadsBodies(c.bytes, dec, LineOf) && 9 * level <= c.pos
    modifies c
    ensures c.Valid() && Follows(r, c.pos, dec(old(c.pos)))
    ensures r.Ok? ==> c.pos > old(c.pos)
    decreases |c.bytes| - c.pos, 1
  {
    assert IsBody(c.bytes, c.pos, dec, LineOf);
    if ErasedAt(c.bytes, c.pos).Some? {
      DecodeAdvances(c.bytes, c.pos);
    }
    var g :- ReadGeom(c, level);
    if !g.LineString? {
      return Err(GeometryError);
    }
    return Ok(g.pts);
  }

  method ReadLineMembers(c: Cursor, ghost level: nat, n: nat, ghost dec: Decoder<seq<Pt>>)
    returns (r: Result<seq<seq<Pt>>, GeometryError>)
    requires c.Valid() && ReadsBodies(c.bytes, dec, LineOf) && 9 * level <= c.pos
    modifies c
    ensures c.Valid() && Follows(r, c.pos, DecodeCounted(dec, 9, |c.bytes|, old(c.pos), n))
    decreases |c.bytes| - c.pos, 2
  {
    var _ :- c.EnsureRemainingFor(n, 5 + 4);
    var members: seq<seq<Pt>> := [];
    for i := 0 to n
      invariant c.Valid() && c.pos >= old(c.pos)
      invariant DecodeItems(dec, c.pos, n - i, members) == DecodeItems(dec, old(c.pos), n, [])
    {
      var member :- ReadLineMember(c, level, dec);
      members := members + [member];
    }
    return Ok(members);
  }

  method ReadMultiLineString(c: Cursor, ghost level: nat, little: bool) returns (r: Result<seq<seq<Pt>>, GeometryError>)
    requires c.Valid() && 9 * level + 5 <= c.pos
    modifies c
    ensures c.Valid()
    ensures Follows(r, c.pos, Mapped(WkbDecodersFor(c.bytes, little).lines(old(c.pos)), cs => Bodies(cs)))
    decreases |c.bytes| - c.pos, 3
  {
    ghost var dec := LineDecoder(c.bytes);
    var n :- c.ReadU32(little);
    BodiesDecode(dec, c.pos, n, []);
    LineBodies(c.bytes);
    r := ReadLineMembers(c, level + 1, n, BodyDecoder(dec));
  }

  /** One member of a multipolygon: read as any geometry, and refused if it is of another kind. */
  method ReadPolygonMember(c: Cursor, ghost level: nat, ghost dec: Decoder<seq<seq<Pt>>>)
    returns (r: Result<seq<seq<Pt>>, GeometryError>)
    requires c.Valid() && ReadsBodies(c.bytes, dec, PolygonOf) && 9 * level <= c.pos
    modifies c
    ensures c.Valid() && Follows(r, c.pos, dec(old(c.pos)))
    ensures r.Ok? ==> c.pos > old(c.pos)
    decreases |c.bytes| - c.pos, 1
  {
    assert IsBody(c.bytes, c.pos, dec, PolygonOf);
    if ErasedAt(c.bytes, c.pos).Some? {
      DecodeAdvances(c.bytes, c.pos);
    }
    var g :- ReadGeom(c, level);
    if !g.Polygon? {
      return Err(GeometryError);
    }
    return Ok(g.rings);
  }

  method ReadPolygonMembers(c: Cursor, ghost level: nat, n: nat, ghost dec: Decoder<seq<seq<Pt>>>)
    returns (r: Result<seq<seq<seq<Pt>>>, GeometryError>)
    requires c.Valid() && ReadsBodies(c.bytes, dec, PolygonOf) && 9 * level <= c.pos
    modifies c
    ensures c.Valid() && Follows(r, c.pos, DecodeCounted(dec, 9, |c.bytes|, old(c.pos), n))
    decreases |c.bytes| - c.pos, 2
  {
    var _ :- c.EnsureRemainingFor(n, 5 + 4);
    var members: seq<seq<seq<Pt>>> := [];
    for i := 0 to n
      invariant c.Valid() && c.pos >= old(c.pos)
      invariant DecodeItems(dec, c.pos, n - i, members) == DecodeItems(dec, old(c.pos), n, [])
    {
      var member :- ReadPolygonMember(c, level, dec);
      members := members + [member];
    }
    return Ok(members);
  }

  method ReadMultiPolygon(c: Cursor, ghost level: nat, little: bool)
    returns (r: Result<seq<seq<seq<Pt>>>, GeometryError>)
    requires c.Valid() && 9 * level + 5 <= c.pos
    modifies c
    ensures c.Valid()
    ensures Follows(r, c.pos, Mapped(WkbDecodersFor(c.bytes, little).polygons(old(c.pos)), cs => Bodies(cs)))
    decreases |c.bytes| - c.pos, 3
  {
    ghost var dec := PolygonDecoder(c.bytes);
    var n :- c.ReadU32(little);
    BodiesDecode(dec, c.pos, n, []);
    PolygonBodies(c.bytes);
    r := ReadPolygonMembers(c, level + 1, n, BodyDecoder(dec));
  }

  /** The body of a geometry whose byte order and type are known. */
  method ReadShape(c: Cursor, ghost level: nat, little: bool, ty: nat) returns (r: Result<Geom, GeometryError>)
    requires c.Valid() && 9 * level + 5 <= c.pos
    modifies c
    ensures c.Valid()
    ensures Follows(r, c.pos, DecodeErased(WkbDecodersFor(c.bytes, little), old(c.pos), ty))
    decreases |c.bytes| - c.pos, 4
  {
    if ty == TY_POINT {
      var p :- c.ReadPt(little);
      return Ok(Point(p));
    } else if ty == TY_LINESTRING {
      var pts :- c.ReadRing(little);
      return Ok(LineString(pts));
    } else if ty == TY_POLYGON {
      var rings :- c.ReadPolygon(little);
      return Ok(Polygon(rings));
    } else if ty == TY_MULTIPOINT {
      var pts :- ReadMultiPoint(c, level, little);
      return Ok(MultiPoint(pts));
    } else if ty == TY_MULTILINESTRING {
      var lines :- ReadMultiLineString(c, level, little);
      return Ok(MultiLineString(lines));
    } else if ty == TY_MULTIPOLYGON {
      var polys :- ReadMultiPolygon(c, level, little);
      return Ok(MultiPolygon(polys));
    }
    return Err(GeometryError);
  }

  /**
    `read_geom`: the byte order and type of each geometry, members included, are read where it
    stands; a member of the wrong type is refused. It is read before it is looked at, whatever it holds,
    so nesting is limited only by the input: at nesting level `level` nine bytes have been consumed
    for every level above.
   */
  method ReadGeom(c: Cursor, ghost level: nat) returns (r: Result<Geom, GeometryError>)
    requires c.Valid() && 9 * level <= c.pos
    modifies c
    ensures c.Valid() && Follows(r, c.pos, ErasedAt(c.bytes, old(c.pos)))
    decreases |c.bytes| - c.pos, 0
  {
    var order :- c.Take(1);
    if order[0] > 1 {
      return Err(GeometryError);
    }
    var little := order[0] == 1;
    var ty :- c.ReadU32(little);
    ErasedShape(WkbDecodersFor(c.bytes, little), c.pos, ty);
    r := ReadShape(c, level, little, ty);
  }

  /** `decode`: accepts exactly the WKB values, in any mixture of byte orders, without trailing bytes. */
  method Decode(bytes: seq<byte>) returns (r: Result<Geom, GeometryError>)
    ensures r.Ok? ==> IsWkb(bytes, r.value)
    ensures r.Err? ==> forall g :: !IsWkb(bytes, g)
    ensures r.Ok? <==> Read(bytes).Some?
    ensures r.Ok? ==> r.value == Read(bytes).value
  {
    var c := new Cursor(bytes, 0);
    forall g ensures Read(bytes) == Some(g) <==> IsWkb(bytes, g) {
      ReadIffWkb(bytes, g);
    }
    var g :- ReadGeom(c, 0);
    if c.pos != |bytes| {
      return Err(GeometryError);
    }
    return Ok(g);
  }

  /** What was encoded is decoded. */
  method EncodeThenDecode(g: Geom) returns (encoded: bool, back: Result<Geom, GeometryError>)
    ensures encoded <==> Encodable(g)
    ensures encoded ==> back == Ok(g)
  {
    var bytes := Encode(g);
    if bytes.Err? {
      return false, Err(GeometryError);
    }
    back := Decode(bytes.value);
    ReadIffWkb(bytes.value, g);
    return true, back;
  }
}
