/**
  The SpatiaLite geometry blob as a byte format: what stands where, and that its decoder accepts
  exactly the encodings (crates/shpx-geom/src/spatialite_blob.rs).
 */
module SpatialiteFormat {
  import opened Wrappers
  import opened MachineInts
  import opened ByteOrder
  import opened Framing
  import opened Doubles
  import opened Geometry

  const GAIA_BLOB_START: byte := 0x00
  const GAIA_MBR_END: byte := 0x7C
  const GAIA_BLOB_END: byte := 0xFE
  const GAIA_MARK_ENTITY: byte := 0x69
  const ENDIAN_BE: byte := 0x00
  const ENDIAN_LE: byte := 0x01

  const TY_POINT: U32 := 1
  const TY_LINESTRING: U32 := 2
  const TY_POLYGON: U32 := 3
  const TY_MULTIPOINT: U32 := 4
  const TY_MULTILINESTRING: U32 := 5
  const TY_MULTIPOLYGON: U32 := 6

  // ---------------------------------------------------------------------------
  // Points
  // ---------------------------------------------------------------------------

  function Swapped(v: F64): F64 {
    [v[7], v[6], v[5], v[4], v[3], v[2], v[1], v[0]]
  }

  function GetF64(bs: F64, little: bool): F64 {
    if little then bs else Swapped(bs)
  }

  function PutF64(v: F64, little: bool): (bs: F64)
    ensures GetF64(bs, little) == v
  {
    if little then v else Swapped(v)
  }

  /** Either way the 64 bits are those of the number, most significant byte first or last. */
  lemma WrittenF64(v: F64, little: bool)
    ensures Value(BigEndian(PutF64(v, little), little)) == Bits(v)
    ensures Bits(GetF64(v, little)) == Value(BigEndian(v, little))
  {
    assert Reversed(v) == Swapped(v) && Reversed(Swapped(v)) == v;
  }

  function EncodePt(p: Pt, little: bool): (bs: seq<byte>)
    ensures |bs| == 16
  {
    PutF64(p.x, little) + PutF64(p.y, little)
  }

  function DecodePt(bs: seq<byte>, pos: nat, little: bool): Option<(Pt, nat)> {
    if pos + 16 <= |bs| then
      Some((Pt(GetF64(bs[pos..pos + 8], little), GetF64(bs[pos + 8..pos + 16], little)), pos + 16))
    else None
  }

  predicate AnyPt(p: Pt) { true }

  function PtEncoder(little: bool): Encoder<Pt> {
    p => EncodePt(p, little)
  }

  function PtDecoder(bs: seq<byte>, little: bool): Decoder<Pt> {
    pos => DecodePt(bs, pos, little)
  }

  lemma PtAt(bs: seq<byte>, pos: nat, p: Pt, little: bool)
    ensures At(bs, pos, EncodePt(p, little)) <==> DecodePt(bs, pos, little) == Some((p, pos + 16))
  {
    AtConcat(bs, pos, PutF64(p.x, little), PutF64(p.y, little));
    if pos + 16 <= |bs| {
      assert Swapped(Swapped(bs[pos..pos + 8])) == bs[pos..pos + 8];
      assert Swapped(Swapped(bs[pos + 8..pos + 16])) == bs[pos + 8..pos + 16];
    }
  }

  lemma PtInverse(bs: seq<byte>, little: bool)
    ensures Inverse(bs, PtDecoder(bs, little), PtEncoder(little), AnyPt)
  {
    var dec, enc := PtDecoder(bs, little), PtEncoder(little);
    forall pos: nat
      ensures SoundAt(bs, dec, enc, AnyPt, pos)
    {
      if dec(pos).Some? {
        PtAt(bs, pos, dec(pos).value.0, little);
      }
    }
    forall pos: nat, p
      ensures CompleteAt(bs, dec, enc, AnyPt, pos, p)
    {
      PtAt(bs, pos, p, little);
    }
  }

  // ---------------------------------------------------------------------------
  // Members of a multi-geometry: entity marker, type, body
  // ---------------------------------------------------------------------------

  function MemberTag(ty: U32, little: bool): (bs: seq<byte>)
    ensures |bs| == 5
  {
    [GAIA_MARK_ENTITY] + PutU32(ty, little)
  }

  function TaggedEncoder<T>(tag: seq<byte>, enc: Encoder<T>): Encoder<T> {
    x => tag + enc(x)
  }

  function DecodeTagged<T>(bs: seq<byte>, tag: seq<byte>, dec: Decoder<T>, pos: nat): Option<(T, nat)> {
    if At(bs, pos, tag) then dec(pos + |tag|) else None
  }

  function TaggedDecoder<T>(bs: seq<byte>, tag: seq<byte>, dec: Decoder<T>): Decoder<T> {
    pos => DecodeTagged(bs, tag, dec, pos)
  }

  lemma TaggedInverse<T(!new)>(bs: seq<byte>, tag: seq<byte>, dec: Decoder<T>, enc: Encoder<T>, ok: T -> bool)
    requires Inverse(bs, dec, enc, ok)
    ensures Inverse(bs, TaggedDecoder(bs, tag, dec), TaggedEncoder(tag, enc), ok)
  {
    var tDec, tEnc := TaggedDecoder(bs, tag, dec), TaggedEncoder(tag, enc);
    forall pos: nat
      ensures SoundAt(bs, tDec, tEnc, ok, pos)
    {
      assert SoundAt(bs, dec, enc, ok, pos + |tag|);
      if tDec(pos).Some? {
        AtConcat(bs, pos, tag, enc(tDec(pos).value.0));
      }
    }
    forall pos: nat, x
      ensures CompleteAt(bs, tDec, tEnc, ok, pos, x)
    {
      assert CompleteAt(bs, dec, enc, ok, pos + |tag|, x);
      AtConcat(bs, pos, tag, enc(x));
    }
  }

  // ---------------------------------------------------------------------------
  // Geometries
  // ---------------------------------------------------------------------------

  /** The encoders of the six payloads. */
  datatype Encoders = Encoders(pt: Encoder<Pt>, ring: Encoder<seq<Pt>>, rings: Encoder<seq<seq<Pt>>>,
                               points: Encoder<seq<Pt>>, lines: Encoder<seq<seq<Pt>>>,
                               polys: Encoder<seq<seq<seq<Pt>>>>)

  function EncodersFor(little: bool): Encoders {
    var count, pt := CountEncoder(little), PtEncoder(little);
    var ring := ListEncoder(count, pt);
    var rings := ListEncoder(count, ring);
    Encoders(pt, ring, rings,
             ListEncoder(count, TaggedEncoder(MemberTag(TY_POINT, little), pt)),
             ListEncoder(count, TaggedEncoder(MemberTag(TY_LINESTRING, little), ring)),
             ListEncoder(count, TaggedEncoder(MemberTag(TY_POLYGON, little), rings)))
  }

  /** The decoders of the six payloads; each list states the bytes its items take at least. */
  datatype Decoders = Decoders(pt: Decoder<Pt>, ring: Decoder<seq<Pt>>, rings: Decoder<seq<seq<Pt>>>,
                               points: Decoder<seq<Pt>>, lines: Decoder<seq<seq<Pt>>>,
                               polys: Decoder<seq<seq<seq<Pt>>>>)

  function DecodersFor(bs: seq<byte>, little: bool): Decoders {
    var count, pt := CountDecoder(bs, little), PtDecoder(bs, little);
    var ring := ListDecoder(count, pt, 16, |bs|);
    var rings := ListDecoder(count, ring, 4, |bs|);
    Decoders(pt, ring, rings,
             ListDecoder(count, TaggedDecoder(bs, MemberTag(TY_POINT, little), pt), 1 + 4 + 16, |bs|),
             ListDecoder(count, TaggedDecoder(bs, MemberTag(TY_LINESTRING, little), ring), 1 + 4 + 4, |bs|),
             ListDecoder(count, TaggedDecoder(bs, MemberTag(TY_POLYGON, little), rings), 1 + 4 + 4, |bs|))
  }

  // Every count fits the `u32` it is written as.
  predicate RingFits(r: seq<Pt>) { Countable(|r|) }
  predicate EachRingFits(rs: seq<seq<Pt>>) { rs == [] || (RingFits(rs[0]) && EachRingFits(rs[1..])) }
  predicate RingsFit(rs: seq<seq<Pt>>) { Countable(|rs|) && EachRingFits(rs) }
  predicate EachPolyFits(ps: seq<seq<seq<Pt>>>) { ps == [] || (RingsFit(ps[0]) && EachPolyFits(ps[1..])) }
  predicate PolysFit(ps: seq<seq<seq<Pt>>>) { Countable(|ps|) && EachPolyFits(ps) }

  lemma EachOkStep<T>(ok: T -> bool, xs: seq<T>)
    requires xs != []
    ensures EachOk(ok, xs) <==> ok(xs[0]) && EachOk(ok, xs[1..])
  {
  }

  lemma {:induction false} EachRing(rs: seq<seq<Pt>>)
    ensures EachRingFits(rs) <==> EachOk(RingFits, rs)
  {
    if rs != [] {
      EachRing(rs[1..]);
      EachOkStep(RingFits, rs);
    }
  }

  lemma {:induction false} EachPoly(ps: seq<seq<seq<Pt>>>)
    ensures EachPolyFits(ps) <==> EachOk(RingsFit, ps)
  {
    if ps != [] {
      EachPoly(ps[1..]);
      EachOkStep(RingsFit, ps);
    }
  }

  ghost predicate AllInverse(bs: seq<byte>, d: Decoders, e: Encoders) {
    && Inverse(bs, d.pt, e.pt, AnyPt)
    && Inverse(bs, d.ring, e.ring, RingFits)
    && Inverse(bs, d.rings, e.rings, RingsFit)
    && Inverse(bs, d.points, e.points, RingFits)
    && Inverse(bs, d.lines, e.lines, RingsFit)
    && Inverse(bs, d.polys, e.polys, PolysFit)
  }

  lemma MembersInverse<T(!new)>(bs: seq<byte>, tag: seq<byte>, dec: Decoder<T>, enc: Encoder<T>, ok: T -> bool,
                                perItem: nat, little: bool)
    requires Inverse(bs, dec, enc, ok) && |tag| == 5 && forall x :: |enc(x)| >= perItem
    ensures Inverse(bs, ListDecoder(CountDecoder(bs, little), TaggedDecoder(bs, tag, dec), perItem + 5, |bs|),
                    ListEncoder(CountEncoder(little), TaggedEncoder(tag, enc)), ListOk(ok))
  {
    CountInverse(bs, little);
    TaggedInverse(bs, tag, dec, enc, ok);
    ListInverse(bs, CountDecoder(bs, little), CountEncoder(little), TaggedDecoder(bs, tag, dec),
                TaggedEncoder(tag, enc), ok, perItem + 5);
  }

  lemma PayloadsInverse(bs: seq<byte>, little: bool)
    ensures AllInverse(bs, DecodersFor(bs, little), EncodersFor(little))
  {
    var decCount, count := CountDecoder(bs, little), CountEncoder(little);
    var d, e := DecodersFor(bs, little), EncodersFor(little);
    CountInverse(bs, little);
    PtInverse(bs, little);
    ListInverse(bs, decCount, count, d.pt, e.pt, AnyPt, 16);
    SameAdmissible(bs, d.ring, e.ring, ListOk(AnyPt), RingFits);
    ListInverse(bs, decCount, count, d.ring, e.ring, RingFits, 4);
    forall rs ensures ListOk(RingFits)(rs) <==> RingsFit(rs) { EachRing(rs); }
    SameAdmissible(bs, d.rings, e.rings, ListOk(RingFits), RingsFit);
    MembersInverse(bs, MemberTag(TY_POINT, little), d.pt, e.pt, AnyPt, 16, little);
    SameAdmissible(bs, d.points, e.points, ListOk(AnyPt), RingFits);
    MembersInverse(bs, MemberTag(TY_LINESTRING, little), d.ring, e.ring, RingFits, 4, little);
    SameAdmissible(bs, d.lines, e.lines, ListOk(RingFits), RingsFit);
    MembersInverse(bs, MemberTag(TY_POLYGON, little), d.rings, e.rings, RingsFit, 4, little);
    forall ps ensures ListOk(RingsFit)(ps) <==> PolysFit(ps) { EachPoly(ps); }
    SameAdmissible(bs, d.polys, e.polys, ListOk(RingsFit), PolysFit);
  }

  predicate Encodable(g: Geom) {
    match g
    case Point(_) => true
    case LineString(pts) => RingFits(pts)
    case Polygon(rings) => RingsFit(rings)
    case MultiPoint(pts) => RingFits(pts)
    case MultiLineString(lines) => RingsFit(lines)
    case MultiPolygon(polys) => PolysFit(polys)
  }

  function TypeCode(g: Geom): U32 {
    match g
    case Point(_) => TY_POINT
    case LineString(_) => TY_LINESTRING
    case Polygon(_) => TY_POLYGON
    case MultiPoint(_) => TY_MULTIPOINT
    case MultiLineString(_) => TY_MULTILINESTRING
    case MultiPolygon(_) => TY_MULTIPOLYGON
  }

  function EncodeBody(e: Encoders, g: Geom): seq<byte> {
    match g
    case Point(p) => e.pt(p)
    case LineString(pts) => e.ring(pts)
    case Polygon(rings) => e.rings(rings)
    case MultiPoint(pts) => e.points(pts)
    case MultiLineString(lines) => e.lines(lines)
    case MultiPolygon(polys) => e.polys(polys)
  }

  function EncodeGeom(g: Geom, little: bool): seq<byte> {
    EncodeCount(TypeCode(g), little) + EncodeBody(EncodersFor(little), g)
  }

  function Mapped<T, U>(r: Option<(T, nat)>, f: T -> U): Option<(U, nat)> {
    match r
    case None => None
    case Some((x, next)) => Some((f(x), next))
  }

  function DecodeBody(d: Decoders, pos: nat, ty: nat): Option<(Geom, nat)> {
    if ty == TY_POINT then Mapped(d.pt(pos), p => Point(p))
    else if ty == TY_LINESTRING then Mapped(d.ring(pos), pts => LineString(pts))
    else if ty == TY_POLYGON then Mapped(d.rings(pos), rings => Polygon(rings))
    else if ty == TY_MULTIPOINT then Mapped(d.points(pos), pts => MultiPoint(pts))
    else if ty == TY_MULTILINESTRING then Mapped(d.lines(pos), lines => MultiLineString(lines))
    else if ty == TY_MULTIPOLYGON then Mapped(d.polys(pos), polys => MultiPolygon(polys))
    else None
  }

  function DecodeGeom(bs: seq<byte>, pos: nat, little: bool): Option<(Geom, nat)> {
    match DecodeCount(bs, pos, little)
    case None => None
    case Some((ty, next)) => DecodeBody(DecodersFor(bs, little), next, ty)
  }

  lemma BodySound(bs: seq<byte>, d: Decoders, e: Encoders, pos: nat, ty: nat)
    requires AllInverse(bs, d, e) && DecodeBody(d, pos, ty).Some?
    ensures var (g, next) := DecodeBody(d, pos, ty).value;
            TypeCode(g) == ty && Encodable(g) && At(bs, pos, EncodeBody(e, g)) && next == pos + |EncodeBody(e, g)|
  {
    assert SoundAt(bs, d.pt, e.pt, AnyPt, pos);
    assert SoundAt(bs, d.ring, e.ring, RingFits, pos);
    assert SoundAt(bs, d.rings, e.rings, RingsFit, pos);
    assert SoundAt(bs, d.points, e.points, RingFits, pos);
    assert SoundAt(bs, d.lines, e.lines, RingsFit, pos);
    assert SoundAt(bs, d.polys, e.polys, PolysFit, pos);
  }

  lemma BodyComplete(bs: seq<byte>, d: Decoders, e: Encoders, pos: nat, g: Geom)
    requires AllInverse(bs, d, e) && Encodable(g) && At(bs, pos, EncodeBody(e, g))
    ensures DecodeBody(d, pos, TypeCode(g)) == Some((g, pos + |EncodeBody(e, g)|))
  {
    match g
    case Point(p) => assert CompleteAt(bs, d.pt, e.pt, AnyPt, pos, p);
    case LineString(pts) => assert CompleteAt(bs, d.ring, e.ring, RingFits, pos, pts);
    case Polygon(rings) => assert CompleteAt(bs, d.rings, e.rings, RingsFit, pos, rings);
    case MultiPoint(pts) => assert CompleteAt(bs, d.points, e.points, RingFits, pos, pts);
    case MultiLineString(lines) => assert CompleteAt(bs, d.lines, e.lines, RingsFit, pos, lines);
    case MultiPolygon(polys) => assert CompleteAt(bs, d.polys, e.polys, PolysFit, pos, polys);
  }

  lemma GeomInverseWith(bs: seq<byte>, pos: nat, g: Geom, next: nat, decCount: Decoder<nat>, count: Encoder<nat>,
                        d: Decoders, e: Encoders)
    requires Inverse(bs, decCount, count, Countable) && AllInverse(bs, d, e)
    ensures var dec := match decCount(pos) case None => None case Some((ty, p)) => DecodeBody(d, p, ty);
            var enc := count(TypeCode(g)) + EncodeBody(e, g);
            dec == Some((g, next)) <==> Encodable(g) && At(bs, pos, enc) && next == pos + |enc|
  {
    AtConcat(bs, pos, count(TypeCode(g)), EncodeBody(e, g));
    assert SoundAt(bs, decCount, count, Countable, pos);
    assert CompleteAt<nat>(bs, decCount, count, Countable, pos, TypeCode(g));
    if decCount(pos).Some? {
      var (ty, p) := decCount(pos).value;
      if DecodeBody(d, p, ty) == Some((g, next)) {
        BodySound(bs, d, e, p, ty);
      }
    }
    if Encodable(g) && At(bs, pos, count(TypeCode(g)) + EncodeBody(e, g)) {
      BodyComplete(bs, d, e, pos + |count(TypeCode(g))|, g);
    }
  }

  /**
    A geometry is decoded at a position if and only if its encoding stands there, and exactly that
    encoding is consumed: round trip and canonicity in one, for both byte orders.
   */
  lemma GeomInverse(bs: seq<byte>, pos: nat, g: Geom, next: nat, little: bool)
    ensures DecodeGeom(bs, pos, little) == Some((g, next)) <==>
            Encodable(g) && At(bs, pos, EncodeGeom(g, little)) && next == pos + |EncodeGeom(g, little)|
  {
    PayloadsInverse(bs, little);
    CountInverse(bs, little);
    GeomInverseWith(bs, pos, g, next, CountDecoder(bs, little), CountEncoder(little), DecodersFor(bs, little),
                    EncodersFor(little));
  }
}
