/**
  WKB as a byte format, section 8.2 of OGC Simple Feature Access 1.2.1
  (crates/shpx-geom/src/wkb.rs): every geometry, members of collections included, starts with its
  own byte order and type.
 */
module WkbFormat {
  import opened Wrappers
  import opened MachineInts
  import opened ByteOrder
  import opened Framing
  import opened Geometry
  import opened SpatialiteFormat

  // ---------------------------------------------------------------------------
  // Byte order and type
  // ---------------------------------------------------------------------------

  function Tag(ty: U32, little: bool): (bs: seq<byte>)
    ensures |bs| == 5
  {
    [if little then 1 else 0] + PutU32(ty, little)
  }

  datatype Start = Start(little: bool, ty: U32)

  function DecodeTag(bs: seq<byte>, pos: nat): Option<(Start, nat)> {
    if pos >= |bs| || bs[pos] > 1 then None else
    match DecodeCount(bs, pos + 1, bs[pos] == 1)
    case None => None
    case Some((ty, next)) => Some((Start(bs[pos] == 1, ty), next))
  }

  lemma TagAt(bs: seq<byte>, pos: nat, s: Start)
    ensures DecodeTag(bs, pos) == Some((s, pos + 5)) <==> At(bs, pos, Tag(s.ty, s.little))
    ensures DecodeTag(bs, pos).Some? ==> DecodeTag(bs, pos).value.1 == pos + 5
  {
    var order: seq<byte> := [if s.little then 1 else 0];
    AtConcat(bs, pos, order, PutU32(s.ty, s.little));
    if pos + 5 <= |bs| {
      Canonical32(bs[pos + 1..pos + 5], s.little);
    }
  }

  // ---------------------------------------------------------------------------
  // Members
  // ---------------------------------------------------------------------------

  /** A member of a collection, in its own byte order. */
  datatype Child<T> = Child(little: bool, body: T)

  function Bodies<T>(cs: seq<Child<T>>): (xs: seq<T>)
    ensures |xs| == |cs|
  {
    seq(|cs|, i requires 0 <= i < |cs| => cs[i].body)
  }

  /** Members in little-endian order. */
  function Children<T>(xs: seq<T>): (cs: seq<Child<T>>)
    ensures |cs| == |xs|
  {
    seq(|xs|, i requires 0 <= i < |xs| => Child(true, xs[i]))
  }

  function ChildEncoder<T>(ty: U32, enc: Encoder<T>, encBig: Encoder<T>): Encoder<Child<T>> {
    (c: Child<T>) => Tag(ty, c.little) + if c.little then enc(c.body) else encBig(c.body)
  }

  function DecodeChild<T>(bs: seq<byte>, ty: U32, dec: Decoder<T>, decBig: Decoder<T>,
                          pos: nat): Option<(Child<T>, nat)> {
    match DecodeTag(bs, pos)
    case None => None
    case Some((s, next)) =>
      if s.ty != ty then None
      else if s.little then Mapped(dec(next), x => Child(true, x))
      else Mapped(decBig(next), x => Child(false, x))
  }

  function ChildDecoder<T>(bs: seq<byte>, ty: U32, dec: Decoder<T>, decBig: Decoder<T>): Decoder<Child<T>> {
    pos => DecodeChild(bs, ty, dec, decBig, pos)
  }

  function ChildOk<T>(ok: T -> bool): Child<T> -> bool {
    (c: Child<T>) => ok(c.body)
  }

  lemma ChildSoundAt<T>(bs: seq<byte>, ty: U32, dec: Decoder<T>, decBig: Decoder<T>,
                        enc: Encoder<T>, encBig: Encoder<T>, ok: T -> bool, pos: nat)
    requires Sound(bs, dec, enc, ok) && Sound(bs, decBig, encBig, ok)
    ensures SoundAt(bs, ChildDecoder(bs, ty, dec, decBig), ChildEncoder(ty, enc, encBig), ChildOk(ok), pos)
  {
    var child := DecodeChild(bs, ty, dec, decBig, pos);
    if child.Some? {
      var c, s := child.value.0, DecodeTag(bs, pos).value.0;
      TagAt(bs, pos, s);
      assert if c.little then SoundAt(bs, dec, enc, ok, pos + 5) else SoundAt(bs, decBig, encBig, ok, pos + 5);
      AtConcat(bs, pos, Tag(ty, c.little), if c.little then enc(c.body) else encBig(c.body));
    }
  }

  lemma ChildCompleteAt<T(!new)>(bs: seq<byte>, ty: U32, dec: Decoder<T>, decBig: Decoder<T>,
                                 enc: Encoder<T>, encBig: Encoder<T>, ok: T -> bool, pos: nat, c: Child<T>)
    requires Complete(bs, dec, enc, ok) && Complete(bs, decBig, encBig, ok)
    ensures CompleteAt(bs, ChildDecoder(bs, ty, dec, decBig), ChildEncoder(ty, enc, encBig), ChildOk(ok), pos, c)
  {
    TagAt(bs, pos, Start(c.little, ty));
    AtConcat(bs, pos, Tag(ty, c.little), if c.little then enc(c.body) else encBig(c.body));
    assert if c.little then CompleteAt(bs, dec, enc, ok, pos + 5, c.body)
           else CompleteAt(bs, decBig, encBig, ok, pos + 5, c.body);
  }

  lemma ChildInverse<T(!new)>(bs: seq<byte>, ty: U32, dec: Decoder<T>, decBig: Decoder<T>,
                              enc: Encoder<T>, encBig: Encoder<T>, ok: T -> bool)
    requires Inverse(bs, dec, enc, ok) && Inverse(bs, decBig, encBig, ok)
    ensures Inverse(bs, ChildDecoder(bs, ty, dec, decBig), ChildEncoder(ty, enc, encBig), ChildOk(ok))
  {
    forall pos: nat
      ensures SoundAt(bs, ChildDecoder(bs, ty, dec, decBig), ChildEncoder(ty, enc, encBig), ChildOk(ok), pos)
    {
      ChildSoundAt(bs, ty, dec, decBig, enc, encBig, ok, pos);
    }
    forall pos: nat, c
      ensures CompleteAt(bs, ChildDecoder(bs, ty, dec, decBig), ChildEncoder(ty, enc, encBig), ChildOk(ok), pos, c)
    {
      ChildCompleteAt(bs, ty, dec, decBig, enc, encBig, ok, pos, c);
    }
  }

  // ---------------------------------------------------------------------------
  // Geometries
  // ---------------------------------------------------------------------------

  datatype Shape =
    | OnePoint(p: Pt) | OneLine(pts: seq<Pt>) | OnePolygon(rings: seq<seq<Pt>>)
    | Points(points: seq<Child<Pt>>) | Lines(lines: seq<Child<seq<Pt>>>) | Polygons(polygons: seq<Child<seq<seq<Pt>>>>)

  /** A geometry together with all the byte orders it is written in. */
  datatype Wkb = Wkb(little: bool, shape: Shape)

  function EraseShape(s: Shape): Geom {
    match s
    case OnePoint(p) => Point(p)
    case OneLine(pts) => LineString(pts)
    case OnePolygon(rings) => Polygon(rings)
    case Points(cs) => MultiPoint(Bodies(cs))
    case Lines(cs) => MultiLineString(Bodies(cs))
    case Polygons(cs) => MultiPolygon(Bodies(cs))
  }

  /** The geometry it stands for. */
  function Erase(w: Wkb): Geom {
    EraseShape(w.shape)
  }

  /** The form this library writes. */
  function Plain(g: Geom): Wkb {
    Wkb(true,
        match g
        case Point(p) => OnePoint(p)
        case LineString(pts) => OneLine(pts)
        case Polygon(rings) => OnePolygon(rings)
        case MultiPoint(pts) => Points(Children(pts))
        case MultiLineString(lines) => Lines(Children(lines))
        case MultiPolygon(polys) => Polygons(Children(polys)))
  }

  lemma BodiesOfChildren<T>(xs: seq<T>)
    ensures Bodies(Children(xs)) == xs
  {
  }

  lemma ErasePlain(g: Geom)
    ensures Erase(Plain(g)) == g
  {
    match g
    case MultiPoint(pts) => BodiesOfChildren(pts);
    case MultiLineString(lines) => BodiesOfChildren(lines);
    case MultiPolygon(polys) => BodiesOfChildren(polys);
    case _ =>
  }

  datatype WkbEncoders = WkbEncoders(pt: Encoder<Pt>, ring: Encoder<seq<Pt>>, rings: Encoder<seq<seq<Pt>>>,
                                     points: Encoder<seq<Child<Pt>>>, lines: Encoder<seq<Child<seq<Pt>>>>,
                                     polygons: Encoder<seq<Child<seq<seq<Pt>>>>>)

  function PointEncoder(): Encoder<Child<Pt>> {
    ChildEncoder(TY_POINT, EncodersFor(true).pt, EncodersFor(false).pt)
  }

  function LineEncoder(): Encoder<Child<seq<Pt>>> {
    ChildEncoder(TY_LINESTRING, EncodersFor(true).ring, EncodersFor(false).ring)
  }

  function PolygonEncoder(): Encoder<Child<seq<seq<Pt>>>> {
    ChildEncoder(TY_POLYGON, EncodersFor(true).rings, EncodersFor(false).rings)
  }

  function WkbEncodersFor(little: bool): WkbEncoders {
    var count, e := CountEncoder(little), EncodersFor(little);
    WkbEncoders(e.pt, e.ring, e.rings, ListEncoder(count, PointEncoder()), ListEncoder(count, LineEncoder()),
                ListEncoder(count, PolygonEncoder()))
  }

  datatype WkbDecoders = WkbDecoders(pt: Decoder<Pt>, ring: Decoder<seq<Pt>>, rings: Decoder<seq<seq<Pt>>>,
                                     points: Decoder<seq<Child<Pt>>>, lines: Decoder<seq<Child<seq<Pt>>>>,
                                     polygons: Decoder<seq<Child<seq<seq<Pt>>>>>)

  function PointDecoder(bs: seq<byte>): Decoder<Child<Pt>> {
    ChildDecoder(bs, TY_POINT, DecodersFor(bs, true).pt, DecodersFor(bs, false).pt)
  }

  function LineDecoder(bs: seq<byte>): Decoder<Child<seq<Pt>>> {
    ChildDecoder(bs, TY_LINESTRING, DecodersFor(bs, true).ring, DecodersFor(bs, false).ring)
  }

  function PolygonDecoder(bs: seq<byte>): Decoder<Child<seq<seq<Pt>>>> {
    ChildDecoder(bs, TY_POLYGON, DecodersFor(bs, true).rings, DecodersFor(bs, false).rings)
  }

  function WkbDecodersFor(bs: seq<byte>, little: bool): WkbDecoders {
    var count, d := CountDecoder(bs, little), DecodersFor(bs, little);
    WkbDecoders(d.pt, d.ring, d.rings, ListDecoder(count, PointDecoder(bs), 5 + 16, |bs|),
                ListDecoder(count, LineDecoder(bs), 5 + 4, |bs|), ListDecoder(count, PolygonDecoder(bs), 5 + 4, |bs|))
  }

  // Every count fits the `u32` it is written as.
  function PointsOk(): seq<Child<Pt>> -> bool { ListOk(ChildOk(AnyPt)) }
  function LinesOk(): seq<Child<seq<Pt>>> -> bool { ListOk(ChildOk(RingFits)) }
  function PolygonsOk(): seq<Child<seq<seq<Pt>>>> -> bool { ListOk(ChildOk(RingsFit)) }

  ghost predicate AllWkbInverse(bs: seq<byte>, d: WkbDecoders, e: WkbEncoders) {
    && Inverse(bs, d.pt, e.pt, AnyPt)
    && Inverse(bs, d.ring, e.ring, RingFits)
    && Inverse(bs, d.rings, e.rings, RingsFit)
    && Inverse(bs, d.points, e.points, PointsOk())
    && Inverse(bs, d.lines, e.lines, LinesOk())
    && Inverse(bs, d.polygons, e.polygons, PolygonsOk())
  }

  lemma ChildrenInverse<T(!new)>(bs: seq<byte>, ty: U32, dec: Decoder<T>, decBig: Decoder<T>, enc: Encoder<T>,
                                 encBig: Encoder<T>, ok: T -> bool, perItem: nat, little: bool)
    requires Inverse(bs, dec, enc, ok) && Inverse(bs, decBig, encBig, ok)
    requires forall x :: |enc(x)| >= perItem && |encBig(x)| >= perItem
    ensures Inverse(bs, ListDecoder(CountDecoder(bs, little), ChildDecoder(bs, ty, dec, decBig), perItem + 5, |bs|),
                    ListEncoder(CountEncoder(little), ChildEncoder(ty, enc, encBig)), ListOk(ChildOk(ok)))
  {
    CountInverse(bs, little);
    ChildInverse(bs, ty, dec, decBig, enc, encBig, ok);
    var cEnc := ChildEncoder(ty, enc, encBig);
    forall c ensures |cEnc(c)| >= perItem + 5 {
      assert |Tag(ty, c.little)| == 5;
    }
    ListInverse(bs, CountDecoder(bs, little), CountEncoder(little), ChildDecoder(bs, ty, dec, decBig),
                cEnc, ChildOk(ok), perItem + 5);
  }

  lemma AllPayloadsInverse(bs: seq<byte>, little: bool)
    ensures AllWkbInverse(bs, WkbDecodersFor(bs, little), WkbEncodersFor(little))
  {
    var d, e, d', e' := DecodersFor(bs, true), EncodersFor(true), DecodersFor(bs, false), EncodersFor(false);
    PayloadsInverse(bs, true);
    PayloadsInverse(bs, false);
    ChildrenInverse(bs, TY_POINT, d.pt, d'.pt, e.pt, e'.pt, AnyPt, 16, little);
    ChildrenInverse(bs, TY_LINESTRING, d.ring, d'.ring, e.ring, e'.ring, RingFits, 4, little);
    ChildrenInverse(bs, TY_POLYGON, d.rings, d'.rings, e.rings, e'.rings, RingsFit, 4, little);
  }

  predicate ShapeOk(s: Shape) {
    match s
    case OnePoint(_) => true
    case OneLine(pts) => RingFits(pts)
    case OnePolygon(rings) => RingsFit(rings)
    case Points(cs) => PointsOk()(cs)
    case Lines(cs) => LinesOk()(cs)
    case Polygons(cs) => PolygonsOk()(cs)
  }

  function ShapeCode(s: Shape): U32 {
    match s
    case OnePoint(_) => TY_POINT
    case OneLine(_) => TY_LINESTRING
    case OnePolygon(_) => TY_POLYGON
    case Points(_) => TY_MULTIPOINT
    case Lines(_) => TY_MULTILINESTRING
    case Polygons(_) => TY_MULTIPOLYGON
  }

  function EncodeShape(e: WkbEncoders, s: Shape): seq<byte> {
    match s
    case OnePoint(p) => e.pt(p)
    case OneLine(pts) => e.ring(pts)
    case OnePolygon(rings) => e.rings(rings)
    case Points(cs) => e.points(cs)
    case Lines(cs) => e.lines(cs)
    case Polygons(cs) => e.polygons(cs)
  }

  function DecodeShape(d: WkbDecoders, pos: nat, ty: nat): Option<(Shape, nat)> {
    if ty == TY_POINT then Mapped(d.pt(pos), p => OnePoint(p))
    else if ty == TY_LINESTRING then Mapped(d.ring(pos), pts => OneLine(pts))
    else if ty == TY_POLYGON then Mapped(d.rings(pos), rings => OnePolygon(rings))
    else if ty == TY_MULTIPOINT then Mapped(d.points(pos), cs => Points(cs))
    else if ty == TY_MULTILINESTRING then Mapped(d.lines(pos), cs => Lines(cs))
    else if ty == TY_MULTIPOLYGON then Mapped(d.polygons(pos), cs => Polygons(cs))
    else None
  }

  function EncodeFrom(e: WkbEncoders, eBig: WkbEncoders, w: Wkb): seq<byte> {
    Tag(ShapeCode(w.shape), w.little) + EncodeShape(if w.little then e else eBig, w.shape)
  }

  function DecodeFrom(tag: Option<(Start, nat)>, d: WkbDecoders, dBig: WkbDecoders): Option<(Wkb, nat)> {
    match tag
    case None => None
    case Some((s, next)) => Mapped(DecodeShape(if s.little then d else dBig, next, s.ty), shape => Wkb(s.little, shape))
  }

  function EncodeWkb(w: Wkb): seq<byte> {
    EncodeFrom(WkbEncodersFor(true), WkbEncodersFor(false), w)
  }

  function DecodeWkb(bs: seq<byte>, pos: nat): Option<(Wkb, nat)> {
    DecodeFrom(DecodeTag(bs, pos), WkbDecodersFor(bs, true), WkbDecodersFor(bs, false))
  }

  lemma ShapeSound(bs: seq<byte>, d: WkbDecoders, e: WkbEncoders, pos: nat, ty: nat)
    requires AllWkbInverse(bs, d, e) && DecodeShape(d, pos, ty).Some?
    ensures var (s, next) := DecodeShape(d, pos, ty).value;
            ShapeCode(s) == ty && ShapeOk(s) && At(bs, pos, EncodeShape(e, s)) && next == pos + |EncodeShape(e, s)|
  {
    assert SoundAt(bs, d.pt, e.pt, AnyPt, pos);
    assert SoundAt(bs, d.ring, e.ring, RingFits, pos);
    assert SoundAt(bs, d.rings, e.rings, RingsFit, pos);
    assert SoundAt(bs, d.points, e.points, PointsOk(), pos);
    assert SoundAt(bs, d.lines, e.lines, LinesOk(), pos);
    assert SoundAt(bs, d.polygons, e.polygons, PolygonsOk(), pos);
  }

  lemma ShapeComplete(bs: seq<byte>, d: WkbDecoders, e: WkbEncoders, pos: nat, s: Shape)
    requires AllWkbInverse(bs, d, e) && ShapeOk(s) && At(bs, pos, EncodeShape(e, s))
    ensures DecodeShape(d, pos, ShapeCode(s)) == Some((s, pos + |EncodeShape(e, s)|))
  {
    match s
    case OnePoint(p) => assert CompleteAt(bs, d.pt, e.pt, AnyPt, pos, p);
    case OneLine(pts) => assert CompleteAt(bs, d.ring, e.ring, RingFits, pos, pts);
    case OnePolygon(rings) => assert CompleteAt(bs, d.rings, e.rings, RingsFit, pos, rings);
    case Points(cs) => assert CompleteAt(bs, d.points, e.points, PointsOk(), pos, cs);
    case Lines(cs) => assert CompleteAt(bs, d.lines, e.lines, LinesOk(), pos, cs);
    case Polygons(cs) => assert CompleteAt(bs, d.polygons, e.polygons, PolygonsOk(), pos, cs);
  }

  lemma ShapeInverse(bs: seq<byte>, pos: nat, shape: Shape, next: nat, tag: seq<byte>, d: WkbDecoders, e: WkbEncoders)
    requires AllWkbInverse(bs, d, e) && |tag| == 5
    ensures At(bs, pos, tag) && DecodeShape(d, pos + 5, ShapeCode(shape)) == Some((shape, next))
            <==> ShapeOk(shape) && At(bs, pos, tag + EncodeShape(e, shape)) &&
                 next == pos + |tag + EncodeShape(e, shape)|
  {
    var body, ty := EncodeShape(e, shape), ShapeCode(shape);
    AtConcat(bs, pos, tag, body);
    if DecodeShape(d, pos + 5, ty) == Some((shape, next)) {
      ShapeSound(bs, d, e, pos + 5, ty);
    }
    if ShapeOk(shape) && At(bs, pos + 5, body) {
      ShapeComplete(bs, d, e, pos + 5, shape);
    }
  }

  lemma WkbInverseWith(bs: seq<byte>, pos: nat, w: Wkb, next: nat,
                       d: WkbDecoders, dBig: WkbDecoders, e: WkbEncoders, eBig: WkbEncoders)
    requires AllWkbInverse(bs, d, e) && AllWkbInverse(bs, dBig, eBig)
    ensures DecodeFrom(DecodeTag(bs, pos), d, dBig) == Some((w, next)) <==>
            ShapeOk(w.shape) && At(bs, pos, EncodeFrom(e, eBig, w)) && next == pos + |EncodeFrom(e, eBig, w)|
  {
    var ty, myD, myE := ShapeCode(w.shape), if w.little then d else dBig, if w.little then e else eBig;
    TagAt(bs, pos, Start(w.little, ty));
    ShapeInverse(bs, pos, w.shape, next, Tag(ty, w.little), myD, myE);
    if DecodeFrom(DecodeTag(bs, pos), d, dBig) == Some((w, next)) {
      var s := DecodeTag(bs, pos).value.0;
      ShapeSound(bs, myD, myE, pos + 5, s.ty);
    }
  }

  /** A geometry with its byte orders is decoded at a position if and only if its encoding stands there. */
  lemma WkbInverse(bs: seq<byte>, pos: nat, w: Wkb, next: nat)
    ensures DecodeWkb(bs, pos) == Some((w, next)) <==>
            ShapeOk(w.shape) && At(bs, pos, EncodeWkb(w)) && next == pos + |EncodeWkb(w)|
  {
    AllPayloadsInverse(bs, true);
    AllPayloadsInverse(bs, false);
    WkbInverseWith(bs, pos, w, next, WkbDecodersFor(bs, true), WkbDecodersFor(bs, false), WkbEncodersFor(true),
                   WkbEncodersFor(false));
  }
}
