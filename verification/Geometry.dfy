/** Geometries, the coordinate walk and the bounding box (crates/shpx-geom/src/geom_walk.rs). */
module Geometry {
  import opened Lists
  import opened Wrappers
  import opened Doubles

  datatype Pt = Pt(x: F64, y: F64)

  datatype Geom =
    | Point(p: Pt)
    | LineString(pts: seq<Pt>)
    | Polygon(rings: seq<seq<Pt>>)
    | MultiPoint(points: seq<Pt>)
    | MultiLineString(lines: seq<seq<Pt>>)
    | MultiPolygon(polys: seq<seq<seq<Pt>>>)

  // ---------------------------------------------------------------------------
  // The walk
  // ---------------------------------------------------------------------------

  /** All coordinates in serialization order: geometry, ring, point. */
  function Coords(g: Geom): seq<Pt> {
    match g
    case Point(p) => [p]
    case LineString(pts) => pts
    case MultiPoint(pts) => pts
    case Polygon(rings) => Joined(rings)
    case MultiLineString(rings) => Joined(rings)
    case MultiPolygon(polys) => Joined(Joined(polys))
  }

  lemma {:induction false} InJoined<T>(ss: seq<seq<T>>, x: T)
    ensures x in Joined(ss) <==> exists i :: 0 <= i < |ss| && x in ss[i]
  {
    if ss != [] {
      InJoined(ss[..|ss| - 1], x);
    }
  }

  /** The point is one of the geometry's, in whichever ring or member. */
  ghost predicate HasPoint(g: Geom, p: Pt) {
    match g
    case Point(q) => p == q
    case LineString(pts) => p in pts
    case MultiPoint(pts) => p in pts
    case Polygon(rings) => exists i :: 0 <= i < |rings| && p in rings[i]
    case MultiLineString(lines) => exists i :: 0 <= i < |lines| && p in lines[i]
    case MultiPolygon(polys) => exists i, j :: 0 <= i < |polys| && 0 <= j < |polys[i]| && p in polys[i][j]
  }

  /** No ring, hole or member is passed over, and nothing else is visited. */
  lemma CoordsAreAllPoints(g: Geom, p: Pt)
    ensures p in Coords(g) <==> HasPoint(g, p)
  {
    match g
    case Polygon(rings) => InJoined(rings, p);
    case MultiLineString(lines) => InJoined(lines, p);
    case MultiPolygon(polys) =>
      var rings := Joined(polys);
      InJoined(rings, p);
      if i :| 0 <= i < |rings| && p in rings[i] {
        InJoined(polys, rings[i]);
        var k :| 0 <= k < |polys| && rings[i] in polys[k];
        var j :| 0 <= j < |polys[k]| && polys[k][j] == rings[i];
        assert p in polys[k][j];
      }
      if HasPoint(g, p) {
        var k, j :| 0 <= k < |polys| && 0 <= j < |polys[k]| && p in polys[k][j];
        InJoined(polys, polys[k][j]);
        var i :| 0 <= i < |rings| && rings[i] == polys[k][j];
        assert p in rings[i];
      }
    case _ =>
  }

  // ---------------------------------------------------------------------------
  // The bounding box
  // ---------------------------------------------------------------------------

  function Xs(ps: seq<Pt>): (r: seq<F64>)
    ensures |r| == |ps|
  {
    seq(|ps|, i requires 0 <= i < |ps| => ps[i].x)
  }

  function Ys(ps: seq<Pt>): (r: seq<F64>)
    ensures |r| == |ps|
  {
    seq(|ps|, i requires 0 <= i < |ps| => ps[i].y)
  }

  /** No number of `vs` is below `m`, and `m` is one of them, or positive infinity over nothing. */
  ghost predicate IsMin(vs: seq<F64>, m: F64) {
    && !IsNaN(m)
    && (m == INFINITY || m in vs)
    && forall v <- vs :: IsNaN(v) || !Below(v, m)
  }

  ghost predicate IsMax(vs: seq<F64>, m: F64) {
    && !IsNaN(m)
    && (m == NEG_INFINITY || m in vs)
    && forall v <- vs :: IsNaN(v) || !Below(m, v)
  }

  /** Some number is there and no infinity is; NaN is passed over. */
  ghost predicate Bounded(vs: seq<F64>) {
    (exists v <- vs :: IsFinite(v)) && forall v <- vs :: IsNaN(v) || IsFinite(v)
  }

  datatype Mbr = Mbr(minX: F64, minY: F64, maxX: F64, maxY: F64)

  /** Contains every coordinate, and every bound is attained. */
  ghost predicate Tight(cs: seq<Pt>, m: Mbr) {
    && IsMin(Xs(cs), m.minX) && IsMin(Ys(cs), m.minY)
    && IsMax(Xs(cs), m.maxX) && IsMax(Ys(cs), m.maxY)
  }

  const NO_BOX := Mbr(INFINITY, INFINITY, NEG_INFINITY, NEG_INFINITY)

  function Lower(m: F64, v: F64): F64 { if Less(v, m) then v else m }
  function Upper(m: F64, v: F64): F64 { if Less(m, v) then v else m }

  function Extended(m: Mbr, p: Pt): Mbr {
    Mbr(Lower(m.minX, p.x), Lower(m.minY, p.y), Upper(m.maxX, p.x), Upper(m.maxY, p.y))
  }

  /** The box after visiting `cs` in order. */
  function ExtendedAll(m: Mbr, cs: seq<Pt>): Mbr {
    Fold(Extended, m, cs)
  }

  lemma ExtendedConcat(m: Mbr, a: seq<Pt>, b: seq<Pt>)
    ensures ExtendedAll(m, a + b) == ExtendedAll(ExtendedAll(m, a), b)
  {
    FoldConcat(Extended, m, a, b);
  }

  lemma LowerIsMin(vs: seq<F64>, m: F64, v: F64)
    requires IsMin(vs, m)
    ensures IsMin(vs + [v], Lower(m, v))
  {
    var low := Lower(m, v);
    forall w <- vs + [v] ensures IsNaN(w) || !Below(w, low) {
      assert w in vs || w == v;
      LessIffBelow(w, m);
      LessIffBelow(w, low);
    }
  }

  lemma UpperIsMax(vs: seq<F64>, m: F64, v: F64)
    requires IsMax(vs, m)
    ensures IsMax(vs + [v], Upper(m, v))
  {
    var high := Upper(m, v);
    forall w <- vs + [v] ensures IsNaN(w) || !Below(high, w) {
      assert w in vs || w == v;
      LessIffBelow(m, w);
      LessIffBelow(high, w);
    }
  }

  lemma TightStep(cs: seq<Pt>, m: Mbr, p: Pt)
    requires Tight(cs, m)
    ensures Tight(cs + [p], Extended(m, p))
  {
    assert Xs(cs + [p]) == Xs(cs) + [p.x] && Ys(cs + [p]) == Ys(cs) + [p.y];
    LowerIsMin(Xs(cs), m.minX, p.x);
    LowerIsMin(Ys(cs), m.minY, p.y);
    UpperIsMax(Xs(cs), m.maxX, p.x);
    UpperIsMax(Ys(cs), m.maxY, p.y);
  }

  lemma NothingIsTight()
    ensures Tight([], NO_BOX)
  {
    Infinities();
  }

  /** The running box is the tight box of what was visited. */
  lemma {:induction false} ExtendedIsTight(cs: seq<Pt>)
    ensures Tight(cs, ExtendedAll(NO_BOX, cs))
  {
    if cs == [] {
      NothingIsTight();
    } else {
      var front, last := cs[..|cs| - 1], cs[|cs| - 1];
      assert cs == front + [last];
      var m := ExtendedAll(NO_BOX, front);
      assert ExtendedAll(NO_BOX, cs) == Extended(m, last);
      assert Tight(cs, Extended(m, last)) by {
        ExtendedIsTight(front);
        TightStep(front, m, last);
      }
    }
  }

  /** The four variables the visiting closure updates. */
  class Bounds {
    var minX: F64
    var minY: F64
    var maxX: F64
    var maxY: F64

    function Box(): Mbr
      reads this
    {
      Mbr(minX, minY, maxX, maxY)
    }

    constructor ()
      ensures Box() == NO_BOX
    {
      minX, minY, maxX, maxY := INFINITY, INFINITY, NEG_INFINITY, NEG_INFINITY;
    }

    method Visit(p: Pt)
      modifies this
      ensures Box() == Extended(old(Box()), p)
    {
      if Less(p.x, minX) {
        minX := p.x;
      }
      if Less(p.y, minY) {
        minY := p.y;
      }
      if Less(maxX, p.x) {
        maxX := p.x;
      }
      if Less(maxY, p.y) {
        maxY := p.y;
      }
    }
  }

  method WalkPts(pts: seq<Pt>, b: Bounds)
    modifies b
    ensures b.Box() == ExtendedAll(old(b.Box()), pts)
  {
    for i := 0 to |pts|
      invariant b.Box() == ExtendedAll(old(b.Box()), pts[..i])
    {
      assert pts[..i + 1][..i] == pts[..i];
      b.Visit(pts[i]);
    }
    assert pts[..|pts|] == pts;
  }

  method WalkRings(rings: seq<seq<Pt>>, b: Bounds)
    modifies b
    ensures b.Box() == ExtendedAll(old(b.Box()), Joined(rings))
  {
    for i := 0 to |rings|
      invariant b.Box() == ExtendedAll(old(b.Box()), Joined(rings[..i]))
    {
      JoinedStep(rings, i);
      ExtendedConcat(old(b.Box()), Joined(rings[..i]), rings[i]);
      WalkPts(rings[i], b);
    }
    assert rings[..|rings|] == rings;
  }

  /** `walk_ref` with the bounds closure. */
  method Walk(g: Geom, b: Bounds)
    modifies b
    ensures b.Box() == ExtendedAll(old(b.Box()), Coords(g))
  {
    match g {
      case Point(p) => WalkPts([p], b);
      case LineString(pts) => WalkPts(pts, b);
      case MultiPoint(pts) => WalkPts(pts, b);
      case Polygon(rings) => WalkRings(rings, b);
      case MultiLineString(rings) => WalkRings(rings, b);
      case MultiPolygon(polys) =>
        for i := 0 to |polys|
          invariant b.Box() == ExtendedAll(old(b.Box()), Joined(Joined(polys[..i])))
        {
          JoinedStep(polys, i);
          JoinedConcat(Joined(polys[..i]), polys[i]);
          ExtendedConcat(old(b.Box()), Joined(Joined(polys[..i])), Joined(polys[i]));
          WalkRings(polys[i], b);
        }
        assert polys[..|polys|] == polys;
    }
  }

  lemma FiniteBounds(vs: seq<F64>, lo: F64, hi: F64)
    requires IsMin(vs, lo) && IsMax(vs, hi)
    ensures IsFinite(lo) && IsFinite(hi) <==> Bounded(vs)
  {
    Infinities();
    if IsFinite(lo) && IsFinite(hi) {
      assert lo in vs;
      forall v <- vs
        ensures IsNaN(v) || IsFinite(v)
      {
        assert IsNaN(v) || (!Below(v, lo) && !Below(hi, v));
      }
    }
    if Bounded(vs) {
      var f :| f in vs && IsFinite(f);
      assert !Below(f, lo) && !Below(hi, f);
    }
  }

  /**
    `compute_mbr`: there is a box exactly when both axes are bounded, and then the box is tight.
   */
  method ComputeMbr(g: Geom) returns (r: Option<Mbr>)
    ensures r.Some? <==> Bounded(Xs(Coords(g))) && Bounded(Ys(Coords(g)))
    ensures r.Some? ==> Tight(Coords(g), r.value)
  {
    var b := new Bounds();
    Walk(g, b);
    ExtendedIsTight(Coords(g));
    FiniteBounds(Xs(Coords(g)), b.minX, b.maxX);
    FiniteBounds(Ys(Coords(g)), b.minY, b.maxY);
    if !IsFinite(b.minX) || !IsFinite(b.minY) || !IsFinite(b.maxX) || !IsFinite(b.maxY) {
      return None;
    }
    return Some(b.Box());
  }
}
