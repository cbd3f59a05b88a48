/** Reading SpatiaLite blobs with a cursor (crates/shpx-geom/src/spatialite_blob.rs). */
module SpatialiteReader {
  import opened Wrappers
  import opened MachineInts
  import opened ByteOrder
  import opened Framing
  import opened Doubles
  import opened Geometry
  import opened SpatialiteFormat
  import opened SpatialiteBlob

  /** What a reading step returns and where it stops, against the decoder that specifies it. */
  ghost predicate Follows<T>(r: Result<T, GeometryError>, pos: nat, spec: Option<(T, nat)>) {
    match spec
    case None => r.Err?
    case Some((x, next)) => r == Ok(x) && pos == next
  }

  /** The part of a list behind its count: the guard, then the items. */
  function DecodeCounted<T>(dec: Decoder<T>, perItem: nat, size: nat, pos: nat, n: nat): Option<(seq<T>, nat)> {
    if n * perItem > size - pos then None else DecodeItems(dec, pos, n, [])
  }

  class Cursor {
    const bytes: seq<byte>
    var pos: nat

    ghost predicate Valid()
      reads this
    {
      pos <= |bytes|
    }

    constructor (bytes: seq<byte>, pos: nat)
      requires pos <= |bytes|
      ensures Valid() && this.bytes == bytes && this.pos == pos
    {
      this.bytes, this.pos := bytes, pos;
    }

    method EnsureRemainingFor(count: nat, perItem: nat) returns (r: Result<(), GeometryError>)
      requires Valid()
      ensures r.Ok? <==> count * perItem <= |bytes| - pos
    {
      if count * perItem > |bytes| - pos {
        return Err(GeometryError);
      }
      return Ok(());
    }

    method Take(n: nat) returns (r: Result<seq<byte>, GeometryError>)
      requires Valid()
      modifies this
      ensures Valid()
      ensures Follows(r, pos, if old(pos) + n > |bytes| then None
                              else Some((bytes[old(pos)..old(pos) + n], old(pos) + n)))
    {
      var end := pos + n;
      if end > |bytes| {
        return Err(GeometryError);
      }
      var s := bytes[pos..end];
      pos := end;
      return Ok(s);
    }

    method ReadU32(little: bool) returns (r: Result<nat, GeometryError>)
      requires Valid()
      modifies this
      ensures Valid() && Follows(r, pos, DecodeCount(bytes, old(pos), little))
    {
      var s :- Take(4);
      return Ok(GetU32(s, little));
    }

    method ReadF64(little: bool) returns (r: Result<F64, GeometryError>)
      requires Valid()
      modifies this
      ensures Valid()
      ensures Follows(r, pos, if old(pos) + 8 > |bytes| then None
                              else Some((GetF64(bytes[old(pos)..old(pos) + 8], little), old(pos) + 8)))
    {
      var s :- Take(8);
      return Ok(GetF64(s, little));
    }

    method ReadPt(little: bool) returns (r: Result<Pt, GeometryError>)
      requires Valid()
      modifies this
      ensures Valid() && Follows(r, pos, DecodePt(bytes, old(pos), little))
    {
      var x :- ReadF64(little);
      var y :- ReadF64(little);
      return Ok(Pt(x, y));
    }

    method ReadPts(n: nat, little: bool) returns (r: Result<seq<Pt>, GeometryError>)
      requires Valid()
      modifies this
      ensures Valid() && Follows(r, pos, DecodeCounted(PtDecoder(bytes, little), 16, |bytes|, old(pos), n))
    {
      var _ :- EnsureRemainingFor(n, 16);
      ghost var dec := PtDecoder(bytes, little);
      var pts: seq<Pt> := [];
      for i := 0 to n
        invariant Valid() && DecodeItems(dec, pos, n - i, pts) == DecodeItems(dec, old(pos), n, [])
      {
        var p :- ReadPt(little);
        pts := pts + [p];
      }
      return Ok(pts);
    }

    /** A ring: its count, then its points. */
    method ReadRing(little: bool) returns (r: Result<seq<Pt>, GeometryError>)
      requires Valid()
      modifies this
      ensures Valid() && Follows(r, pos, DecodersFor(bytes, little).ring(old(pos)))
    {
      var np :- ReadU32(little);
      r := ReadPts(np, little);
    }

    method ReadRings(n: nat, little: bool) returns (r: Result<seq<seq<Pt>>, GeometryError>)
      requires Valid()
      modifies this
      ensures Valid() && Follows(r, pos, DecodeCounted(DecodersFor(bytes, little).ring, 4, |bytes|, old(pos), n))
    {
      var _ :- EnsureRemainingFor(n, 4);
      ghost var dec := DecodersFor(bytes, little).ring;
      var rings: seq<seq<Pt>> := [];
      for i := 0 to n
        invariant Valid() && DecodeItems(dec, pos, n - i, rings) == DecodeItems(dec, old(pos), n, [])
      {
        var ring :- ReadRing(little);
        rings := rings + [ring];
      }
      return Ok(rings);
    }

    /** A polygon: its ring count, then its rings. */
    method ReadPolygon(little: bool) returns (r: Result<seq<seq<Pt>>, GeometryError>)
      requires Valid()
      modifies this
      ensures Valid() && Follows(r, pos, DecodersFor(bytes, little).rings(old(pos)))
    {
      var nRings :- ReadU32(little);
      r := ReadRings(nRings, little);
    }

    /** `expect_entity_marker` and the type check behind it. */
    method ExpectMember(ty: U32, little: bool) returns (r: Result<(), GeometryError>)
      requires Valid()
      modifies this
      ensures Valid() && (r.Ok? <==> At(bytes, old(pos), MemberTag(ty, little)))
      ensures r.Ok? ==> pos == old(pos) + 5
    {
      AtConcat(bytes, pos, [GAIA_MARK_ENTITY], PutU32(ty, little));
      var m :- Take(1);
      if m[0] != GAIA_MARK_ENTITY {
        return Err(GeometryError);
      }
      if pos + 4 <= |bytes| {
        Canonical32(bytes[pos..pos + 4], little);
      }
      var sub :- ReadU32(little);
      if sub != ty {
        return Err(GeometryError);
      }
      return Ok(());
    }

    method ReadPointMembers(n: nat, little: bool) returns (r: Result<seq<Pt>, GeometryError>)
      requires Valid()
      modifies this
      ensures Valid()
      ensures Follows(r, pos, DecodeCounted(TaggedDecoder(bytes, MemberTag(TY_POINT, little), PtDecoder(bytes, little)),
                                            21, |bytes|, old(pos), n))
    {
      var _ :- EnsureRemainingFor(n, 1 + 4 + 16);
      ghost var dec := TaggedDecoder(bytes, MemberTag(TY_POINT, little), PtDecoder(bytes, little));
      var pts: seq<Pt> := [];
      for i := 0 to n
        invariant Valid() && DecodeItems(dec, pos, n - i, pts) == DecodeItems(dec, old(pos), n, [])
      {
        var _ :- ExpectMember(TY_POINT, little);
        var p :- ReadPt(little);
        pts := pts + [p];
      }
      return Ok(pts);
    }

    method ReadMultiPoint(little: bool) returns (r: Result<seq<Pt>, GeometryError>)
      requires Valid()
      modifies this
      ensures Valid() && Follows(r, pos, DecodersFor(bytes, little).points(old(pos)))
    {
      var n :- ReadU32(little);
      r := ReadPointMembers(n, little);
    }

    method ReadLineMembers(n: nat, little: bool) returns (r: Result<seq<seq<Pt>>, GeometryError>)
      requires Valid()
      modifies this
      ensures Valid()
      ensures Follows(r, pos, DecodeCounted(TaggedDecoder(bytes, MemberTag(TY_LINESTRING, little),
                                                          DecodersFor(bytes, little).ring),
                                            9, |bytes|, old(pos), n))
    {
      var _ :- EnsureRemainingFor(n, 1 + 4 + 4);
      ghost var dec := TaggedDecoder(bytes, MemberTag(TY_LINESTRING, little), DecodersFor(bytes, little).ring);
      var lines: seq<seq<Pt>> := [];
      for i := 0 to n
        invariant Valid() && DecodeItems(dec, pos, n - i, lines) == DecodeItems(dec, old(pos), n, [])
      {
        var _ :- ExpectMember(TY_LINESTRING, little);
        var line :- ReadRing(little);
        lines := lines + [line];
      }
      return Ok(lines);
    }

    method ReadMultiLineString(little: bool) returns (r: Result<seq<seq<Pt>>, GeometryError>)
      requires Valid()
      modifies this
      ensures Valid() && Follows(r, pos, DecodersFor(bytes, little).lines(old(pos)))
    {
      var n :- ReadU32(little);
      r := ReadLineMembers(n, little);
    }

    method ReadPolygonMembers(n: nat, little: bool) returns (r: Result<seq<seq<seq<Pt>>>, GeometryError>)
      requires Valid()
      modifies this
      ensures Valid()
      ensures Follows(r, pos, DecodeCounted(TaggedDecoder(bytes, MemberTag(TY_POLYGON, little),
                                                          DecodersFor(bytes, little).rings),
                                            9, |bytes|, old(pos), n))
    {
      var _ :- EnsureRemainingFor(n, 1 + 4 + 4);
      ghost var dec := TaggedDecoder(bytes, MemberTag(TY_POLYGON, little), DecodersFor(bytes, little).rings);
      var polys: seq<seq<seq<Pt>>> := [];
      for i := 0 to n
        invariant Valid() && DecodeItems(dec, pos, n - i, polys) == DecodeItems(dec, old(pos), n, [])
      {
        var _ :- ExpectMember(TY_POLYGON, little);
        var rings :- ReadPolygon(little);
        polys := polys + [rings];
      }
      return Ok(polys);
    }

    method ReadMultiPolygon(little: bool) returns (r: Result<seq<seq<seq<Pt>>>, GeometryError>)
      requires Valid()
      modifies this
      ensures Valid() && Follows(r, pos, DecodersFor(bytes, little).polys(old(pos)))
    {
      var n :- ReadU32(little);
      r := ReadPolygonMembers(n, little);
    }

    /** `read_inner`: any type code outside 1..6, geometry collections included, is refused. */
    method ReadInner(little: bool) returns (r: Result<Geom, GeometryError>)
      requires Valid()
      modifies this
      ensures Valid() && Follows(r, pos, DecodeGeom(bytes, old(pos), little))
    {
      var ty :- ReadU32(little);
      if ty == TY_POINT {
        var p :- ReadPt(little);
        return Ok(Point(p));
      } else if ty == TY_LINESTRING {
        var pts :- ReadRing(little);
        return Ok(LineString(pts));
      } else if ty == TY_POLYGON {
        var rings :- ReadPolygon(little);
        return Ok(Polygon(rings));
      } else if ty == TY_MULTIPOINT {
        var pts :- ReadMultiPoint(little);
        return Ok(MultiPoint(pts));
      } else if ty == TY_MULTILINESTRING {
        var lines :- ReadMultiLineString(little);
        return Ok(MultiLineString(lines));
      } else if ty == TY_MULTIPOLYGON {
        var polys :- ReadMultiPolygon(little);
        return Ok(MultiPolygon(polys));
      }
      return Err(GeometryError);
    }
  }
}
