/** PostGIS EWKB: a WKB value with an SRID behind its type word (crates/shpx-geom/src/ewkb.rs). */
module Ewkb {
  import opened Wrappers
  import opened MachineInts
  import opened ByteOrder

  const SRID_FLAG: U32 := 0x2000_0000
  const M_FLAG: U32 := 0x4000_0000
  const Z_FLAG: U32 := 0x8000_0000

  datatype EwkbError = TooShort | BadByteOrder | AlreadyTagged | HasZM | Truncated

  // `flag` is a power of two throughout.
  predicate Has(ty: U32, flag: U32) requires flag > 0 { ty / flag % 2 == 1 }
  function Set(ty: U32, flag: U32): int requires flag > 0 { if Has(ty, flag) then ty else ty as int + flag }
  function Cleared(ty: U32, flag: U32): int requires flag > 0 { if Has(ty, flag) then ty as int - flag else ty }

  function TypeWord(bs: seq<byte>): U32
    requires |bs| >= 5
  {
    GetU32(bs[1..5], bs[0] == 1)
  }

  /** `encode_with_srid`. */
  function EncodeWithSrid(wkb: seq<byte>, srid: I32): Result<seq<byte>, EwkbError> {
    if |wkb| < 5 then Err(TooShort)
    else if wkb[0] > 1 then Err(BadByteOrder)
    else
      var little, ty := wkb[0] == 1, TypeWord(wkb);
      if Has(ty, SRID_FLAG) then Err(AlreadyTagged)
      else if Has(ty, Z_FLAG) || Has(ty, M_FLAG) then Err(HasZM)
      else Ok([wkb[0]] + PutU32(Set(ty, SRID_FLAG), little) + PutI32(srid, little) + wkb[5..])
  }

  /** `strip_srid`. */
  function StripSrid(ewkb: seq<byte>): Result<(seq<byte>, Option<I32>), EwkbError> {
    if |ewkb| < 5 then Err(TooShort)
    else if ewkb[0] > 1 then Err(BadByteOrder)
    else
      var little, ty := ewkb[0] == 1, TypeWord(ewkb);
      if Has(ty, Z_FLAG) || Has(ty, M_FLAG) then Err(HasZM)
      else if !Has(ty, SRID_FLAG) then Ok((ewkb, None))
      else if |ewkb| < 9 then Err(Truncated)
      else Ok(([ewkb[0]] + PutU32(Cleared(ty, SRID_FLAG), little) + ewkb[9..], Some(GetI32(ewkb[5..9], little))))
  }

  /** The SRID bit moves in and out without touching the Z and M bits. */
  lemma FlagMoves(ty: U32)
    requires !Has(ty, Z_FLAG) && !Has(ty, M_FLAG)
    ensures Has(ty, SRID_FLAG) <==> ty >= SRID_FLAG
    ensures !Has(ty, SRID_FLAG) ==>
              var t := Set(ty, SRID_FLAG);
              t < 0x4000_0000 && Has(t, SRID_FLAG) && !Has(t, Z_FLAG) && !Has(t, M_FLAG) && Cleared(t, SRID_FLAG) == ty
    ensures Has(ty, SRID_FLAG) ==>
              var t := Cleared(ty, SRID_FLAG);
              0 <= t < SRID_FLAG && !Has(t, SRID_FLAG) && !Has(t, Z_FLAG) && !Has(t, M_FLAG) && Set(t, SRID_FLAG) == ty
  {
  }

  lemma TypeWordOf(order: byte, ty: U32, rest: seq<byte>)
    requires order <= 1
    ensures TypeWord([order] + PutU32(ty, order == 1) + rest) == ty
  {
  }

  lemma FlagsBelow(ty: U32)
    ensures ty < 0x2000_0000 <==> !Has(ty, SRID_FLAG) && !Has(ty, Z_FLAG) && !Has(ty, M_FLAG)
  {
  }

  /** Taggable are the values with a byte order and a type below the three flag bits. */
  lemma TaggableTypes(w: seq<byte>, srid: I32)
    ensures EncodeWithSrid(w, srid).Ok? <==>
            |w| >= 5 && w[0] <= 1 && Value(BigEndian(w[1..5], w[0] == 1)) < 0x2000_0000
  {
    if |w| >= 5 {
      Value32(w[1..5], w[0] == 1);
      FlagsBelow(TypeWord(w));
    }
  }

  /**
    What a tagged value is: the byte order as it was, the type with the SRID bit, the SRID, the rest as
    it was; both words in the byte order of the value.
   */
  lemma TaggedLayout(w: seq<byte>, srid: I32)
    requires EncodeWithSrid(w, srid).Ok?
    ensures var e, little := EncodeWithSrid(w, srid).value, w[0] == 1;
            && |e| == |w| + 4 && e[0] == w[0] && e[9..] == w[5..]
            && Value(BigEndian(e[1..5], little)) == Value(BigEndian(w[1..5], little)) + 0x2000_0000
            && Value(BigEndian(e[5..9], little)) == srid % TWO_TO_THE_32
  {
    var e, little, ty := EncodeWithSrid(w, srid).value, w[0] == 1, TypeWord(w);
    FlagMoves(ty);
    Value32(w[1..5], little);
    Written32(Set(ty, SRID_FLAG), little);
    Written32(srid, little);
    assert e[1..5] == PutU32(Set(ty, SRID_FLAG), little) && e[5..9] == PutI32(srid, little);
  }

  /** Stripping undoes tagging, in either byte order. */
  lemma EncodeStrip(w: seq<byte>, srid: I32)
    requires EncodeWithSrid(w, srid).Ok?
    ensures StripSrid(EncodeWithSrid(w, srid).value) == Ok((w, Some(srid)))
  {
    var order, little, ty := w[0], w[0] == 1, TypeWord(w);
    var e := EncodeWithSrid(w, srid).value;
    var t := Set(ty, SRID_FLAG);
    FlagMoves(ty);
    assert e == [order] + PutU32(t, little) + (PutI32(srid, little) + w[5..]);
    TypeWordOf(order, t, PutI32(srid, little) + w[5..]);
    assert e[5..9] == PutI32(srid, little) && e[9..] == w[5..];
    Canonical32(w[1..5], little);
    assert w == [order] + w[1..5] + w[5..];
  }

  /** Tagging undoes stripping. */
  lemma StripEncode(e: seq<byte>)
    requires StripSrid(e).Ok? && StripSrid(e).value.1.Some?
    ensures var (w, srid) := StripSrid(e).value; EncodeWithSrid(w, srid.value) == Ok(e)
  {
    var order, little, ty := e[0], e[0] == 1, TypeWord(e);
    var t := Cleared(ty, SRID_FLAG);
    FlagMoves(ty);
    var w := StripSrid(e).value.0;
    TypeWordOf(order, t, e[9..]);
    assert w[5..] == e[9..];
    Canonical32(e[1..5], little);
    Canonical32(e[5..9], little);
    assert e == [order] + e[1..5] + e[5..9] + e[9..];
  }

  /** Exactly the inputs that stripping passes through unchanged can be tagged, with any SRID. */
  lemma TaggableIffPlain(w: seq<byte>, srid: I32)
    ensures EncodeWithSrid(w, srid).Ok? <==> StripSrid(w) == Ok((w, None))
  {
  }
}
