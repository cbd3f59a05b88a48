/**
  Column types from a sample of GeoJSON features, and the cells later rows get under those types
  (crates/shpx-driver-geojson/src/reader.rs:209-315 and 449-570).
 */
module JsonInference {
  import opened Wrappers
  import opened MachineInts

  // ---------------------------------------------------------------------------
  // Values
  // ---------------------------------------------------------------------------

  /** JSON integers as the parser keeps them: what fits i64 or u64. */
  type JsonInt = n: int | -0x8000_0000_0000_0000 <= n < TWO_TO_THE_64

  datatype Json =
    | Null
    | Bool(b: bool)
    | Integer(n: JsonInt)
    | Real(bits: U64)
    | Str(s: string)
    | Array(items: seq<Json>)
    | Object(members: seq<Json>)

  /** One property of a feature. */
  datatype Property = Property(key: string, value: Json)

  datatype GeometryKind = Point | LineString | Polygon | MultiPoint | MultiLineString | MultiPolygon | Collection

  datatype Feature = Feature(properties: Option<seq<Property>>, geometry: Option<GeometryKind>)

  datatype DataType = Boolean | Int64 | Float64 | Utf8

  datatype ColumnPlan = ColumnPlan(name: string, dataType: DataType)

  datatype Inferred = AsBool | AsInt | AsFloat | AsString | Mixed

  /** `is_i64`, which covers every unsigned value that converts. */
  predicate FitsI64(v: Json) {
    v.Integer? && v.n < 0x8000_0000_0000_0000
  }

  // ---------------------------------------------------------------------------
  // What a column has seen
  // ---------------------------------------------------------------------------

  datatype Kind = BoolKind | IntKind | FloatKind | StringKind | StructuredKind

  function KindOf(v: Json): Option<Kind> {
    match v
    case Null => None
    case Bool(_) => Some(BoolKind)
    case Integer(_) => Some(if FitsI64(v) then IntKind else FloatKind)
    case Real(_) => Some(FloatKind)
    case Str(_) => Some(StringKind)
    case Array(_) | Object(_) => Some(StructuredKind)
  }

  /** A number counts as an integer exactly when it is one and an `i64` holds it. */
  lemma IntegersOfI64(v: Json)
    ensures KindOf(v) == Some(IntKind) <==> exists w: I64 :: v == Integer(w)
    ensures KindOf(v) == Some(FloatKind) <==> v.Real? || (v.Integer? && forall w: I64 :: v != Integer(w))
  {
    if v.Integer? && v.n < 0x8000_0000_0000_0000 {
      var w: I64 := v.n;
      assert v == Integer(w);
    }
  }

  /** The column type, as a function of the set of kinds seen and nothing else. */
  function TypeOf(kinds: set<Kind>): DataType {
    if kinds == {BoolKind} then Boolean
    else if kinds == {IntKind} then Int64
    else if kinds == {FloatKind} || kinds == {IntKind, FloatKind} then Float64
    else Utf8
  }

  function Merge(prev: Option<Inferred>, new_: Inferred): Inferred {
    match prev
    case None => new_
    case Some(p) =>
      if p == new_ then p
      else if p == AsInt && new_ == AsFloat then AsFloat
      else if p == AsFloat && new_ == AsInt then AsFloat
      else Mixed
  }

  /** What `inferred` stands for while no array or object has been seen. */
  function Summary(kinds: set<Kind>): Option<Inferred> {
    if kinds == {} then None
    else if kinds == {BoolKind} then Some(AsBool)
    else if kinds == {IntKind} then Some(AsInt)
    else if kinds == {FloatKind} || kinds == {IntKind, FloatKind} then Some(AsFloat)
    else if kinds == {StringKind} then Some(AsString)
    else Some(Mixed)
  }

  lemma MergeAddsKind(kinds: set<Kind>, k: Kind, t: Inferred)
    requires (k, t) in {(BoolKind, AsBool), (IntKind, AsInt), (FloatKind, AsFloat), (StringKind, AsString)}
    ensures StructuredKind !in kinds ==> Some(Merge(Summary(kinds), t)) == Summary(kinds + {k})
  {
  }

  lemma SummaryDecides(kinds: set<Kind>)
    ensures TypeOf(kinds) == Boolean <==> Summary(kinds) == Some(AsBool)
    ensures TypeOf(kinds) == Int64 <==> Summary(kinds) == Some(AsInt)
    ensures TypeOf(kinds) == Float64 <==> Summary(kinds) == Some(AsFloat)
  {
  }

  class ColumnState {
    var inferred: Option<Inferred>
    var sawStructured: bool

    constructor ()
      ensures Represents({})
    {
      inferred, sawStructured := None, false;
    }

    /** The fields say which kinds have come by. */
    ghost predicate Represents(kinds: set<Kind>)
      reads this
    {
      && (sawStructured <==> StructuredKind in kinds)
      && (!sawStructured ==> inferred == Summary(kinds))
    }

    method Update(v: Json, ghost kinds: set<Kind>)
      requires Represents(kinds)
      modifies this
      ensures Represents(if KindOf(v).Some? then kinds + {KindOf(v).value} else kinds)
    {
      match v {
        case Null =>
        case Bool(_) =>
          MergeAddsKind(kinds, BoolKind, AsBool);
          inferred := Some(Merge(inferred, AsBool));
        case Integer(_) =>
          var t := if FitsI64(v) then AsInt else AsFloat;
          MergeAddsKind(kinds, if FitsI64(v) then IntKind else FloatKind, t);
          inferred := Some(Merge(inferred, t));
        case Real(_) =>
          MergeAddsKind(kinds, FloatKind, AsFloat);
          inferred := Some(Merge(inferred, AsFloat));
        case Str(_) =>
          MergeAddsKind(kinds, StringKind, AsString);
          inferred := Some(Merge(inferred, AsString));
        case Array(_) =>
          sawStructured, inferred := true, Some(AsString);
        case Object(_) =>
          sawStructured, inferred := true, Some(AsString);
      }
    }

    method IntoArrowType(ghost kinds: set<Kind>) returns (t: DataType)
      requires Represents(kinds)
      ensures t == TypeOf(kinds)
    {
      if sawStructured {
        return Utf8;
      }
      SummaryDecides(kinds);
      match inferred
      case Some(AsBool) => return Boolean;
      case Some(AsInt) => return Int64;
      case Some(AsFloat) => return Float64;
      case _ => return Utf8;
    }
  }

  // ---------------------------------------------------------------------------
  // The sample
  // ---------------------------------------------------------------------------

  function PropertiesOf(f: Feature): seq<Property> {
    if f.properties.Some? then f.properties.value else []
  }

  /** All properties of the sample in reading order. */
  function Cells(features: seq<Feature>): seq<Property> {
    if features == [] then [] else Cells(features[..|features| - 1]) + PropertiesOf(features[|features| - 1])
  }

  function KindsOf(cells: seq<Property>, key: string): set<Kind> {
    if cells == [] then {} else
      var before, last := KindsOf(cells[..|cells| - 1], key), cells[|cells| - 1];
      if last.key == key && KindOf(last.value).Some? then before + {KindOf(last.value).value} else before
  }

  /** The keys in order of their first appearance. */
  function Columns(cells: seq<Property>): seq<string> {
    if cells == [] then [] else
      var before, key := Columns(cells[..|cells| - 1]), cells[|cells| - 1].key;
      if key in before then before else before + [key]
  }

  predicate Occurs(cells: seq<Property>, key: string, k: Kind) {
    exists i :: 0 <= i < |cells| && cells[i].key == key && KindOf(cells[i].value) == Some(k)
  }

  lemma OccursStep(before: seq<Property>, last: Property, key: string, k: Kind)
    ensures Occurs(before + [last], key, k) <==>
            Occurs(before, key, k) || (last.key == key && KindOf(last.value) == Some(k))
  {
    var cells := before + [last];
    if Occurs(before, key, k) {
      var i :| 0 <= i < |before| && before[i].key == key && KindOf(before[i].value) == Some(k);
      assert cells[i] == before[i];
    }
    if Occurs(cells, key, k) {
      var i :| 0 <= i < |cells| && cells[i].key == key && KindOf(cells[i].value) == Some(k);
      assert if i < |before| then cells[i] == before[i] else cells[i] == last;
    }
    assert cells[|before|] == last;
  }

  lemma {:induction false} KindsAreThoseSeen(cells: seq<Property>, key: string, k: Kind)
    ensures k in KindsOf(cells, key) <==> Occurs(cells, key, k)
  {
    if cells != [] {
      var before, last := cells[..|cells| - 1], cells[|cells| - 1];
      KindsAreThoseSeen(before, key, k);
      OccursStep(before, last, key, k);
      assert before + [last] == cells;
    }
  }

  lemma OccursElsewhere(a: seq<Property>, b: seq<Property>, key: string, k: Kind)
    requires forall c :: c in a ==> c in b
    ensures Occurs(a, key, k) ==> Occurs(b, key, k)
  {
    if Occurs(a, key, k) {
      var i :| 0 <= i < |a| && a[i].key == key && KindOf(a[i].value) == Some(k);
      assert a[i] in b;
    }
  }

  /** Reordering the sample, or repeating parts of it, does not change a column's type. */
  lemma OrderDoesNotMatter(a: seq<Property>, b: seq<Property>, key: string)
    requires forall c :: c in a <==> c in b
    ensures TypeOf(KindsOf(a, key)) == TypeOf(KindsOf(b, key))
  {
    forall k: Kind
      ensures k in KindsOf(a, key) <==> k in KindsOf(b, key)
    {
      KindsAreThoseSeen(a, key, k);
      KindsAreThoseSeen(b, key, k);
      OccursElsewhere(a, b, key, k);
      OccursElsewhere(b, a, key, k);
    }
    assert KindsOf(a, key) == KindsOf(b, key);
  }

  predicate FirstAt(cells: seq<Property>, key: string, i: nat) {
    i < |cells| && cells[i].key == key && forall j :: 0 <= j < i ==> cells[j].key != key
  }

  /** The columns are exactly the keys, none twice. */
  lemma {:induction false} ColumnsAreTheKeys(cells: seq<Property>)
    ensures forall i, j :: 0 <= i < j < |Columns(cells)| ==> Columns(cells)[i] != Columns(cells)[j]
    ensures forall key :: key in Columns(cells) <==> exists i :: 0 <= i < |cells| && cells[i].key == key
  {
    if cells != [] {
      var before, last := cells[..|cells| - 1], cells[|cells| - 1];
      ColumnsAreTheKeys(before);
      forall key
        ensures key in Columns(cells) <==> exists i :: 0 <= i < |cells| && cells[i].key == key
      {
        if key in Columns(before) {
          var i :| 0 <= i < |before| && before[i].key == key;
          assert cells[i] == before[i];
        }
        if i :| 0 <= i < |cells| && cells[i].key == key {
          assert i < |before| ==> before[i] == cells[i];
        }
      }
    }
  }

  ghost predicate AppearsBefore(cells: seq<Property>, key: string, key': string) {
    exists a: nat, b: nat :: a < b && FirstAt(cells, key, a) && FirstAt(cells, key', b)
  }

  lemma FirstAtExtends(before: seq<Property>, last: Property, key: string, a: nat)
    requires FirstAt(before, key, a)
    ensures FirstAt(before + [last], key, a)
  {
  }

  function FirstIndex(cells: seq<Property>, key: string): (i: nat)
    requires exists i :: 0 <= i < |cells| && cells[i].key == key
    ensures FirstAt(cells, key, i)
  {
    if cells[0].key == key then 0 else
      assert exists i :: 0 <= i < |cells[1..]| && cells[1..][i].key == key by {
        var i :| 0 <= i < |cells| && cells[i].key == key;
        assert cells[1..][i - 1] == cells[i];
      }
      var i := FirstIndex(cells[1..], key);
      assert forall j :: 0 < j <= i ==> cells[j] == cells[1..][j - 1];
      1 + i
  }

  /** And they stand in the order in which they first appear. */
  lemma {:induction false} ColumnsByFirstAppearance(cells: seq<Property>, i: nat, j: nat)
    requires i < j < |Columns(cells)|
    ensures AppearsBefore(cells, Columns(cells)[i], Columns(cells)[j])
  {
    var before, last := cells[..|cells| - 1], cells[|cells| - 1];
    var cols := Columns(before);
    assert before + [last] == cells;
    if j < |cols| {
      ColumnsByFirstAppearance(before, i, j);
      var a: nat, b: nat :| a < b && FirstAt(before, cols[i], a) && FirstAt(before, cols[j], b);
      FirstAtExtends(before, last, cols[i], a);
      FirstAtExtends(before, last, cols[j], b);
      assert AppearsBefore(cells, cols[i], cols[j]);
    } else {
      ColumnsAreTheKeys(before);
      assert cols[i] in cols;
      var a := FirstIndex(before, cols[i]);
      FirstAtExtends(before, last, cols[i], a);
      assert FirstAt(cells, last.key, |before|) by {
        forall k | 0 <= k < |before| ensures cells[k].key != last.key {
          assert before[k] == cells[k];
        }
      }
      assert AppearsBefore(cells, cols[i], last.key);
    }
  }

  // ---------------------------------------------------------------------------
  // infer_columns
  // ---------------------------------------------------------------------------

  /** The table of column states after `cells`: one private state for each key seen. */
  ghost predicate Table(state: map<string, ColumnState>, cells: seq<Property>)
    reads state.Values
  {
    && (forall key :: key in state <==> key in Columns(cells))
    && (forall key <- state :: state[key].Represents(KindsOf(cells, key)))
    && (forall key <- state, key' <- state :: key != key' ==> state[key] != state[key'])
  }

  /** What `infer_columns` must return. */
  function Plan(cells: seq<Property>): seq<ColumnPlan> {
    var names := Columns(cells);
    seq(|names|, i requires 0 <= i < |names| => ColumnPlan(names[i], TypeOf(KindsOf(cells, names[i]))))
  }

  lemma CellsStep(features: seq<Feature>, i: nat)
    requires i < |features|
    ensures Cells(features[..i + 1]) == Cells(features[..i]) + PropertiesOf(features[i])
  {
    assert features[..i + 1][..i] == features[..i];
  }

  lemma {:induction false} Unseen(cells: seq<Property>, key: string)
    ensures key !in Columns(cells) ==> KindsOf(cells, key) == {}
  {
    if cells != [] {
      Unseen(cells[..|cells| - 1], key);
    }
  }

  /** One turn of the inner loop. */
  method AddCell(cell: Property, order: seq<string>, state: map<string, ColumnState>, ghost cells: seq<Property>)
    returns (order': seq<string>, state': map<string, ColumnState>)
    requires order == Columns(cells) && Table(state, cells)
    modifies state.Values
    ensures order' == Columns(cells + [cell]) && Table(state', cells + [cell])
    ensures forall key <- state' :: state'[key] in state.Values || fresh(state'[key])
  {
    ghost var all := cells + [cell];
    assert all[..|cells|] == cells;
    order', state' := order, state;
    if cell.key !in state {
      order' := order' + [cell.key];
      var entry := new ColumnState();
      state' := state'[cell.key := entry];
    }
    Unseen(cells, cell.key);
    state'[cell.key].Update(cell.value, KindsOf(cells, cell.key));
  }

  /** The inner loop. */
  method AddFeature(props: seq<Property>, order: seq<string>, state: map<string, ColumnState>,
                    ghost before: seq<Property>)
    returns (order': seq<string>, state': map<string, ColumnState>)
    requires order == Columns(before) && Table(state, before)
    modifies state.Values
    ensures order' == Columns(before + props) && Table(state', before + props)
    ensures forall key <- state' :: state'[key] in state.Values || fresh(state'[key])
  {
    order', state' := order, state;
    assert before + props[..0] == before;
    for j := 0 to |props|
      invariant order' == Columns(before + props[..j]) && Table(state', before + props[..j])
      invariant forall key <- state' :: state'[key] in state.Values || fresh(state'[key])
    {
      assert before + props[..j + 1] == before + props[..j] + [props[j]];
      order', state' := AddCell(props[j], order', state', before + props[..j]);
    }
    assert props[..|props|] == props;
  }

  method Finish(order: seq<string>, state: map<string, ColumnState>, ghost cells: seq<Property>)
    returns (columns: seq<ColumnPlan>)
    requires order == Columns(cells) && Table(state, cells)
    ensures columns == Plan(cells)
  {
    columns := [];
    for i := 0 to |order|
      invariant columns == Plan(cells)[..i]
    {
      assert order[i] in order;
      var t := state[order[i]].IntoArrowType(KindsOf(cells, order[i]));
      columns := columns + [ColumnPlan(order[i], t)];
    }
  }

  method InferColumns(features: seq<Feature>) returns (columns: seq<ColumnPlan>)
    ensures columns == Plan(Cells(features))
  {
    var order: seq<string> := [];
    var state: map<string, ColumnState> := map[];
    ghost var cells: seq<Property> := [];
    for i := 0 to |features|
      invariant cells == Cells(features[..i])
      invariant order == Columns(cells) && Table(state, cells)
      invariant forall key <- state :: fresh(state[key])
    {
      CellsStep(features, i);
      order, state := AddFeature(PropertiesOf(features[i]), order, state, cells);
      cells := cells + PropertiesOf(features[i]);
    }
    assert features[..|features|] == features;
    columns := Finish(order, state, cells);
  }

  // ---------------------------------------------------------------------------
  // append_value
  // ---------------------------------------------------------------------------

  /** A cell of the batch. `AsF64` is the nearest f64 of a JSON number, `JsonText` its serialisation. */
  datatype Cell = NullCell | BoolCell(b: bool) | IntCell(n: int) | AsF64(number: Json) | Text(s: string)
    | JsonText(v: Json)

  function AppendValue(t: DataType, value: Option<Json>): Cell {
    if value.None? || value.value.Null? then NullCell else
    var v := value.value;
    match t
    case Boolean => if v.Bool? then BoolCell(v.b) else NullCell
    case Int64 => if FitsI64(v) then IntCell(v.n) else NullCell
    case Float64 => if v.Integer? || v.Real? then AsF64(v) else NullCell
    case Utf8 => if v.Str? then Text(v.s) else JsonText(v)
  }

  function Lookup(props: seq<Property>, key: string): Option<Json> {
    if props == [] then None
    else if props[0].key == key then Some(props[0].value)
    else Lookup(props[1..], key)
  }

  /** `append_row` on the attribute columns. */
  method AppendRow(f: Feature, columns: seq<ColumnPlan>) returns (row: seq<Cell>)
    ensures |row| == |columns|
    ensures forall i :: 0 <= i < |columns| ==>
            row[i] == AppendValue(columns[i].dataType, Lookup(PropertiesOf(f), columns[i].name))
  {
    row := [];
    for i := 0 to |columns|
      invariant |row| == i
      invariant forall k :: 0 <= k < i ==>
                row[k] == AppendValue(columns[k].dataType, Lookup(PropertiesOf(f), columns[k].name))
    {
      row := row + [AppendValue(columns[i].dataType, Lookup(PropertiesOf(f), columns[i].name))];
    }
  }

  /** The kinds a type takes without making them null. */
  predicate Takes(t: DataType, k: Kind) {
    match t
    case Boolean => k == BoolKind
    case Int64 => k == IntKind
    case Float64 => k == IntKind || k == FloatKind
    case Utf8 => true
  }

  /**
    Exactly when a value is lost. In particular an integer column keeps no fraction: it stores null
    for it, where the module's own comment speaks of reduced precision.
   */
  lemma LostExactlyWhen(t: DataType, v: Json)
    ensures AppendValue(t, Some(v)) == NullCell <==> KindOf(v).None? || !Takes(t, KindOf(v).value)
  {
  }

  /** A cell that is not null is the value, or for a text column its text. */
  predicate Keeps(c: Cell, v: Json) {
    match c
    case NullCell => false
    case BoolCell(b) => v == Bool(b)
    case IntCell(n) => v.Integer? && v.n == n
    case AsF64(number) => v == number && (v.Integer? || v.Real?)
    case Text(s) => v == Str(s)
    case JsonText(w) => v == w && !v.Str?
  }

  lemma NotLostMeansKept(t: DataType, v: Json)
    ensures AppendValue(t, Some(v)) == NullCell || Keeps(AppendValue(t, Some(v)), v)
    ensures AppendValue(t, Some(v)).AsF64? ==> t == Float64
  {
  }

  lemma TypeTakesItsKinds(kinds: set<Kind>, k: Kind)
    requires k in kinds
    ensures Takes(TypeOf(kinds), k)
  {
  }

  lemma {:induction false} LookupFinds(props: seq<Property>, key: string, v: Json)
    requires Lookup(props, key) == Some(v)
    ensures Property(key, v) in props
  {
    if props[0].key != key {
      LookupFinds(props[1..], key, v);
    }
  }

  lemma {:induction false} CellsHave(features: seq<Feature>, i: nat, cell: Property)
    requires i < |features| && cell in PropertiesOf(features[i])
    ensures cell in Cells(features)
  {
    if i < |features| - 1 {
      CellsHave(features[..|features| - 1], i, cell);
    }
  }

  /**
    No value of the sample is lost: the row of a sampled feature has a null exactly where the
    property is missing or null.
   */
  lemma SampleKept(features: seq<Feature>, i: nat, c: nat)
    requires i < |features| && c < |Plan(Cells(features))|
    ensures var col, props := Plan(Cells(features))[c], PropertiesOf(features[i]);
            AppendValue(col.dataType, Lookup(props, col.name)) == NullCell
            <==> Lookup(props, col.name).None? || Lookup(props, col.name).value.Null?
  {
    var cells := Cells(features);
    var col, props := Plan(cells)[c], PropertiesOf(features[i]);
    var found := Lookup(props, col.name);
    if found.Some? && !found.value.Null? {
      var cell, k := Property(col.name, found.value), KindOf(found.value).value;
      LookupFinds(props, col.name, found.value);
      CellsHave(features, i, cell);
      var at :| 0 <= at < |cells| && cells[at] == cell;
      assert Occurs(cells, col.name, k);
      KindsAreThoseSeen(cells, col.name, k);
      TypeTakesItsKinds(KindsOf(cells, col.name), k);
    }
  }

  // ---------------------------------------------------------------------------
  // unify_geometry_type
  // ---------------------------------------------------------------------------

  datatype GeometryType = Only(kind: GeometryKind) | AnyGeometry

  predicate Has(features: seq<Feature>, kind: GeometryKind) {
    exists i :: 0 <= i < |features| && features[i].geometry == Some(kind)
  }

  lemma HasStep(features: seq<Feature>, i: nat)
    requires i < |features|
    ensures forall k :: Has(features[..i + 1], k) <==> Has(features[..i], k) || features[i].geometry == Some(k)
    ensures forall k :: Has(features[..i + 1], k) ==> Has(features, k)
  {
  }

  /** The single geometry type of the sample if it has one, else the general type; collections are refused. */
  method UnifyGeometryType(features: seq<Feature>) returns (r: Result<GeometryType, string>)
    ensures r.Err? <==> Has(features, Collection)
    ensures r.Ok? && r.value.Only? ==> Has(features, r.value.kind) && forall k :: Has(features, k) ==> k == r.value.kind
    ensures r.Ok? && r.value.AnyGeometry? ==> forall k :: Has(features, k) ==> exists k' :: k' != k && Has(features, k')
  {
    var found: Option<GeometryType> := None;
    ghost var one, other := Point, Point;
    for i := 0 to |features|
      invariant !Has(features[..i], Collection)
      invariant found.None? ==> forall k :: !Has(features[..i], k)
      invariant found.Some? && found.value.Only? ==>
                Has(features[..i], found.value.kind) && forall k :: Has(features[..i], k) ==> k == found.value.kind
      invariant found == Some(AnyGeometry) ==> one != other && Has(features[..i], one) && Has(features[..i], other)
    {
      HasStep(features, i);
      if features[i].geometry.None? {
        continue;
      }
      var kind := features[i].geometry.value;
      if kind == Collection {
        return Err("GeometryCollection is not supported");
      }
      match found {
        case None =>
          found := Some(Only(kind));
        case Some(prev) =>
          if prev != Only(kind) {
            if prev.Only? {
              one, other := prev.kind, kind;
            }
            found := Some(AnyGeometry);
          }
      }
    }
    assert features[..|features|] == features;
    return Ok(if found.Some? then found.value else AnyGeometry);
  }
}
