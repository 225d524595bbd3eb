/** The element catalog of core/elements: every element class with its
    `element_type`, `geometry_type`, declared `attributes` and schema table,
    and the ELEMENTS registry that maps a type name to its class. */
module Catalog {
  import opened Wrappers
  import opened Values
  import opened Schemata
  import opened TableSchema

  /** Every element class the elements package defines. The last six are not
      registered: the legacy head line sink of head_line_sink.py, the four
      classes of observation.py and the Particle base class. */
  datatype ElementClass =
    | Aquifer | Domain | UniformFlow | Well | HeadWell
    | HeadLineSink | DischargeLineSink | DrainLineSink | GalleryLineSink
    | FarFieldLineSink | LakeLineSink
    | Barrier | ClosedBarrier | Inhomogeneity | Piezometer | FluxInspector
    | ForwardParticle | BackwardParticle
    | LegacyHeadLineSink | Observation | ObservationPiezometer | Gage | LakeGage
    | Particle

  /** The `geometry_type` of a class. */
  datatype GeometryKind = NoGeometry | PointKind | LinestringKind | PolygonKind

  /** The QVariant type of a declared attribute. */
  datatype FieldType = Double | Text

  /** A declared attribute: a QgsField name and type. */
  type Attribute = (string, FieldType)

  function ElementType(c: ElementClass): string {
    match c
    case Aquifer => "Aquifer"
    case Domain => "Domain"
    case UniformFlow => "Uniform Flow"
    case Well => "Well"
    case HeadWell => "Head Well"
    case HeadLineSink => "Head Line Sink"
    case DischargeLineSink => "Discharge Line Sink"
    case DrainLineSink => "Drain Line Sink"
    case GalleryLineSink => "Gallery Line Sink"
    case FarFieldLineSink => "Far Field Line Sink"
    case LakeLineSink => "Lake Line Sink"
    case Barrier => "Barrier"
    case ClosedBarrier => "Closed Barrier"
    case Inhomogeneity => "Inhomogeneity"
    case Piezometer => "Piezometer"
    case FluxInspector => "Flux Inspector"
    case ForwardParticle => "Forward Particle"
    case BackwardParticle => "Backward Particle"
    case LegacyHeadLineSink => "Head Line Sink"
    case Observation => "Piezometer"
    case ObservationPiezometer => "Piezometer"
    case Gage => "Piezometer"
    case LakeGage => "Piezometer"
    case Particle => "Forward Particle"
  }

  function GeometryType(c: ElementClass): GeometryKind {
    match c
    case Aquifer => NoGeometry
    case Domain | ClosedBarrier | Inhomogeneity => PolygonKind
    case UniformFlow | Well | HeadWell | Piezometer | ForwardParticle | BackwardParticle
      | Observation | ObservationPiezometer | Gage | LakeGage | Particle => PointKind
    case HeadLineSink | DischargeLineSink | DrainLineSink | GalleryLineSink | FarFieldLineSink
      | LakeLineSink | Barrier | FluxInspector | LegacyHeadLineSink => LinestringKind
  }

  /** The text QGIS and the plugin use for a geometry kind. */
  function GeometryTypeName(g: GeometryKind): string {
    match g
    case NoGeometry => "No Geometry"
    case PointKind => "Point"
    case LinestringKind => "Linestring"
    case PolygonKind => "Polygon"
  }

  /** The `attributes` of a class; Domain and Flux Inspector keep the empty default. */
  function Attributes(c: ElementClass): seq<Attribute> {
    match c
    case Aquifer =>
      [("base_elevation", Double), ("thickness", Double), ("conductivity", Double), ("porosity", Double)]
    case Domain => []
    case UniformFlow => [("head", Double), ("gradient", Double), ("orientation", Double)]
    case Well => [("discharge", Double), ("radius", Double), ("label", Text)]
    case HeadWell => [("head", Double), ("radius", Double), ("label", Text)]
    case HeadLineSink =>
      [("starting_head", Double), ("ending_head", Double), ("resistance", Double), ("width", Double),
       ("depth", Double), ("location", Text), ("label", Text)]
    case DischargeLineSink => [("starting_density", Double), ("ending_density", Double), ("label", Text)]
    case DrainLineSink =>
      [("starting_head", Double), ("ending_head", Double), ("resistance", Double), ("width", Double),
       ("location", Text), ("label", Text)]
    case GalleryLineSink =>
      [("discharge", Double), ("minimum_starting_head", Double), ("minimum_ending_head", Double),
       ("resistance", Double), ("width", Double), ("depth", Double), ("location", Text), ("label", Text)]
    case FarFieldLineSink => [("starting_head", Double), ("ending_head", Double), ("location", Text)]
    case LakeLineSink =>
      [("lake_bottom", Double), ("estimated_level1", Double), ("estimated_level2", Double),
       ("width", Double), ("depth", Double), ("location", Text), ("label", Text)]
    case Barrier | ClosedBarrier =>
      [("conductivity", Double), ("thickness", Double), ("porosity", Double),
       ("bottom_elevation", Double), ("label", Text)]
    case Inhomogeneity =>
      [("conductivity", Double), ("recharge", Double), ("porosity", Double),
       ("base_elevation", Double), ("average_head", Double), ("label", Text)]
    case Piezometer | Observation | ObservationPiezometer | Gage | LakeGage => [("label", Text)]
    case FluxInspector => []
    case ForwardParticle | BackwardParticle | Particle => [("starting_elevation", Double)]
    case LegacyHeadLineSink =>
      [("starting_head", Double), ("ending_head", Double), ("resistance", Double), ("width", Double),
       ("depth", Double), ("label", Text)]
  }

  /** The names of the declared attributes, as a set. */
  function AttributeNames(c: ElementClass): (names: set<string>)
    ensures forall a :: a in Attributes(c) ==> a.0 in names
    ensures forall n :: n in names ==> exists a :: a in Attributes(c) && a.0 == n
  {
    set a | a in Attributes(c) :: a.0
  }

  /** The location choices of LineSink.LINESINKLOCATIONS. */
  const LocationNames: set<string> := {"Unknown", "Along stream centerline", "Along surface water boundary"}

  /** The schema of a class: single-row or row-wise, and its `schemata` table. */
  function SchemaOf(c: ElementClass): Schema {
    match c
    case Aquifer => Schema(SingleRow, [
      ("base_elevation", Required([])),
      ("thickness", Required([StrictlyPositive])),
      ("conductivity", Required([StrictlyPositive])),
      ("porosity", Required([StrictlyPositive]))])
    case Domain => Schema(SingleRow, [("geometry", Required([]))])
    case UniformFlow => Schema(SingleRow, [
      ("geometry", Required([])), ("head", Required([])), ("gradient", Required([])),
      ("orientation", Required([])), ("label", Required([]))])
    case Well => Schema(RowWise, [
      ("geometry", Required([])), ("discharge", Required([])),
      ("radius", Required([StrictlyPositive])), ("label", Optional([]))])
    case HeadWell => Schema(RowWise, [
      ("geometry", Required([])), ("head", Required([])),
      ("radius", Required([StrictlyPositive])), ("label", Optional([]))])
    case HeadLineSink => Schema(RowWise, [
      ("geometry", Required([])), ("starting_head", Required([])), ("ending_head", Required([])),
      ("resistance", Required([Positive])), ("width", Required([StrictlyPositive])),
      ("depth", Required([Positive])), ("location", Required([Membership(LocationNames)])),
      ("label", Optional([]))])
    case DischargeLineSink => Schema(RowWise, [
      ("geometry", Required([])), ("starting_density", Required([])),
      ("ending_density", Required([])), ("label", Optional([]))])
    case DrainLineSink => Schema(RowWise, [
      ("geometry", Required([])), ("starting_head", Required([])), ("ending_head", Required([])),
      ("resistance", Required([Positive])), ("width", Required([StrictlyPositive])),
      ("location", Required([Membership(LocationNames)])), ("label", Optional([]))])
    case GalleryLineSink => Schema(RowWise, [
      ("geometry", Required([])), ("discharge", Required([])),
      ("minimum_starting_head", Required([])), ("minimum_ending_head", Required([])),
      ("resistance", Required([Positive])), ("width", Required([StrictlyPositive])),
      ("depth", Required([Positive])), ("location", Required([Membership(LocationNames)])),
      ("label", Optional([]))])
    case FarFieldLineSink => Schema(RowWise, [
      ("geometry", Required([])), ("starting_head", Required([])), ("ending_head", Required([])),
      ("location", Required([Membership(LocationNames)])), ("label", OptionalClass)])
    case LakeLineSink => Schema(RowWise, [
      ("geometry", Required([])), ("lake_bottom", Required([])),
      ("estimted_level1", Required([])), ("estimted_level2", Required([])),
      ("resistance", Required([Positive])), ("width", Required([StrictlyPositive])),
      ("depth", Required([Positive])), ("location", Required([Membership(LocationNames)])),
      ("label", Optional([]))])
    case Barrier => Schema(RowWise, [
      ("geometry", Required([])), ("conductivity", Required([StrictlyPositive])),
      ("thickness", Required([StrictlyPositive])), ("porosity", Required([StrictlyPositive])),
      ("bottom_elevation", Required([])), ("label", Required([]))])
    case ClosedBarrier => Schema(RowWise, [
      ("geometry", Required([])), ("conductivity", Required([StrictlyPositive])),
      ("thickness", Required([StrictlyPositive])), ("porosity", Required([StrictlyPositive])),
      ("bottom_elevation", Required([])), ("label", Optional([]))])
    case Inhomogeneity => Schema(RowWise, [
      ("geometry", Required([])), ("conductivity", Optional([StrictlyPositive])),
      ("recharge", Optional([])), ("porosity", Optional([StrictlyPositive])),
      ("base_elevation", Optional([])), ("average_head", Optional([])), ("label", Optional([]))])
    case Piezometer => Schema(RowWise, [("geometry", Required([])), ("label", Optional([]))])
    case FluxInspector => Schema(RowWise, [("geometry", Required([]))])
    case ForwardParticle | BackwardParticle | Particle =>
      Schema(RowWise, [("geometry", Required([])), ("starting_elevation", Optional([]))])
    case LegacyHeadLineSink => Schema(RowWise, [
      ("geometry", Required([])), ("starting_head", Required([])), ("ending_head", Required([])),
      ("resistance", Required([Positive])), ("width", Required([StrictlyPositive])),
      ("depth", Required([Positive])), ("label", Required([]))])
    case Observation | ObservationPiezometer | Gage | LakeGage =>
      Schema(RowWise, [("geometry", Required([])), ("label", Required([]))])
  }

  /** The field names the schema table looks up in every row. */
  function SchemaFields(c: ElementClass): (fields: set<string>)
    ensures forall i :: 0 <= i < |SchemaOf(c).rules| ==> SchemaOf(c).rules[i].0 in fields
  {
    set i | 0 <= i < |SchemaOf(c).rules| :: SchemaOf(c).rules[i].0
  }

  /** The columns a layer created from the class has: its attributes and the geometry. */
  function LayerColumns(c: ElementClass): set<string> {
    {"geometry"} + AttributeNames(c)
  }

  /** Whether the class defines (or inherits) a `render` method. */
  predicate HasRender(c: ElementClass) {
    c in {Well, HeadWell, Piezometer, ForwardParticle, Particle, HeadLineSink, DischargeLineSink,
          DrainLineSink, GalleryLineSink, FarFieldLineSink, LakeLineSink, ClosedBarrier, Inhomogeneity}
  }

  /** The classes of the ELEMENTS registry, in registration order. */
  const Registered: seq<ElementClass> := [
    Aquifer, Domain, UniformFlow, Well, HeadWell, HeadLineSink, DischargeLineSink,
    DrainLineSink, GalleryLineSink, FarFieldLineSink, LakeLineSink, Barrier, ClosedBarrier,
    Inhomogeneity, Piezometer, FluxInspector, ForwardParticle, BackwardParticle]

  /** ELEMENTS: a dict comprehension keyed by each registered class's element_type. */
  function Elements(): (d: Dict<ElementClass>)
    ensures |d| == |Registered|
    ensures forall i :: 0 <= i < |d| ==> d[i] == (ElementType(Registered[i]), Registered[i])
  {
    seq(|Registered|, i requires 0 <= i < |Registered| => (ElementType(Registered[i]), Registered[i]))
  }

  /** `ELEMENTS[element_type]`. */
  function LookupClass(elementType: string): (r: Result<ElementClass>)
    ensures r.Fail? <==> elementType !in Keys(Elements())
    ensures r.Fail? ==> r.fault == KeyError(elementType)
    ensures r.Ok? ==> r.value in Registered && ElementType(r.value) == elementType
  {
    GetKeys(Elements(), elementType);
    EntryRegistered(elementType, Get(Elements(), elementType));
    match Get(Elements(), elementType)
    case Some(c) => Ok(c)
    case None => Fail(KeyError(elementType))
  }

  /** An entry of ELEMENTS pairs a registered class with its own type. */
  lemma EntryRegistered(t: string, found: Option<ElementClass>)
    requires found.Some? ==> (t, found.value) in Elements()
    ensures found.Some? ==> found.value in Registered && ElementType(found.value) == t
  {
    if found.Some? {
      var i :| 0 <= i < |Elements()| && Elements()[i] == (t, found.value);
      assert Registered[i] == found.value;
    }
  }

  /** The element_type of each registered class, in registration order. */
  const TypeNames: seq<string> := [
    "Aquifer", "Domain", "Uniform Flow", "Well", "Head Well", "Head Line Sink",
    "Discharge Line Sink", "Drain Line Sink", "Gallery Line Sink", "Far Field Line Sink",
    "Lake Line Sink", "Barrier", "Closed Barrier", "Inhomogeneity", "Piezometer",
    "Flux Inspector", "Forward Particle", "Backward Particle"]

  lemma TypeNamesAgree()
    ensures |Registered| == |TypeNames| == 18
    ensures forall i :: 0 <= i < |Registered| ==> ElementType(Registered[i]) == TypeNames[i]
  {
    assert TypeNames == seq(18, i requires 0 <= i < 18 => ElementType(Registered[i]));
  }

  lemma TypeNamesUnique()
    ensures forall i, j :: 0 <= i < j < |TypeNames| ==> TypeNames[i] != TypeNames[j]
  {
  }

  /** The 18 registered classes have 18 distinct type names. */
  lemma TypeNamesDistinct()
    ensures |Registered| == 18
    ensures forall i, j :: 0 <= i < j < |Registered| ==> ElementType(Registered[i]) != ElementType(Registered[j])
  {
    TypeNamesAgree();
    TypeNamesUnique();
  }

  /** No entry of the ELEMENTS comprehension overwrites another. */
  lemma RegistryDistinct()
    ensures UniqueKeys(Elements())
  {
    TypeNamesDistinct();
  }

  /** Looking up the type of a registered class finds that class. */
  lemma LookupRegistered(c: ElementClass)
    requires c in Registered
    ensures LookupClass(ElementType(c)) == Ok(c)
  {
    RegistryDistinct();
    var i :| 0 <= i < |Registered| && Registered[i] == c;
    GetUnique(Elements(), ElementType(c), i);
  }

  /** A field the schema checks and a row lacks makes validation raise,
      unless a single-row schema stops at the row count first. */
  lemma MissingFieldRaises(c: ElementClass, name: string, rows: seq<Row>, i: nat, j: nat)
    requires SchemaOf(c).mode == RowWise || |rows| == 1
    requires i < |rows| && j < |SchemaOf(c).rules| && SchemaOf(c).rules[j].0 !in rows[i]
    ensures ValidateSchema(SchemaOf(c), name, rows).Fail?
  {
    ValidateSchemaSpec(SchemaOf(c), name, rows);
    assert !FieldChecks(rows[i], SchemaOf(c).rules[j]);
  }

  /** The aquifer table must have exactly one row, and its thickness must be
      strictly positive: a non-positive one is reported. */
  lemma AquiferSchema(name: string, rows: seq<Row>, x: real)
    ensures |rows| != 1 ==> ValidateSchema(SchemaOf(Aquifer), name, rows) == Ok([(name, Msgs([NotSingleRow(|rows|)]))])
    ensures |rows| == 1 && "thickness" in rows[0] && rows[0]["thickness"] == Num(x) && x <= 0.0 ==>
      ValidateSchema(SchemaOf(Aquifer), name, rows) != Ok([])
  {
    ValidateSchemaSpec(SchemaOf(Aquifer), name, rows);
    if |rows| == 1 && "thickness" in rows[0] && rows[0]["thickness"] == Num(x) && x <= 0.0 {
      RequiredStrictlyPositive(x);
      assert !FieldPasses(rows[0], SchemaOf(Aquifer).rules[1]);
    }
  }

  /** Uniform flow's schema requires a label, which is not one of its
      columns: its single row, read from its own columns, never validates. */
  lemma UniformFlowLabelMissing(name: string, row: Row)
    requires row.Keys <= LayerColumns(UniformFlow)
    ensures "label" !in LayerColumns(UniformFlow)
    ensures ValidateSchema(SchemaOf(UniformFlow), name, [row]).Fail?
  {
    assert "label" !in LayerColumns(UniformFlow);
    MissingFieldRaises(UniformFlow, name, [row], 0, 4);
  }

  /** The far-field line sink's schema holds the class Optional itself for
      "label", which has no `validate` to call on a value, and its columns
      have no label: any non-empty table raises. */
  lemma FarFieldNeverValidates(name: string, rows: seq<Row>)
    requires |rows| > 0
    ensures "label" !in LayerColumns(FarFieldLineSink)
    ensures ValidateSchema(SchemaOf(FarFieldLineSink), name, rows).Fail?
  {
    assert "label" !in LayerColumns(FarFieldLineSink);
    ValidateSchemaSpec(SchemaOf(FarFieldLineSink), name, rows);
    assert !FieldChecks(rows[0], SchemaOf(FarFieldLineSink).rules[4]);
  }

  /** The lake line sink's schema checks "estimted_level1" where its layer
      has an "estimated_level1" column: a row without the misspelt key, as
      every row read from that layer is, never validates. */
  lemma LakeSchemaMisspelt(name: string, rows: seq<Row>, i: nat)
    requires i < |rows| && "estimted_level1" !in rows[i]
    ensures SchemaOf(LakeLineSink).rules[2].0 == "estimted_level1"
    ensures "estimated_level1" in LayerColumns(LakeLineSink)
    ensures ValidateSchema(SchemaOf(LakeLineSink), name, rows).Fail?
  {
    assert Attributes(LakeLineSink)[1] == ("estimated_level1", Double);
    MissingFieldRaises(LakeLineSink, name, rows, i, 2);
  }

  /** The legacy head line sink of head_line_sink.py shares its type name with
      the registered line sink, which the registry resolves, and has no render. */
  lemma LegacyHeadLineSinkShadowed()
    ensures ElementType(LegacyHeadLineSink) == ElementType(HeadLineSink)
    ensures LegacyHeadLineSink !in Registered && !HasRender(LegacyHeadLineSink)
    ensures LookupClass(ElementType(LegacyHeadLineSink)) == Ok(HeadLineSink)
  {
    assert ElementType(LegacyHeadLineSink) == "Head Line Sink" == ElementType(HeadLineSink);
    LookupRegistered(HeadLineSink);
  }

  /** The legacy schema requires a label the registered variant leaves
      optional: a row whose label is null is reported by the one and passes
      the other. */
  lemma LegacyLabelRequired(name: string, row: Row)
    requires "label" in row && row["label"] == Null
    ensures ValidateSchema(SchemaOf(LegacyHeadLineSink), name, [row]) != Ok([])
    ensures FieldPasses(row, SchemaOf(HeadLineSink).rules[7])
  {
    ValidateSchemaSpec(SchemaOf(LegacyHeadLineSink), name, [row]);
    assert !FieldPasses(row, SchemaOf(LegacyHeadLineSink).rules[6]);
  }
}
