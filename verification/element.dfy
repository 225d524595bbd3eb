/** The Element base class of core/elements/element.py and the per-class
    overrides of it: the layer name, the column check, the row normaliser,
    `extract_data`, and the `process_gflow_row` variants.

    Reading a feature's geometry (ExtractorMixin.point_xy, linestring_xy,
    polygon_xy) is not part of this model: a row's "geometry" value carries
    the feature geometry, and a geometry of the wrong kind is a TypeError. */
module Elements {
  import opened Wrappers
  import opened Values
  import opened Schemata
  import opened TableSchema
  import opened Catalog
  import opened Render

  /** Element.__init__: "gflow {element_type}:{name}"; Aquifer and Domain
      always use their own type as the name. */
  function GflowName(c: ElementClass, name: string): string {
    "gflow " + ElementType(c) + ":" + (if c == Aquifer || c == Domain then ElementType(c) else name)
  }

  /** The column check on declared attribute names and a layer's fields:
      no error, or one message under "Table:" naming the absent columns. */
  function CheckColumns(attrs: set<string>, fields: set<string>): ErrorMap {
    var missing := attrs - fields;
    if missing != {} then [("Table:", Msgs([MissingColumns(missing)]))] else []
  }

  lemma CheckColumnsSpec(attrs: set<string>, fields: set<string>)
    ensures CheckColumns(attrs, fields) == [] <==> attrs <= fields
    ensures CheckColumns(attrs, fields) != [] ==>
      CheckColumns(attrs, fields) == [("Table:", Msgs([MissingColumns(attrs - fields)]))]
  {
    if attrs - fields == {} {
      forall a | a in attrs ensures a in fields {
        assert a !in attrs - fields;
      }
    }
  }

  /** Element.check_table_columns on a layer with the given field names. */
  function CheckTableColumns(c: ElementClass, fields: set<string>): (r: ErrorMap)
    ensures r == [] <==> AttributeNames(c) <= fields
    ensures r != [] ==> r == [("Table:", Msgs([MissingColumns(AttributeNames(c) - fields)]))]
  {
    CheckColumnsSpec(AttributeNames(c), fields);
    CheckColumns(AttributeNames(c), fields)
  }

  /** A class without declared attributes passes the column check on any layer. */
  lemma NoAttributesAlwaysPass(c: ElementClass, fields: set<string>)
    requires c == Domain || c == FluxInspector
    ensures CheckTableColumns(c, fields) == []
  {
    assert Attributes(c) == [];
    assert AttributeNames(c) == {};
  }

  /** Extra fields never cause a column error: adding fields to a passing
      layer keeps it passing, and the message lists exactly the absent ones. */
  lemma ExtraColumnsAllowed(c: ElementClass, fields: set<string>, extra: set<string>)
    requires CheckTableColumns(c, fields) == []
    ensures CheckTableColumns(c, fields + extra) == []
  {
  }

  // ---- geometry access ------------------------------------------------------

  /** The feature's point. */
  function PointOf(row: Row): (r: Result<Point>)
    ensures r.Ok? <==> "geometry" in row && row["geometry"].Geom? && row["geometry"].g.PointGeom?
    ensures r.Ok? ==> r.value == row["geometry"].g.p
  {
    var g :- Lookup(row, "geometry");
    if g.Geom? && g.g.PointGeom? then Ok(g.g.p) else Fail(TypeError)
  }

  /** The feature's vertices: a line's, or a polygon's ring. */
  function VerticesOf(row: Row, kind: GeometryKind): (r: Result<seq<Point>>)
    requires kind == LinestringKind || kind == PolygonKind
    ensures r.Ok? <==>
      ("geometry" in row && row["geometry"].Geom? &&
       if kind == LinestringKind then row["geometry"].g.LineGeom? else row["geometry"].g.PolygonGeom?)
    ensures r.Ok? && kind == LinestringKind ==> r.value == row["geometry"].g.vertices
    ensures r.Ok? && kind == PolygonKind ==> r.value == row["geometry"].g.ring
  {
    var g :- Lookup(row, "geometry");
    if !g.Geom? then Fail(TypeError)
    else match g.g
      case LineGeom(vs) => if kind == LinestringKind then Ok(vs) else Fail(TypeError)
      case PolygonGeom(ring) => if kind == PolygonKind then Ok(ring) else Fail(TypeError)
      case PointGeom(_) => Fail(TypeError)
  }

  // ---- process_table_row ----------------------------------------------------

  /** The first half of Element.process_table_row: a copy of the row without
      "geometry" and "fid", with the coordinates the geometry kind calls for. */
  function Normalise(c: ElementClass, row: Row): Result<Row> {
    var base := row - {"geometry", "fid"};
    match GeometryType(c)
    case NoGeometry => Ok(base)
    case PointKind =>
      var p :- PointOf(row);
      Ok(base["x" := Num(p.x)]["y" := Num(p.y)])
    case LinestringKind =>
      var vs :- VerticesOf(row, LinestringKind);
      Ok(base["xy" := XY(vs)])
    case PolygonKind =>
      var ring :- VerticesOf(row, PolygonKind);
      Ok(base["xy" := XY(ring)])
  }

  /** The keys a geometry kind adds to a processed row. */
  function AddedKeys(g: GeometryKind): set<string> {
    match g
    case NoGeometry => {}
    case PointKind => {"x", "y"}
    case LinestringKind | PolygonKind => {"xy"}
  }

  /** What the normaliser keeps, drops and adds: "geometry" and "fid" are
      gone, the geometry's coordinates are added, and every other entry is
      copied unchanged. It fails only when the geometry is absent or of
      another kind. */
  lemma NormaliseSpec(c: ElementClass, row: Row)
    ensures Normalise(c, row).Ok? <==>
      (GeometryType(c) == NoGeometry ||
       ("geometry" in row && row["geometry"].Geom? &&
        match GeometryType(c)
        case PointKind => row["geometry"].g.PointGeom?
        case LinestringKind => row["geometry"].g.LineGeom?
        case PolygonKind => row["geometry"].g.PolygonGeom?
        case NoGeometry => true))
    ensures Normalise(c, row).Ok? ==>
      Normalise(c, row).value.Keys == (row.Keys - {"geometry", "fid"}) + AddedKeys(GeometryType(c))
    ensures Normalise(c, row).Ok? ==>
      forall k :: k in row && k !in {"geometry", "fid"} && k !in AddedKeys(GeometryType(c)) ==>
        Normalise(c, row).value[k] == row[k]
    ensures Normalise(c, row).Ok? && GeometryType(c) == PointKind ==>
      Normalise(c, row).value["x"] == Num(row["geometry"].g.p.x) &&
      Normalise(c, row).value["y"] == Num(row["geometry"].g.p.y)
    ensures Normalise(c, row).Ok? && GeometryType(c) == LinestringKind ==>
      Normalise(c, row).value["xy"] == XY(row["geometry"].g.vertices)
    ensures Normalise(c, row).Ok? && GeometryType(c) == PolygonKind ==>
      Normalise(c, row).value["xy"] == XY(row["geometry"].g.ring)
  {
  }

  /** Element.process_table_row: the normalised row (as render leaves it)
      and its rendered text. */
  function ProcessTableRow(c: ElementClass, row: Row): (r: Result<(Row, Text)>)
    ensures r.Ok? ==> Normalise(c, row).Ok? && Render.Render(c, Normalise(c, row).value).Ok?
    ensures r.Ok? && !IsLineSink(c) ==> r.value.0 == Normalise(c, row).value
  {
    var processed :- Normalise(c, row);
    Render.Render(c, processed)
  }

  /** What processing one table row yields: the row as rendered, and its text. */
  type Processor = Row -> Result<(Row, Text)>

  /** Every row processed in order; the first failure aborts. */
  function ProcessRows(process: Processor, rows: seq<Row>): Result<seq<(Row, Text)>> {
    if |rows| == 0 then Ok([])
    else
      var first :- process(rows[0]);
      var rest :- ProcessRows(process, rows[1..]);
      Ok([first] + rest)
  }

  /** Row `i` is the first whose processing fails. */
  predicate FirstFailure(process: Processor, rows: seq<Row>, i: nat)
    requires i < |rows|
  {
    process(rows[i]).Fail? && forall j :: 0 <= j < i ==> process(rows[j]).Ok?
  }

  /** Processing a table: each row's result in order when all succeed,
      otherwise the fault of the first row that fails. */
  lemma {:induction false} ProcessRowsSpec(process: Processor, rows: seq<Row>)
    ensures ProcessRows(process, rows).Ok? <==> forall i :: 0 <= i < |rows| ==> process(rows[i]).Ok?
    ensures ProcessRows(process, rows).Ok? ==> |ProcessRows(process, rows).value| == |rows|
    ensures ProcessRows(process, rows).Ok? ==> forall i :: 0 <= i < |rows| ==>
      process(rows[i]).Ok? && ProcessRows(process, rows).value[i] == process(rows[i]).value
    ensures ProcessRows(process, rows).Fail? ==>
      (exists i :: 0 <= i < |rows| && FirstFailure(process, rows, i) &&
         ProcessRows(process, rows).fault == process(rows[i]).fault)
  {
    if |rows| > 0 {
      ProcessRowsSpec(process, rows[1..]);
      assert forall i :: 1 <= i < |rows| ==> rows[1..][i - 1] == rows[i];
      if ProcessRows(process, rows).Ok? {
        var rest := ProcessRows(process, rows[1..]).value;
        assert ProcessRows(process, rows).value == [process(rows[0]).value] + rest;
      } else if process(rows[0]).Ok? {
        var i :| 0 <= i < |rows[1..]| && FirstFailure(process, rows[1..], i) &&
          ProcessRows(process, rows[1..]).fault == process(rows[1..][i]).fault;
        assert FirstFailure(process, rows, i + 1);
      } else {
        assert FirstFailure(process, rows, 0);
      }
    }
  }

  // ---- extract_data -----------------------------------------------------------

  /** The `data` of an extraction: the table's records (only when it has no
      rows), the last processed row, or the domain's bounding box. */
  datatype Data =
    | Records(rows: seq<Row>)
    | Record(row: Row)
    | Box(xmin: real, xmax: real, ymin: real, ymax: real)

  /** ElementExtraction: each part present or None. */
  datatype Extraction = Extraction(errors: Option<ErrorMap>, data: Option<Data>, rendered: Option<seq<Text>>)

  /** The body of Element.extract_data for a class with the given declared
      attributes, schema and row processing. The loop rebinds `data` to each
      processed row, so the returned data is the last row, or the (empty)
      record list when there are no rows. */
  function ExtractWith(attrs: set<string>, schema: Schema, process: Processor,
                       fields: set<string>, name: string, rows: seq<Row>): (r: Result<Extraction>)
    ensures !(attrs <= fields) ==> r == Ok(Extraction(Some(CheckColumns(attrs, fields)), None, None))
  {
    CheckColumnsSpec(attrs, fields);
    var missing := CheckColumns(attrs, fields);
    if missing != [] then Ok(Extraction(Some(missing), None, None))
    else
      var errors :- ValidateSchema(schema, name, rows);
      if errors != [] then Ok(Extraction(Some(errors), None, None))
      else
        var processed :- ProcessRows(process, rows);
        var data := if |processed| == 0 then Records(rows) else Record(processed[|processed| - 1].0);
        Ok(Extraction(None, Some(data), Some(seq(|processed|, i requires 0 <= i < |processed| => processed[i].1))))
  }

  /** extract_data stops early: validation runs only on a layer with every
      column, and its failure or its errors end the extraction before any
      row is rendered. */
  lemma ExtractWithStops(attrs: set<string>, schema: Schema, process: Processor,
                         fields: set<string>, name: string, rows: seq<Row>)
    requires attrs <= fields
    ensures ValidateSchema(schema, name, rows).Fail? ==>
      ExtractWith(attrs, schema, process, fields, name, rows) == Fail(ValidateSchema(schema, name, rows).fault)
    ensures ValidateSchema(schema, name, rows).Ok? && ValidateSchema(schema, name, rows).value != [] ==>
      ExtractWith(attrs, schema, process, fields, name, rows) ==
        Ok(Extraction(Some(ValidateSchema(schema, name, rows).value), None, None))
  {
    CheckColumnsSpec(attrs, fields);
  }

  /** A valid table is rendered row by row: it extracts iff every row
      processes, and then yields one text per row and, as data, the LAST
      processed row; a failing row's fault is the first one's. */
  lemma ExtractWithRenders(attrs: set<string>, schema: Schema, process: Processor,
                           fields: set<string>, name: string, rows: seq<Row>)
    requires attrs <= fields && ValidateSchema(schema, name, rows) == Ok([])
    ensures ExtractWith(attrs, schema, process, fields, name, rows).Ok? <==>
      forall i :: 0 <= i < |rows| ==> process(rows[i]).Ok?
    ensures ExtractWith(attrs, schema, process, fields, name, rows).Fail? ==>
      (exists i :: 0 <= i < |rows| && FirstFailure(process, rows, i) &&
         ExtractWith(attrs, schema, process, fields, name, rows).fault == process(rows[i]).fault)
    ensures ExtractWith(attrs, schema, process, fields, name, rows).Ok? ==>
      var e := ExtractWith(attrs, schema, process, fields, name, rows).value;
      e.errors.None? && e.rendered.Some? && |e.rendered.value| == |rows| &&
      (forall i :: 0 <= i < |rows| ==> process(rows[i]).Ok? && e.rendered.value[i] == process(rows[i]).value.1) &&
      e.data == Some(if |rows| == 0 then Records([]) else Record(process(rows[|rows| - 1]).value.0))
  {
    CheckColumnsSpec(attrs, fields);
    ProcessRowsSpec(process, rows);
    var r := ExtractWith(attrs, schema, process, fields, name, rows);
    assert r.Ok? <==> ProcessRows(process, rows).Ok?;
    if r.Fail? {
      assert r.fault == ProcessRows(process, rows).fault;
    }
  }

  // ---- Aquifer.to_gflow --------------------------------------------------------

  /** What the ExtractorMixin that Element inherits contributes to an
      Aquifer: the names it defines, and what its `check_gflow_columns`
      returns if it defines one. gflow/core/extractor.py is not part of this
      model, so both are parameters. */
  datatype Mixin = Mixin(methods: set<string>, gflowMissing: ErrorMap)

  /** The methods and attributes Element and Aquifer define themselves. */
  const AquiferNames: set<string> := {
    // Element's methods
    "_initialize_default", "__init__", "dialog", "_create_layer", "create_layer",
    "set_defaults", "marker_renderer", "line_renderer", "polygon_renderer", "renderer",
    "set_dropdown", "set_editor_widget", "layer_from_geopackage", "load_layer_from_geopackage",
    "write", "remove_from_geopackage", "check_table_columns", "process_table_row",
    "extract_data", "_render_xy",
    // Aquifer's own methods
    "to_gflow",
    // class and instance attributes
    "element_type", "geometry_type", "attributes", "defaults", "schema",
    "name", "path", "gflow_name", "layer", "item"
  }

  /** Looking a name up on an Aquifer: AttributeError unless Element, Aquifer
      or the mixin defines it. */
  function AquiferMethod(mixin: Mixin, name: string): (r: Result<string>)
    ensures r.Ok? <==> name in AquiferNames || name in mixin.methods
    ensures r.Ok? ==> r.value == name
    ensures r.Fail? ==> r.fault == AttributeError(name)
  {
    if name in AquiferNames || name in mixin.methods then Ok(name) else Fail(AttributeError(name))
  }

  /** Aquifer.to_gflow, which Aquifer.extract_data calls: the mixin's column
      check, whose errors end the extraction, then the mixin's
      `table_to_records` and the schema's `validate_gflow` on its records. */
  function AquiferToGflow(mixin: Mixin, rows: seq<Row>): (r: Result<Extraction>)
    ensures r.Ok? <==> "check_gflow_columns" in mixin.methods && mixin.gflowMissing != []
    ensures r.Ok? ==> r.value == Extraction(Some(mixin.gflowMissing), None, None)
    ensures r.Fail? ==>
      r.fault == AttributeError(
        if "check_gflow_columns" !in mixin.methods then "check_gflow_columns"
        else if "table_to_records" !in mixin.methods then "table_to_records"
        else "validate_gflow")
  {
    var _ :- AquiferMethod(mixin, "check_gflow_columns");
    if mixin.gflowMissing != [] then Ok(Extraction(Some(mixin.gflowMissing), None, None))
    else
      var _ :- AquiferMethod(mixin, "table_to_records");
      var validate := SchemaMethod("validate_gflow");
      if validate.Fail? then Fail(validate.fault)
      else Ok(Extraction(None, Some(Records(rows)), None))
  }

  /** Whatever the mixin defines, an Aquifer never yields data: neither
      Element nor Aquifer defines `check_gflow_columns`, and no schema class
      defines `validate_gflow`, so at best the mixin's column errors come
      back. */
  lemma AquiferNeverExtracts(mixin: Mixin, rows: seq<Row>)
    ensures "check_gflow_columns" !in AquiferNames && "validate_gflow" !in SchemaMethods
    ensures AquiferToGflow(mixin, rows).Ok? ==> AquiferToGflow(mixin, rows).value.data.None?
    ensures "check_gflow_columns" !in mixin.methods ==>
      AquiferToGflow(mixin, rows) == Fail(AttributeError("check_gflow_columns"))
  {
  }

  /** Element.extract_data, or for an Aquifer its override, `to_gflow`. */
  function ExtractData(c: ElementClass, mixin: Mixin, fields: set<string>, name: string, rows: seq<Row>): Result<Extraction> {
    if c == Aquifer then AquiferToGflow(mixin, rows)
    else ExtractWith(AttributeNames(c), SchemaOf(c), row => ProcessTableRow(c, row), fields, name, rows)
  }

  /** The outcome of extract_data by class. An Aquifer never yields data. Any
      other class reports exactly its missing columns when some are absent;
      with every column present, a failing validation is its fault and
      validation errors are returned before any row is rendered; on a valid
      table it succeeds exactly when every row processes, with one text per
      row. */
  lemma ExtractDataSpec(c: ElementClass, mixin: Mixin, fields: set<string>, name: string, rows: seq<Row>)
    ensures c == Aquifer && ExtractData(c, mixin, fields, name, rows).Ok? ==>
      ExtractData(c, mixin, fields, name, rows).value.data.None?
    ensures c != Aquifer && !(AttributeNames(c) <= fields) ==>
      ExtractData(c, mixin, fields, name, rows) == Ok(Extraction(Some(CheckTableColumns(c, fields)), None, None))
    ensures c != Aquifer && AttributeNames(c) <= fields && ValidateSchema(SchemaOf(c), name, rows).Fail? ==>
      ExtractData(c, mixin, fields, name, rows) == Fail(ValidateSchema(SchemaOf(c), name, rows).fault)
    ensures c != Aquifer && AttributeNames(c) <= fields && ValidateSchema(SchemaOf(c), name, rows).Ok? &&
            ValidateSchema(SchemaOf(c), name, rows).value != [] ==>
      ExtractData(c, mixin, fields, name, rows) == Ok(Extraction(Some(ValidateSchema(SchemaOf(c), name, rows).value), None, None))
    ensures c != Aquifer && AttributeNames(c) <= fields && ValidateSchema(SchemaOf(c), name, rows) == Ok([]) ==>
      (ExtractData(c, mixin, fields, name, rows).Ok? <==> forall i :: 0 <= i < |rows| ==> ProcessTableRow(c, rows[i]).Ok?) &&
      (ExtractData(c, mixin, fields, name, rows).Ok? ==>
        var e := ExtractData(c, mixin, fields, name, rows).value;
        e.errors.None? && e.rendered.Some? && |e.rendered.value| == |rows|)
  {
    if c == Aquifer {
      AquiferNeverExtracts(mixin, rows);
    } else {
      var process: Processor := row => ProcessTableRow(c, row);
      assert ExtractData(c, mixin, fields, name, rows) == ExtractWith(AttributeNames(c), SchemaOf(c), process, fields, name, rows);
      if AttributeNames(c) <= fields {
        ExtractWithStops(AttributeNames(c), SchemaOf(c), process, fields, name, rows);
        if ValidateSchema(SchemaOf(c), name, rows) == Ok([]) {
          ExtractWithRenders(AttributeNames(c), SchemaOf(c), process, fields, name, rows);
        }
      }
    }
  }

  /** A class without a render method fails on every row it can normalise. */
  lemma NoRenderRowFails(c: ElementClass, row: Row)
    requires !HasRender(c) && Normalise(c, row).Ok?
    ensures ProcessTableRow(c, row) == Fail(AttributeError("render"))
  {
  }

  /** A class without a render method (Domain, Uniform Flow, Barrier, Flux
      Inspector and Backward Particle among the registered ones) never
      extracts a non-empty valid table: rendering its first row raises. */
  lemma NoRenderNeverExtracts(c: ElementClass, mixin: Mixin, fields: set<string>, name: string, rows: seq<Row>)
    requires c != Aquifer && !HasRender(c)
    requires AttributeNames(c) <= fields && ValidateSchema(SchemaOf(c), name, rows) == Ok([])
    requires |rows| > 0 && Normalise(c, rows[0]).Ok?
    ensures ExtractData(c, mixin, fields, name, rows) == Fail(AttributeError("render"))
  {
    var process: Processor := row => ProcessTableRow(c, row);
    NoRenderRowFails(c, rows[0]);
    assert process(rows[0]) == Fail(AttributeError("render"));
    ExtractWithRenders(AttributeNames(c), SchemaOf(c), process, fields, name, rows);
    assert FirstFailure(process, rows, 0);
  }

  // ---- Domain ------------------------------------------------------------------

  /** The smallest and largest of a non-empty list. */
  function Min(xs: seq<real>): (m: real)
    requires |xs| > 0
    ensures forall i :: 0 <= i < |xs| ==> m <= xs[i]
    ensures exists i :: 0 <= i < |xs| && m == xs[i]
  {
    if |xs| == 1 then xs[0]
    else
      var rest := Min(xs[1..]);
      assert forall i :: 1 <= i < |xs| ==> xs[1..][i - 1] == xs[i];
      if xs[0] <= rest then xs[0] else rest
  }

  function Max(xs: seq<real>): (m: real)
    requires |xs| > 0
    ensures forall i :: 0 <= i < |xs| ==> xs[i] <= m
    ensures exists i :: 0 <= i < |xs| && m == xs[i]
  {
    if |xs| == 1 then xs[0]
    else
      var rest := Max(xs[1..]);
      assert forall i :: 1 <= i < |xs| ==> xs[1..][i - 1] == xs[i];
      if xs[0] >= rest then xs[0] else rest
  }

  /** The data of Domain.to_gflow: the bounding box of the vertices. The
      method first calls `validate_gflow`, which no schema defines. */
  function BoundingBox(pts: seq<Point>): (r: Result<Data>)
    ensures r.Ok? <==> |pts| > 0
    ensures r.Ok? ==> r.value.Box? && r.value.xmin <= r.value.xmax && r.value.ymin <= r.value.ymax
    ensures r.Ok? ==> forall i :: 0 <= i < |pts| ==>
      r.value.xmin <= pts[i].x <= r.value.xmax && r.value.ymin <= pts[i].y <= r.value.ymax
  {
    if |pts| == 0 then Fail(ValueError)
    else
      var xs := seq(|pts|, i requires 0 <= i < |pts| => pts[i].x);
      var ys := seq(|pts|, i requires 0 <= i < |pts| => pts[i].y);
      assert forall i :: 0 <= i < |pts| ==> xs[i] == pts[i].x && ys[i] == pts[i].y;
      Ok(Box(Min(xs), Max(xs), Min(ys), Max(ys)))
  }

  /** Domain.to_gflow as written: it asks its schema for `validate_gflow`
      before it reads the first row's ring, whose bounding box is the data
      when no errors come back. Domain inherits Element.extract_data, so
      nothing in the plugin calls this method. */
  function DomainToGflow(rows: seq<Row>): (r: Result<Extraction>)
    ensures r.Ok? ==> |rows| > 0 && VerticesOf(rows[0], PolygonKind).Ok?
    ensures r.Ok? ==> BoundingBox(VerticesOf(rows[0], PolygonKind).value).Ok?
    ensures r.Ok? ==>
      r.value == Extraction(None, Some(BoundingBox(VerticesOf(rows[0], PolygonKind).value).value), None)
  {
    var _ :- SchemaMethod("validate_gflow");
    if |rows| == 0 then Fail(IndexError)
    else
      var pts :- VerticesOf(rows[0], PolygonKind);
      var box :- BoundingBox(pts);
      Ok(Extraction(None, Some(box), None))
  }

  /** No schema class defines `validate_gflow`, so Domain.to_gflow raises
      AttributeError on every table, before it reads a row. */
  lemma DomainToGflowFails(rows: seq<Row>)
    ensures "validate_gflow" !in SchemaMethods
    ensures DomainToGflow(rows) == Fail(AttributeError("validate_gflow"))
  {
  }

  /** Domain.update_extent: the ring the domain is reset to, clockwise from
      the top-left corner, and the pair it returns, (ymax, ymin). */
  function UpdateExtent(xmin: real, ymin: real, xmax: real, ymax: real): (r: (seq<Point>, (real, real)))
    ensures |r.0| == 4
    ensures forall i :: 0 <= i < 4 ==> r.0[i].x in {xmin, xmax} && r.0[i].y in {ymin, ymax}
    ensures r.0[0].y == r.0[1].y == ymax && r.0[2].y == r.0[3].y == ymin
    ensures r.0[0].x == r.0[3].x == xmin && r.0[1].x == r.0[2].x == xmax
    ensures r.1 == (ymax, ymin)
  {
    ([Point(xmin, ymax), Point(xmax, ymax), Point(xmax, ymin), Point(xmin, ymin)], (ymax, ymin))
  }

  /** Written back through to_gflow's bounding box, the ring of update_extent
      gives the extent it was made from, whenever that extent is ordered. */
  lemma ExtentRoundTrip(xmin: real, ymin: real, xmax: real, ymax: real)
    requires xmin <= xmax && ymin <= ymax
    ensures BoundingBox(UpdateExtent(xmin, ymin, xmax, ymax).0) == Ok(Box(xmin, xmax, ymin, ymax))
  {
    var pts := UpdateExtent(xmin, ymin, xmax, ymax).0;
    var b := BoundingBox(pts).value;
    assert pts[0].x == xmin && pts[1].x == xmax && pts[0].y == ymax && pts[2].y == ymin;
    assert b.xmin <= xmin && xmax <= b.xmax && b.ymin <= ymin && ymax <= b.ymax;
  }

  // ---- process_gflow_row ------------------------------------------------------

  /** The `process_gflow_row` methods of Uniform Flow, Barrier, Flux Inspector
      and the unregistered head line sink of head_line_sink.py: a new row of
      exactly the listed fields (and the vertices). Other classes define none. */
  function GflowFields(c: ElementClass): seq<string> {
    match c
    case UniformFlow => ["head", "gradient", "orientation"]
    case Barrier => ["conductivity", "thickness", "porosity", "bottom_elevation", "label"]
    case LegacyHeadLineSink => ["starting_head", "ending_head", "resistance", "width", "depth", "label"]
    case _ => []
  }

  /** A new dict of the listed fields of a row; an absent one is a KeyError. */
  function CopyFields(row: Row, fields: seq<string>): (r: Result<Row>)
    ensures r.Ok? <==> forall i :: 0 <= i < |fields| ==> fields[i] in row
    ensures r.Ok? ==> forall i :: 0 <= i < |fields| ==> fields[i] in r.value
    ensures r.Ok? ==> forall k :: k in r.value ==> k in fields && k in row && r.value[k] == row[k]
  {
    if |fields| == 0 then Ok(map[])
    else
      var v :- Lookup(row, fields[0]);
      var rest :- CopyFields(row, fields[1..]);
      assert forall i :: 1 <= i < |fields| ==> fields[1..][i - 1] == fields[i];
      Ok(rest[fields[0] := v])
  }

  function ProcessGflowRow(c: ElementClass, row: Row): (r: Result<Row>)
    ensures c !in {UniformFlow, Barrier, FluxInspector, LegacyHeadLineSink} ==>
      r == Fail(AttributeError("process_gflow_row"))
    ensures r.Ok? && c != UniformFlow ==>
      "geometry" in row && row["geometry"].Geom? && row["geometry"].g.LineGeom? &&
      "xy" in r.value && r.value["xy"] == XY(row["geometry"].g.vertices)
    ensures r.Ok? ==> forall k :: k in r.value && k != "xy" ==> k in row && r.value[k] == row[k]
  {
    match c
    case UniformFlow => CopyFields(row, GflowFields(c))
    case Barrier | FluxInspector | LegacyHeadLineSink =>
      var vs :- VerticesOf(row, LinestringKind);
      var fields :- CopyFields(row, GflowFields(c));
      Ok(fields["xy" := XY(vs)])
    case _ => Fail(AttributeError("process_gflow_row"))
  }

  /** Uniform flow's gflow row is exactly its head, gradient and orientation. */
  lemma UniformFlowGflowRow(row: Row)
    ensures ProcessGflowRow(UniformFlow, row).Ok? <==> "head" in row && "gradient" in row && "orientation" in row
    ensures ProcessGflowRow(UniformFlow, row).Ok? ==>
      ProcessGflowRow(UniformFlow, row).value == map["head" := row["head"], "gradient" := row["gradient"], "orientation" := row["orientation"]]
  {
    var fields := ["head", "gradient", "orientation"];
    assert GflowFields(UniformFlow) == fields;
    if ProcessGflowRow(UniformFlow, row).Ok? {
      var r := ProcessGflowRow(UniformFlow, row).value;
      assert fields[0] in r && fields[1] in r && fields[2] in r;
      assert forall k :: k in r ==> k in fields;
    }
  }

  /** The flux inspector's gflow row is its vertices and nothing else. */
  lemma FluxInspectorGflowRow(row: Row)
    ensures ProcessGflowRow(FluxInspector, row).Ok? ==> ProcessGflowRow(FluxInspector, row).value.Keys == {"xy"}
  {
  }
}
