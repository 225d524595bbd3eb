/** The extraction classes of the XTR reader and its scan loop
    (`extraction_to_layers`): which header line starts which block, the
    columns of every block, the fields of the layers the blocks become, the
    line-sink and doublet post-processing, and the layers written out. The
    scan uses the reader of extract/__init__.py, the copy that removes NULs. */
module Extractions {
  import opened Wrappers
  import opened Values
  import opened Extract
  import Strings

  /** The extraction classes MAPPING dispatches to. */
  datatype Kind =
    | DischargeWells
    | HeadWells
    | DischargeLineSinks
    | HeadLineSinks
    | Drains
    | Galleries
    | InhomogeneityDomains
    | OpenSlurryWalls
    | ClosedSlurryWalls
    | TestPoints

  predicate IsLineSink(k: Kind) {
    k.DischargeLineSinks? || k.HeadLineSinks? || k.Drains? || k.Galleries?
  }

  predicate IsDoublet(k: Kind) {
    k.InhomogeneityDomains? || k.OpenSlurryWalls? || k.ClosedSlurryWalls?
  }

  /** The column caption line of the test point block, which doubles as its
      header: 15 captions, "leakage (bottom)" being one. */
  const TestPointHeader: string :=
    "*      x              y              z          porosity    hydr. conduct.   base elevation net recharge  leakage (bottom)      head      lower head     resistance                   Vx                    Vy                    Vz              label"

  /** The MAPPING key of each class. */
  function Header(k: Kind): string {
    match k
    case DischargeWells => "! discharge specified wells"
    case HeadWells => "! head specified wells"
    case DischargeLineSinks => "! discharge specified line sinks"
    case HeadLineSinks => "! head specified line sinks"
    case Drains => "! drains"
    case Galleries => "! galleries"
    case InhomogeneityDomains => "! transmissivity inhomogeneity domain."
    case OpenSlurryWalls => "! open slurry wall."
    case ClosedSlurryWalls => "! closed slurry wall."
    case TestPoints => TestPointHeader
  }

  /** `MAPPING.get(line)`: the class whose header is exactly the line. */
  function KindOf(line: string): (r: Option<Kind>)
    ensures r.Some? ==> Header(r.value) == line
  {
    if line == Header(DischargeWells) then Some(DischargeWells)
    else if line == Header(HeadWells) then Some(HeadWells)
    else if line == Header(DischargeLineSinks) then Some(DischargeLineSinks)
    else if line == Header(HeadLineSinks) then Some(HeadLineSinks)
    else if line == Header(Drains) then Some(Drains)
    else if line == Header(Galleries) then Some(Galleries)
    else if line == Header(InhomogeneityDomains) then Some(InhomogeneityDomains)
    else if line == Header(OpenSlurryWalls) then Some(OpenSlurryWalls)
    else if line == Header(ClosedSlurryWalls) then Some(ClosedSlurryWalls)
    else if line == Header(TestPoints) then Some(TestPoints)
    else None
  }

  /** The layer name each class writes (`name`). */
  function Name(k: Kind): string {
    match k
    case DischargeWells => "gflow Discharge Well"
    case HeadWells => "gflow Head Well"
    case DischargeLineSinks => "gflow Discharge Line Sink"
    case HeadLineSinks => "gflow Head Line Sink"
    case Drains => "gflow Line Sink"
    case Galleries => "gflow Gallery Line Sink"
    case InhomogeneityDomains => "gflow Inhomogeneity"
    case OpenSlurryWalls => "gflow Open Slurry Wall"
    case ClosedSlurryWalls => "gflow Closed Slurry Wall"
    case TestPoints => "gflow Test Point"
  }

  /** The node layer name of a doublet class (`node_name`). */
  function NodeName(k: Kind): string
    requires IsDoublet(k)
  {
    match k
    case InhomogeneityDomains => "gflow Inhomogeneity Nodes"
    case OpenSlurryWalls => "gflow Open Slurry Wall Nodes"
    case ClosedSlurryWalls => "gflow Closed Slurry Wall Nodes"
  }

  const DoubletAttributes: seq<string> :=
    ["string#", "conductivity", "width", "porosity", "wall_bottom_elevation", "label"]

  const DoubletNodeAttributes: seq<string> :=
    ["node#", "x", "y", "xc", "yc", "str_pot_jump_node", "parab_str_pot_jump",
     "delta_flow_cntr%", "delta_flow_node%", "label"]

  /** The columns of each block (`attributes`). */
  function Attributes(k: Kind): seq<string> {
    match k
    case DischargeWells => ["x", "y", "radius", "Q", "head", "label"]
    case HeadWells => ["x", "y", "radius", "Q", "head", "%error_in_head", "label"]
    case DischargeLineSinks => ["x1", "y1", "x2", "y2", "discharge", "label"]
    case HeadLineSinks =>
      ["x1", "y1", "x2", "y2", "specified_head", "calculated_head", "discharge", "width",
       "resistance", "depth", "baseflow", "overlandflow", "%error_BC", "label"]
    case Drains =>
      ["x1", "y1", "x2", "y2", "drainage_elevation", "calculated_head", "discharge", "width",
       "resistance", "depth", "%error_BC", "label"]
    case Galleries =>
      ["x1", "y1", "x2", "y2", "gallery_elevation", "calculated_water_level", "discharge", "width",
       "resistance", "depth", "%error_BC", "label"]
    case InhomogeneityDomains =>
      ["string#", "conductivity", "bottom_elevation", "extraction_rate", "porosity",
       "domain_area", "average_potential_jump"]
    case OpenSlurryWalls => DoubletAttributes
    case ClosedSlurryWalls => DoubletAttributes
    case TestPoints =>
      ["x", "y", "z", "porosity", "conductivity", "base_elevation", "net_recharge", "leakage",
       "bottom_leakage", "head", "lower_head", "resistance", "vx", "vy", "vz", "label"]
  }

  /** The columns of a doublet's node block (`node_attributes`). */
  function NodeAttributes(k: Kind): seq<string>
    requires IsDoublet(k)
  {
    if k.InhomogeneityDomains? then
      ["node#", "x", "y", "xc", "yc", "str_pot_jump_node", "parab_str_pot_jump",
       "real_str_extr_node", "imag_str_extr_node", "real_str_extr_cntr", "Ti/(Ti-T0)",
       "delta_P_node%", "delta_P_cntr%", "label"]
    else DoubletNodeAttributes
  }

  /** The geometry of a memory layer (`layer_class`). */
  datatype Shape = PointLayer | LineStringLayer | PolygonLayer

  function LayerClass(k: Kind): Shape {
    match k
    case DischargeWells => PointLayer
    case HeadWells => PointLayer
    case TestPoints => PointLayer
    case DischargeLineSinks => LineStringLayer
    case HeadLineSinks => LineStringLayer
    case Drains => LineStringLayer
    case Galleries => LineStringLayer
    case OpenSlurryWalls => LineStringLayer
    case InhomogeneityDomains => PolygonLayer
    case ClosedSlurryWalls => PolygonLayer
  }

  // ---- memory layers ----------------------------------------------------------

  datatype FieldType = StringField | DoubleField

  /** A QgsField: a name and a type. */
  datatype Field = Field(name: string, typ: FieldType)

  /** The attribute names that are coordinates and get no field. */
  const Coordinates: set<string> := {"x", "y", "x1", "y1", "x2", "y2", "xc", "yc"}

  /** The fields of `_create_memory_layer`, built attribute by attribute. */
  function Fields(attrs: seq<string>): seq<Field> {
    if |attrs| == 0 then []
    else
      var own := if attrs[0] in Coordinates then []
        else [Field(attrs[0], if attrs[0] == "label" then StringField else DoubleField)];
      own + Fields(attrs[1..])
  }

  /** Each field is an attribute that is not a coordinate, typed as text
      exactly when it is "label". */
  lemma {:induction false} FieldsSound(attrs: seq<string>)
    ensures forall i :: 0 <= i < |Fields(attrs)| ==>
      Fields(attrs)[i].name in attrs && Fields(attrs)[i].name !in Coordinates
    ensures forall i :: 0 <= i < |Fields(attrs)| ==>
      (Fields(attrs)[i].typ == StringField <==> Fields(attrs)[i].name == "label")
  {
    if |attrs| > 0 {
      FieldsSound(attrs[1..]);
      var rest := Fields(attrs[1..]);
      var r := Fields(attrs);
      var d := |r| - |rest|;
      assert forall i :: d <= i < |r| ==> r[i] == rest[i - d];
    }
  }

  /** Every attribute that is not a coordinate gets a field. */
  lemma {:induction false} FieldsComplete(attrs: seq<string>, a: string)
    requires a in attrs && a !in Coordinates
    ensures exists i :: 0 <= i < |Fields(attrs)| && Fields(attrs)[i].name == a
  {
    var r := Fields(attrs);
    if a == attrs[0] {
      assert r[0].name == a;
    } else {
      assert a in attrs[1..];
      FieldsComplete(attrs[1..], a);
      var rest := Fields(attrs[1..]);
      var i :| 0 <= i < |rest| && rest[i].name == a;
      assert r[|r| - |rest| + i] == rest[i];
    }
  }

  /** The fields keep the order of the attributes. */
  lemma {:induction false} FieldsAppend(a: seq<string>, b: seq<string>)
    ensures Fields(a + b) == Fields(a) + Fields(b)
  {
    if |a| == 0 {
      assert a + b == b;
    } else {
      assert (a + b)[1..] == a[1..] + b;
      FieldsAppend(a[1..], b);
    }
  }

  /** A discharge-well layer is a point layer with the fields radius, Q,
      head and label. */
  lemma DischargeWellFields()
    ensures LayerClass(DischargeWells) == PointLayer
    ensures Fields(Attributes(DischargeWells)) ==
      [Field("radius", DoubleField), Field("Q", DoubleField), Field("head", DoubleField),
       Field("label", StringField)]
  {
    FieldsXY();
    WellColumns();
    FieldsAppend(["x", "y"], DischargeWellValues);
    DischargeWellValueFields();
  }

  /** A head-well layer is a point layer whose fields add %error_in_head
      before label. */
  lemma HeadWellFields()
    ensures LayerClass(HeadWells) == PointLayer
    ensures Fields(Attributes(HeadWells)) ==
      [Field("radius", DoubleField), Field("Q", DoubleField), Field("head", DoubleField),
       Field("%error_in_head", DoubleField), Field("label", StringField)]
  {
    FieldsXY();
    WellColumns();
    FieldsAppend(["x", "y"], HeadWellValues);
    HeadWellValueFields();
  }

  /** The well columns after the coordinates x and y. */
  const DischargeWellValues: seq<string> := ["radius", "Q", "head", "label"]
  const HeadWellValues: seq<string> := ["radius", "Q", "head", "%error_in_head", "label"]

  lemma WellColumns()
    ensures Attributes(DischargeWells) == ["x", "y"] + DischargeWellValues
    ensures Attributes(HeadWells) == ["x", "y"] + HeadWellValues
  {
  }

  lemma DischargeWellValueFields()
    ensures Fields(DischargeWellValues) ==
      [Field("radius", DoubleField), Field("Q", DoubleField), Field("head", DoubleField),
       Field("label", StringField)]
  {
    FieldsNoCoordinates(DischargeWellValues);
  }

  lemma HeadWellValueFields()
    ensures Fields(HeadWellValues) ==
      [Field("radius", DoubleField), Field("Q", DoubleField), Field("head", DoubleField),
       Field("%error_in_head", DoubleField), Field("label", StringField)]
  {
    FieldsNoCoordinates(HeadWellValues);
  }

  /** Every line-sink block is a linestring layer whose records start with
      the two end points, which the pairing step turns into x and y. The
      drain block writes the layer "gflow Line Sink"; head line sinks have 14
      columns and discharge line sinks 6. */
  lemma LineSinkBlocks(k: Kind)
    requires IsLineSink(k)
    ensures LayerClass(k) == LineStringLayer
    ensures |Attributes(k)| >= 6 && Attributes(k)[..4] == ["x1", "y1", "x2", "y2"]
    ensures Attributes(k)[|Attributes(k)| - 1] == "label"
    ensures Name(Drains) == "gflow Line Sink"
    ensures |Attributes(HeadLineSinks)| == 14 && |Attributes(DischargeLineSinks)| == 6
  {
  }

  /** The inhomogeneity line block has 7 columns and no label; its node
      block has 14. Every doublet's node block holds x, y, xc and yc. */
  lemma DoubletBlocks(k: Kind)
    requires IsDoublet(k)
    ensures |Attributes(InhomogeneityDomains)| == 7 && "label" !in Attributes(InhomogeneityDomains)
    ensures |NodeAttributes(InhomogeneityDomains)| == 14
    ensures NodeAttributes(k)[1..5] == ["x", "y", "xc", "yc"]
  {
  }

  /** The point coordinates give no fields. */
  lemma FieldsXY()
    ensures Fields(["x", "y"]) == []
  {
    assert ["x", "y"][1..] == ["y"];
    assert ["y"][1..] == [];
  }

  /** The test-point columns after the coordinates x and y. */
  const TestPointValues: seq<string> :=
    ["z", "porosity", "conductivity", "base_elevation", "net_recharge", "leakage",
     "bottom_leakage", "head", "lower_head", "resistance", "vx", "vy", "vz", "label"]

  lemma TestPointColumns()
    ensures Attributes(TestPoints) == ["x", "y"] + TestPointValues
    ensures forall i :: 0 <= i < |TestPointValues| ==> TestPointValues[i] !in Coordinates
  {
  }

  /** A test-point layer is a point layer with 16 columns, label last; only
      x and y are coordinates, so the other 14 columns, z included, become fields. */
  lemma TestPointFields()
    ensures LayerClass(TestPoints) == PointLayer
    ensures |Attributes(TestPoints)| == 16 && Attributes(TestPoints)[15] == "label"
    ensures |Fields(Attributes(TestPoints))| == 14
  {
    FieldsXY();
    TestPointColumns();
    FieldsAppend(["x", "y"], TestPointValues);
    FieldsNoCoordinates(TestPointValues);
  }

  /** Attributes with no coordinate among them map one-to-one onto fields. */
  lemma {:induction false} FieldsNoCoordinates(attrs: seq<string>)
    requires forall i :: 0 <= i < |attrs| ==> attrs[i] !in Coordinates
    ensures |Fields(attrs)| == |attrs|
    ensures forall i :: 0 <= i < |attrs| ==>
      Fields(attrs)[i] == Field(attrs[i], if attrs[i] == "label" then StringField else DoubleField)
  {
    if |attrs| > 0 {
      FieldsNoCoordinates(attrs[1..]);
    }
  }

  datatype MemoryLayer = MemoryLayer(name: string, shape: Shape, fields: seq<Field>, features: seq<Record>)

  /** `_create_memory_layer`: an empty layer of the class's shape whose
      fields are the non-coordinate attributes. Its loop variable shadows
      the `name` parameter, so the layer is named after the last attribute. */
  function NewMemoryLayer(name: string, attrs: seq<string>, shape: Shape): MemoryLayer {
    var layerName := if |attrs| == 0 then name else attrs[|attrs| - 1];
    MemoryLayer(layerName, shape, Fields(attrs), [])
  }

  /** The record carries the coordinates its geometry is built from. */
  predicate Located(row: Record) {
    "x" in row && "y" in row
  }

  /** The coordinate key a record lacks first: the geometry reads x, then y. */
  function MissingXY(row: Record): string {
    if "x" !in row then "x" else "y"
  }

  /** The index of the first record without coordinates, or the number of
      records when every record has them. */
  function FirstUnlocated(records: seq<Record>): (n: nat)
    ensures n <= |records|
    ensures forall i :: 0 <= i < n ==> Located(records[i])
    ensures n < |records| ==> !Located(records[n])
  {
    if |records| == 0 || !Located(records[0]) then 0
    else
      var n := FirstUnlocated(records[1..]);
      assert forall i :: 0 < i <= n ==> records[1..][i - 1] == records[i];
      1 + n
  }

  /** `add_features_from_records`: each record in turn yields a geometry
      from `record["x"]` and `record["y"]` and becomes a feature. The layer
      gains every record, in order, exactly when all of them have both
      coordinates; otherwise the first record without them raises the
      KeyError of the key it lacks first. */
  function AddFeatures(layer: MemoryLayer, records: seq<Record>): (r: Result<MemoryLayer>)
    ensures r.Ok? <==> forall i :: 0 <= i < |records| ==> Located(records[i])
    ensures r.Fail? ==>
      FirstUnlocated(records) < |records| && r.fault == KeyError(MissingXY(records[FirstUnlocated(records)]))
    ensures r.Ok? ==> r.value == layer.(features := layer.features + records)
    decreases |records|
  {
    if |records| == 0 then
      assert layer.features + records == layer.features;
      Ok(layer)
    else
      var x :- Lookup(records[0], "x");
      var y :- Lookup(records[0], "y");
      var rest := records[1..];
      assert forall i :: 0 < i < |records| ==> rest[i - 1] == records[i];
      assert (layer.features + [records[0]]) + rest == layer.features + records;
      AddFeatures(layer.(features := layer.features + [records[0]]), rest)
  }

  /** A layer written to the GeoPackage: the name it is stored under, whether
      it was written as a new file, and its content. */
  datatype Written = Written(name: string, newfile: bool, layer: MemoryLayer)

  // ---- line sinks -----------------------------------------------------------------

  /** The record holds both ends of the segment. */
  predicate HasEnds(row: Record) {
    "x1" in row && "x2" in row && "y1" in row && "y2" in row
  }

  /** The first end key the record lacks, in the order of the pops. */
  function MissingEnd(row: Record): string {
    if "x1" !in row then "x1"
    else if "x2" !in row then "x2"
    else if "y1" !in row then "y1"
    else "y2"
  }

  /** `row["x"] = (row.pop("x1"), row.pop("x2"))`, then the same for y. It
      succeeds exactly when the record holds both ends, and otherwise raises
      the KeyError of the first end key missing. Afterwards "x" holds
      (x1, x2), "y" holds (y1, y2), the four end keys are gone, and every
      other key is as before. */
  function PairEnds(row: Record): (r: Result<Record>)
    ensures r.Ok? <==> HasEnds(row)
    ensures r.Fail? ==> r.fault == KeyError(MissingEnd(row))
    ensures r.Ok? ==> (r.value ==
      (row - {"x1", "x2", "y1", "y2"})["x" := Pair(row["x1"], row["x2"])]["y" := Pair(row["y1"], row["y2"])])
  {
    var (x1, r1) :- PopField(row, "x1");
    var (x2, r2) :- PopField(r1, "x2");
    var r3 := r2["x" := Pair(x1, x2)];
    var (y1, r4) :- PopField(r3, "y1");
    var (y2, r5) :- PopField(r4, "y2");
    Ok(r5["y" := Pair(y1, y2)])
  }

  /** The pairing loop over all records, which stops at the first failure. */
  function PairAll(rows: seq<Record>): Result<seq<Record>> {
    if |rows| == 0 then Ok([])
    else
      var first :- PairEnds(rows[0]);
      var rest :- PairAll(rows[1..]);
      Ok([first] + rest)
  }

  /** The loop succeeds exactly when every record holds both ends; it keeps
      the number and the order of the records and pairs each one. */
  lemma {:induction false} PairAllSpec(rows: seq<Record>)
    ensures PairAll(rows).Ok? <==> forall i :: 0 <= i < |rows| ==> HasEnds(rows[i])
    ensures PairAll(rows).Ok? ==> |PairAll(rows).value| == |rows|
    ensures PairAll(rows).Ok? ==>
      forall i :: 0 <= i < |rows| ==> PairEnds(rows[i]) == Ok(PairAll(rows).value[i])
  {
    if |rows| > 0 {
      PairAllSpec(rows[1..]);
      assert forall i :: 1 <= i < |rows| ==> rows[1..][i - 1] == rows[i];
    }
  }

  // ---- doublets ---------------------------------------------------------------------

  /** The record holds a vertex and its centre point. */
  predicate HasNode(row: Record) {
    "x" in row && "y" in row && "xc" in row && "yc" in row
  }

  /** The first node key the record lacks, in the order they are read. */
  function MissingNode(row: Record): string {
    if "x" !in row then "x"
    else if "y" !in row then "y"
    else if "xc" !in row then "xc"
    else "yc"
  }

  /** One turn of the node loop: the node's x and y are collected, and then
      `row["x"] = row.pop("xc")` and `row["y"] = row.pop("yc")`. */
  function Relocate(row: Record): (r: Result<(Cell, Cell, Record)>)
    ensures r.Ok? <==> HasNode(row)
    ensures r.Fail? ==> r.fault == KeyError(MissingNode(row))
    ensures r.Ok? ==> (r.value ==
      (row["x"], row["y"], (row - {"xc", "yc"})["x" := row["xc"]]["y" := row["yc"]]))
  {
    var x :- Lookup(row, "x");
    var y :- Lookup(row, "y");
    var (xc, r1) :- PopField(row, "xc");
    var r2 := r1["x" := xc];
    var (yc, r3) :- PopField(r2, "yc");
    var node := r3["y" := yc];
    assert node == (row - {"xc", "yc"})["x" := row["xc"]]["y" := row["yc"]] by {
      assert node.Keys == ((row - {"xc", "yc"})["x" := row["xc"]]["y" := row["yc"]]).Keys;
    }
    Ok((x, y, node))
  }

  /** The node loop: the x and y columns, and the relocated nodes. */
  function RelocateAll(rows: seq<Record>): Result<(seq<Cell>, seq<Cell>, seq<Record>)> {
    if |rows| == 0 then Ok(([], [], []))
    else
      var (x, y, first) :- Relocate(rows[0]);
      var (xs, ys, rest) :- RelocateAll(rows[1..]);
      Ok(([x] + xs, [y] + ys, [first] + rest))
  }

  /** The node loop succeeds exactly when every node holds x, y, xc and yc.
      The columns then list the nodes' x and y in node order, and each node
      keeps its place, now located at its former centre point. */
  lemma {:induction false} RelocateAllSpec(rows: seq<Record>)
    ensures RelocateAll(rows).Ok? <==> forall i :: 0 <= i < |rows| ==> HasNode(rows[i])
    ensures RelocateAll(rows).Ok? ==>
      var (xs, ys, nodes) := RelocateAll(rows).value;
      |xs| == |ys| == |nodes| == |rows| &&
      forall i :: 0 <= i < |rows| ==> Relocate(rows[i]) == Ok((xs[i], ys[i], nodes[i]))
  {
    if |rows| > 0 {
      RelocateAllSpec(rows[1..]);
      assert forall i :: 1 <= i < |rows| ==> rows[1..][i - 1] == rows[i];
    }
  }

  /** `line_records[0]["x"] = line_x` and the same for y: the first line
      record receives the node columns; an empty line block is an IndexError. */
  function AttachNodes(lines: seq<Record>, xs: seq<Cell>, ys: seq<Cell>): (r: Result<seq<Record>>)
    ensures r.Ok? <==> |lines| > 0
    ensures r.Fail? ==> r.fault == IndexError
    ensures r.Ok? ==> (|r.value| == |lines| && "x" in r.value[0] && "y" in r.value[0] &&
      r.value[0]["x"] == Column(xs) && r.value[0]["y"] == Column(ys))
    ensures r.Ok? ==> forall k :: k in lines[0] && k != "x" && k != "y" ==> k in r.value[0] && r.value[0][k] == lines[0][k]
    ensures r.Ok? ==> forall i :: 0 < i < |lines| ==> r.value[i] == lines[i]
  {
    if |lines| == 0 then Fail(IndexError)
    else Ok(lines[0 := lines[0]["x" := Column(xs)]["y" := Column(ys)]])
  }

  // ---- one block ----------------------------------------------------------------------

  /** `Extraction.__init__` (or the line-sink one, which pairs the ends)
      followed by `write`: one block becomes one layer, written under the
      class name, as a new file exactly when the GeoPackage does not exist
      yet. */
  function SingleExtraction(name: string, attrs: seq<string>, shape: Shape, pairEnds: bool,
                            p: Parser, fileExists: bool): (r: Result<(seq<Written>, Parser)>)
    ensures r.Ok? ==> r.value.1.lines == p.lines && p.count <= r.value.1.count < |p.lines|
  {
    AdvanceBlockSpec(p, attrs, true);
    var (records, q) :- AdvanceBlock(p, attrs, true);
    var features :- if pairEnds then PairAll(records) else Ok(records);
    var layer :- AddFeatures(NewMemoryLayer(name, attrs, shape), features);
    Ok(([Written(name, !fileExists, layer)], q))
  }

  /** The records of the block that starts at the cursor, when a terminator
      follows it. */
  function BlockRecords(p: Parser, attrs: seq<string>): seq<Record>
    requires p.count <= |p.lines| && NextTerminator(p.lines, p.count) < |p.lines|
  {
    Block(p.lines, p.count, NextTerminator(p.lines, p.count), LineDecoder(attrs, true))
  }

  /** The block runs up to the next terminator, and its records (with the
      ends paired for a line sink) become the features of the one layer
      written; a block that runs off the end of the file is an IndexError. */
  lemma SingleExtractionSpec(name: string, attrs: seq<string>, shape: Shape, pairEnds: bool,
                             p: Parser, fileExists: bool)
    ensures var r := SingleExtraction(name, attrs, shape, pairEnds, p, fileExists);
      r.Ok? ==> (p.count <= |p.lines| && NextTerminator(p.lines, p.count) < |p.lines| &&
      var j := NextTerminator(p.lines, p.count);
      var records := Block(p.lines, p.count, j, LineDecoder(attrs, true));
      r.value.1 == Parser(p.lines, j) && |r.value.0| == 1 &&
      r.value.0[0].name == name && r.value.0[0].newfile == !fileExists &&
      r.value.0[0].layer.shape == shape && r.value.0[0].layer.fields == Fields(attrs) &&
      if pairEnds then PairAll(records) == Ok(r.value.0[0].layer.features)
      else r.value.0[0].layer.features == records)
    ensures var r := SingleExtraction(name, attrs, shape, pairEnds, p, fileExists);
      !(p.count <= |p.lines| && NextTerminator(p.lines, p.count) < |p.lines|) ==> r == Fail(IndexError)
  {
    AdvanceBlockSpec(p, attrs, true);
    if p.count <= |p.lines| && NextTerminator(p.lines, p.count) < |p.lines| {
      SingleExtractionRead(name, attrs, shape, pairEnds, p, fileExists);
      var records := BlockRecords(p, attrs);
      var features := if pairEnds then PairAll(records) else Ok(records);
      if features.Ok? {
        var layer := AddFeatures(NewMemoryLayer(name, attrs, shape), features.value);
        if layer.Ok? {
          assert layer.value.features == features.value;
        }
      }
    }
  }

  /** Once the block is read, the features are the records, paired when
      `pairEnds`, added to a fresh layer. */
  lemma SingleExtractionRead(name: string, attrs: seq<string>, shape: Shape, pairEnds: bool,
                             p: Parser, fileExists: bool)
    requires p.count <= |p.lines| && NextTerminator(p.lines, p.count) < |p.lines|
    ensures var features := if pairEnds then PairAll(BlockRecords(p, attrs)) else Ok(BlockRecords(p, attrs));
      var r := SingleExtraction(name, attrs, shape, pairEnds, p, fileExists);
      (features.Fail? ==> r == Fail(features.fault)) &&
      (features.Ok? ==> var layer := AddFeatures(NewMemoryLayer(name, attrs, shape), features.value);
        (layer.Fail? ==> r == Fail(layer.fault)) &&
        (layer.Ok? ==> r == Ok(([Written(name, !fileExists, layer.value)], Parser(p.lines, NextTerminator(p.lines, p.count))))))
  {
    AdvanceBlockSpec(p, attrs, true);
  }

  /** A line-sink block whose terminator exists fails exactly when pairing
      fails, with the KeyError of the first missing end: the paired records
      always have x and y. */
  lemma SinglePairedOutcome(name: string, attrs: seq<string>, shape: Shape, p: Parser, fileExists: bool)
    requires p.count <= |p.lines| && NextTerminator(p.lines, p.count) < |p.lines|
    ensures var records := BlockRecords(p, attrs);
      var r := SingleExtraction(name, attrs, shape, true, p, fileExists);
      (r.Ok? <==> PairAll(records).Ok?) && (r.Fail? ==> r == Fail(PairAll(records).fault))
  {
    SingleExtractionRead(name, attrs, shape, true, p, fileExists);
    var records := BlockRecords(p, attrs);
    if PairAll(records).Ok? {
      PairedLocated(records);
    }
  }

  /** A block that is not paired and whose terminator exists succeeds
      exactly when every record has x and y, and otherwise raises the
      KeyError of the coordinate the first such record lacks. */
  lemma SingleUnpairedOutcome(name: string, attrs: seq<string>, shape: Shape, p: Parser, fileExists: bool)
    requires p.count <= |p.lines| && NextTerminator(p.lines, p.count) < |p.lines|
    ensures var records := BlockRecords(p, attrs);
      var r := SingleExtraction(name, attrs, shape, false, p, fileExists);
      (r.Ok? <==> forall i :: 0 <= i < |records| ==> Located(records[i])) &&
      (r.Fail? ==> r == Fail(KeyError(MissingXY(records[FirstUnlocated(records)]))))
  {
    SingleExtractionRead(name, attrs, shape, false, p, fileExists);
  }

  /** Pairing leaves every record located: "x" and "y" hold the end pairs. */
  lemma PairedLocated(rows: seq<Record>)
    requires PairAll(rows).Ok?
    ensures forall i :: 0 <= i < |PairAll(rows).value| ==> Located(PairAll(rows).value[i])
  {
    PairAllSpec(rows);
  }

  /** The two blocks of a doublet, as `parse` and `parse_nodes` read them:
      the line block, the header of the node block, and the node block. */
  function ReadDoubletBlocks(attrs: seq<string>, nodeAttrs: seq<string>, p: Parser): (r: Result<(seq<Record>, seq<Record>, Parser)>)
    ensures r.Ok? ==> r.value.2.lines == p.lines && p.count <= r.value.2.count < |p.lines|
  {
    AdvanceBlockSpec(p, attrs, true);
    var (records, q) :- AdvanceBlock(p, attrs, true);
    // advance_block stopped at a line it peeked, so skipping it cannot fail
    var (_, q1) := Advance(q).value;
    AdvanceBlockSpec(q1, nodeAttrs, true);
    var (nodeRecords, q2) :- AdvanceBlock(q1, nodeAttrs, true);
    Ok((records, nodeRecords, q2))
  }

  /** Both blocks are read exactly when a terminator ends each; the line
      block runs up to the first and the node block from the line after it
      up to the second. */
  lemma ReadDoubletBlocksSpec(attrs: seq<string>, nodeAttrs: seq<string>, p: Parser)
    ensures var b := ReadDoubletBlocks(attrs, nodeAttrs, p);
      b.Ok? <==> (p.count <= |p.lines| && NextTerminator(p.lines, p.count) < |p.lines| &&
        NextTerminator(p.lines, NextTerminator(p.lines, p.count) + 1) < |p.lines|)
    ensures var b := ReadDoubletBlocks(attrs, nodeAttrs, p);
      b.Ok? ==>
      var j := NextTerminator(p.lines, p.count);
      var j' := NextTerminator(p.lines, j + 1);
      b.value == (Block(p.lines, p.count, j, LineDecoder(attrs, true)),
                  Block(p.lines, j + 1, j', LineDecoder(nodeAttrs, true)), Parser(p.lines, j'))
  {
    AdvanceBlockSpec(p, attrs, true);
    if AdvanceBlock(p, attrs, true).Ok? {
      var (records, q) := AdvanceBlock(p, attrs, true).value;
      var (_, q1) := Advance(q).value;
      AdvanceBlockSpec(q1, nodeAttrs, true);
    }
  }

  /** The parsing half of `DoubletExtraction.__init__`: after both blocks
      are read, the nodes' x and y become the columns of the first line
      record and each node moves to its centre point. It yields the line
      records, the nodes and the parser after the node block. */
  function DoubletRecords(attrs: seq<string>, nodeAttrs: seq<string>, p: Parser): (r: Result<(seq<Record>, seq<Record>, Parser)>)
    ensures r.Ok? ==> r.value.2.lines == p.lines && p.count <= r.value.2.count < |p.lines|
  {
    var (records, nodeRecords, q) :- ReadDoubletBlocks(attrs, nodeAttrs, p);
    RelocateAllSpec(nodeRecords);
    var (xs, ys, nodes) :- RelocateAll(nodeRecords);
    var lines :- AttachNodes(records, xs, ys);
    Ok((lines, nodes, q))
  }

  /** Parsing succeeds exactly when both blocks are read, the line block is
      not empty and every node record holds x, y, xc and yc. The first line
      record then carries x and y, every other line record is its line
      decoded, there is one node per node record, and every node is
      located. */
  lemma DoubletRecordsSpec(attrs: seq<string>, nodeAttrs: seq<string>, p: Parser)
    ensures var b := ReadDoubletBlocks(attrs, nodeAttrs, p);
      var d := DoubletRecords(attrs, nodeAttrs, p);
      d.Ok? <==> b.Ok? && |b.value.0| > 0 && forall i :: 0 <= i < |b.value.1| ==> HasNode(b.value.1[i])
    ensures var b := ReadDoubletBlocks(attrs, nodeAttrs, p);
      var d := DoubletRecords(attrs, nodeAttrs, p);
      d.Ok? ==> (b.Ok? &&
      var (lines, nodes, q) := d.value;
      q == b.value.2 && |lines| == |b.value.0| && |nodes| == |b.value.1| && Located(lines[0]) &&
      (forall i :: 0 < i < |lines| ==> lines[i] == b.value.0[i]) &&
      forall i :: 0 <= i < |nodes| ==> Located(nodes[i]))
  {
    var b := ReadDoubletBlocks(attrs, nodeAttrs, p);
    if b.Ok? {
      RelocateAllSpec(b.value.1);
      if RelocateAll(b.value.1).Ok? {
        var nodes := RelocateAll(b.value.1).value.2;
        forall i | 0 <= i < |nodes| ensures Located(nodes[i]) {
          assert Relocate(b.value.1[i]) == Ok((RelocateAll(b.value.1).value.0[i], RelocateAll(b.value.1).value.1[i], nodes[i]));
        }
      }
    }
  }

  /** `DoubletExtraction.__init__` followed by its `write`: the records are
      parsed, the line records become the features of the line layer and
      then the nodes those of the node layer, and both layers are written
      with `newfile=False`. */
  function DoubletExtraction(name: string, nodeName: string, attrs: seq<string>, nodeAttrs: seq<string>,
                             shape: Shape, p: Parser): (r: Result<(seq<Written>, Parser)>)
    ensures r.Ok? ==> r.value.1.lines == p.lines && p.count <= r.value.1.count < |p.lines|
  {
    var (lines, nodes, q) :- DoubletRecords(attrs, nodeAttrs, p);
    var lineLayer :- AddFeatures(NewMemoryLayer(name, attrs, shape), lines);
    var nodeLayer :- AddFeatures(NewMemoryLayer(nodeName, nodeAttrs, PointLayer), nodes);
    Ok(([Written(name, false, lineLayer), Written(nodeName, false, nodeLayer)], q))
  }

  /** The doublet writes its line layer, whose features are the line
      records, and its node layer, a point layer whose features are the
      nodes. Once parsing succeeds, it succeeds exactly when every line
      record has x and y, and otherwise raises the KeyError of the first
      that lacks one; the nodes never fail. */
  lemma DoubletExtractionSpec(name: string, nodeName: string, attrs: seq<string>, nodeAttrs: seq<string>,
                              shape: Shape, p: Parser)
    ensures var r := DoubletExtraction(name, nodeName, attrs, nodeAttrs, shape, p);
      var d := DoubletRecords(attrs, nodeAttrs, p);
      r.Ok? ==> (d.Ok? && r.value.1 == d.value.2 && |r.value.0| == 2 &&
      r.value.0[0].name == name && r.value.0[1].name == nodeName &&
      !r.value.0[0].newfile && !r.value.0[1].newfile &&
      r.value.0[0].layer.shape == shape && r.value.0[1].layer.shape == PointLayer &&
      r.value.0[0].layer.fields == Fields(attrs) && r.value.0[1].layer.fields == Fields(nodeAttrs) &&
      r.value.0[0].layer.features == d.value.0 && r.value.0[1].layer.features == d.value.1)
    ensures var r := DoubletExtraction(name, nodeName, attrs, nodeAttrs, shape, p);
      var d := DoubletRecords(attrs, nodeAttrs, p);
      d.Fail? ==> r == Fail(d.fault)
    ensures var r := DoubletExtraction(name, nodeName, attrs, nodeAttrs, shape, p);
      var d := DoubletRecords(attrs, nodeAttrs, p);
      d.Ok? ==> var lines := d.value.0;
      (r.Ok? <==> forall i :: 0 <= i < |lines| ==> Located(lines[i])) &&
      (r.Fail? ==> r == Fail(KeyError(MissingXY(lines[FirstUnlocated(lines)]))))
  {
    var d := DoubletRecords(attrs, nodeAttrs, p);
    if d.Ok? {
      var (lines, nodes, q) := d.value;
      DoubletNodesLocated(attrs, nodeAttrs, p);
      var lineLayer := AddFeatures(NewMemoryLayer(name, attrs, shape), lines);
      if lineLayer.Ok? {
        assert AddFeatures(NewMemoryLayer(nodeName, nodeAttrs, PointLayer), nodes).Ok?;
      }
    }
  }

  /** Every node that parsing yields has x and y. */
  lemma DoubletNodesLocated(attrs: seq<string>, nodeAttrs: seq<string>, p: Parser)
    ensures var d := DoubletRecords(attrs, nodeAttrs, p);
      d.Ok? ==> forall i :: 0 <= i < |d.value.1| ==> Located(d.value.1[i])
  {
    DoubletRecordsSpec(attrs, nodeAttrs, p);
  }

  /** `ExtractionClass(parser, crs)` followed by `write(path)` for the class
      of the header just read. `fileExists` says whether the GeoPackage exists
      before the write. */
  function ExtractBlock(k: Kind, p: Parser, fileExists: bool): (r: Result<(seq<Written>, Parser)>)
    ensures r.Ok? ==> r.value.1.lines == p.lines && p.count <= r.value.1.count < |p.lines|
  {
    if IsDoublet(k) then
      DoubletExtraction(Name(k), NodeName(k), Attributes(k), NodeAttributes(k), LayerClass(k), p)
    else
      SingleExtraction(Name(k), Attributes(k), LayerClass(k), IsLineSink(k), p, fileExists)
  }

  /** A doublet writes the line layer under the class name, then the node
      layer, both into the existing GeoPackage. */
  lemma DoubletWrites(k: Kind, p: Parser, fileExists: bool)
    requires IsDoublet(k)
    ensures ExtractBlock(k, p, fileExists).Ok? ==>
      var w := ExtractBlock(k, p, fileExists).value.0;
      |w| == 2 && w[0].name == Name(k) && w[1].name == NodeName(k) && !w[0].newfile && !w[1].newfile
  {
    DoubletExtractionSpec(Name(k), NodeName(k), Attributes(k), NodeAttributes(k), LayerClass(k), p);
    assert ExtractBlock(k, p, fileExists) ==
      DoubletExtraction(Name(k), NodeName(k), Attributes(k), NodeAttributes(k), LayerClass(k), p);
  }

  /** A single-layer class writes one layer under the class name, a new
      file exactly when the GeoPackage does not exist yet. */
  lemma SingleWrites(k: Kind, p: Parser, fileExists: bool)
    requires !IsDoublet(k)
    ensures ExtractBlock(k, p, fileExists).Ok? ==>
      var w := ExtractBlock(k, p, fileExists).value.0;
      |w| == 1 && w[0].name == Name(k) && (w[0].newfile <==> !fileExists)
  {
    SingleExtractionSpec(Name(k), Attributes(k), LayerClass(k), IsLineSink(k), p, fileExists);
    assert ExtractBlock(k, p, fileExists) ==
      SingleExtraction(Name(k), Attributes(k), LayerClass(k), IsLineSink(k), p, fileExists);
  }

  /** No doublet line block has an "x" column. */
  lemma DoubletLinesHaveNoX(k: Kind)
    requires IsDoublet(k)
    ensures "x" !in Attributes(k)
  {
  }

  /** Only the first line record of a doublet receives the node columns. So
      when the line block has no "x" column, two or more strings raise
      KeyError('x') once the records are parsed, and a doublet that
      extracts writes exactly one line feature. */
  lemma DoubletManyStrings(name: string, nodeName: string, attrs: seq<string>, nodeAttrs: seq<string>,
                           shape: Shape, p: Parser)
    requires "x" !in attrs
    ensures var d := DoubletRecords(attrs, nodeAttrs, p);
      d.Ok? && |d.value.0| >= 2 ==> DoubletExtraction(name, nodeName, attrs, nodeAttrs, shape, p) == Fail(KeyError("x"))
    ensures var r := DoubletExtraction(name, nodeName, attrs, nodeAttrs, shape, p);
      r.Ok? ==> |r.value.0| == 2 && |r.value.0[0].layer.features| == 1
  {
    var d := DoubletRecords(attrs, nodeAttrs, p);
    DoubletRecordsSpec(attrs, nodeAttrs, p);
    DoubletExtractionSpec(name, nodeName, attrs, nodeAttrs, shape, p);
    if d.Ok? && |d.value.0| >= 2 {
      var lines := d.value.0;
      var b := ReadDoubletBlocks(attrs, nodeAttrs, p);
      ReadDoubletBlocksSpec(attrs, nodeAttrs, p);
      BlockKeys(p.lines, p.count, NextTerminator(p.lines, p.count), attrs, 1);
      assert lines[1] == b.value.0[1];
      assert !Located(lines[1]) && MissingXY(lines[1]) == "x";
      FirstUnlocatedAt(lines, 1);
    }
  }

  /** A decoded record holds no key outside the attributes. */
  lemma BlockKeys(lines: seq<string>, from: nat, to: nat, attrs: seq<string>, i: nat)
    requires from <= to <= |lines| && i < to - from
    ensures forall k :: k in Block(lines, from, to, LineDecoder(attrs, true))[i] ==> k in attrs
  {
    var dec := LineDecoder(attrs, true);
    assert Block(lines, from, to, dec)[i] == dec(lines[from + i]);
    DecodeLineKeys(attrs, lines[from + i], true);
  }

  /** For the doublet classes: a block with two or more strings raises
      KeyError('x'), and a doublet that extracts has exactly one string. */
  lemma DoubletOneString(k: Kind, p: Parser, fileExists: bool)
    requires IsDoublet(k)
    ensures var d := DoubletRecords(Attributes(k), NodeAttributes(k), p);
      d.Ok? && |d.value.0| >= 2 ==> ExtractBlock(k, p, fileExists) == Fail(KeyError("x"))
    ensures ExtractBlock(k, p, fileExists).Ok? ==>
      var w := ExtractBlock(k, p, fileExists).value.0;
      |w| == 2 && |w[0].layer.features| == 1
  {
    DoubletLinesHaveNoX(k);
    assert ExtractBlock(k, p, fileExists) ==
      DoubletExtraction(Name(k), NodeName(k), Attributes(k), NodeAttributes(k), LayerClass(k), p);
    DoubletManyStrings(Name(k), NodeName(k), Attributes(k), NodeAttributes(k), LayerClass(k), p);
  }

  /** A record of a block whose columns start with x and y holds "x", and
      holds "y" exactly when its line has at least two fields. */
  lemma PointRecordLocated(attrs: seq<string>, line: string)
    requires |attrs| >= 2 && attrs[0] == "x" && attrs[1] == "y"
    ensures "x" in DecodeLine(attrs, line, true)
    ensures Located(DecodeLine(attrs, line, true)) <==> FieldCount(line) >= 2
  {
    var fields := Strings.Split(DropFirst(line), ",");
    DecodeLineKeys(attrs, line, true);
    assert attrs[0] in Covered(attrs, fields);
    if |fields| >= 2 {
      assert attrs[1] in Covered(attrs, fields);
    } else {
      assert "y" !in Covered(attrs, fields);
    }
  }

  /** The well and test-point columns start with x and y. */
  lemma PointColumns(k: Kind)
    requires k.DischargeWells? || k.HeadWells? || k.TestPoints?
    ensures |Attributes(k)| >= 2 && Attributes(k)[0] == "x" && Attributes(k)[1] == "y"
  {
  }

  /** The number of comma-separated fields of a record line. */
  function FieldCount(line: string): nat {
    |Strings.Split(DropFirst(line), ",")|
  }

  /** In a block whose columns start with x and y, the first line with fewer
      than two fields raises KeyError('y') when the features are added. */
  lemma ShortLineRaises(name: string, attrs: seq<string>, shape: Shape, p: Parser, fileExists: bool, i: nat)
    requires |attrs| >= 2 && attrs[0] == "x" && attrs[1] == "y"
    requires p.count <= |p.lines| && NextTerminator(p.lines, p.count) < |p.lines|
    requires p.count + i < NextTerminator(p.lines, p.count)
    requires FieldCount(p.lines[p.count + i]) < 2
    requires forall m :: p.count <= m < p.count + i ==> FieldCount(p.lines[m]) >= 2
    ensures SingleExtraction(name, attrs, shape, false, p, fileExists) == Fail(KeyError("y"))
  {
    FirstShortLine(attrs, p, i);
    SingleUnpairedOutcome(name, attrs, shape, p, fileExists);
  }

  /** The first line with fewer than two fields gives the first record
      without coordinates, and that record lacks only y. */
  lemma FirstShortLine(attrs: seq<string>, p: Parser, i: nat)
    requires |attrs| >= 2 && attrs[0] == "x" && attrs[1] == "y"
    requires p.count <= |p.lines| && NextTerminator(p.lines, p.count) < |p.lines|
    requires p.count + i < NextTerminator(p.lines, p.count)
    requires FieldCount(p.lines[p.count + i]) < 2
    requires forall m :: p.count <= m < p.count + i ==> FieldCount(p.lines[m]) >= 2
    ensures FirstUnlocated(BlockRecords(p, attrs)) == i
    ensures MissingXY(BlockRecords(p, attrs)[i]) == "y"
  {
    var records := BlockRecords(p, attrs);
    forall m | 0 <= m < i ensures Located(records[m]) {
      BlockRecordLocated(attrs, p, m);
    }
    BlockRecordLocated(attrs, p, i);
    FirstUnlocatedAt(records, i);
  }

  /** A record of a block whose columns start with x and y is located
      exactly when its line has two fields or more; it always holds x. */
  lemma BlockRecordLocated(attrs: seq<string>, p: Parser, m: nat)
    requires |attrs| >= 2 && attrs[0] == "x" && attrs[1] == "y"
    requires p.count <= |p.lines| && NextTerminator(p.lines, p.count) < |p.lines|
    requires p.count + m < NextTerminator(p.lines, p.count)
    ensures "x" in BlockRecords(p, attrs)[m]
    ensures Located(BlockRecords(p, attrs)[m]) <==> FieldCount(p.lines[p.count + m]) >= 2
  {
    BlockRecordAt(p, attrs, m);
    PointRecordLocated(attrs, p.lines[p.count + m]);
  }

  /** The record at `m` is the line at `m` past the cursor, decoded. */
  lemma BlockRecordAt(p: Parser, attrs: seq<string>, m: nat)
    requires p.count <= |p.lines| && NextTerminator(p.lines, p.count) < |p.lines|
    requires p.count + m < NextTerminator(p.lines, p.count)
    ensures m < |BlockRecords(p, attrs)|
    ensures BlockRecords(p, attrs)[m] == DecodeLine(attrs, p.lines[p.count + m], true)
  {
    BlockAt(p.lines, p.count, NextTerminator(p.lines, p.count), attrs, true, m);
  }

  /** The first unlocated record is the one at `i` when every record before
      it is located and it is not. */
  lemma FirstUnlocatedAt(records: seq<Record>, i: nat)
    requires i < |records| && !Located(records[i])
    requires forall m :: 0 <= m < i ==> Located(records[m])
    ensures FirstUnlocated(records) == i
  {
  }

  /** A well or test-point block whose `i`-th line is the first with fewer
      than two fields raises KeyError('y'). */
  lemma ShortPointLineRaises(k: Kind, p: Parser, fileExists: bool, i: nat)
    requires k.DischargeWells? || k.HeadWells? || k.TestPoints?
    requires p.count <= |p.lines| && NextTerminator(p.lines, p.count) < |p.lines|
    requires p.count + i < NextTerminator(p.lines, p.count)
    requires FieldCount(p.lines[p.count + i]) < 2
    requires forall m :: p.count <= m < p.count + i ==> FieldCount(p.lines[m]) >= 2
    ensures ExtractBlock(k, p, fileExists) == Fail(KeyError("y"))
  {
    PointColumns(k);
    assert ExtractBlock(k, p, fileExists) == SingleExtraction(Name(k), Attributes(k), LayerClass(k), false, p, fileExists);
    ShortLineRaises(Name(k), Attributes(k), LayerClass(k), p, fileExists, i);
  }

  /** The layer a class creates is named after its last attribute, never
      after the class: the loop over the attributes rebinds `name`. */
  lemma LayerNameShadowed(k: Kind, shape: Shape)
    ensures NewMemoryLayer(Name(k), Attributes(k), shape).name ==
      (if k.InhomogeneityDomains? then "average_potential_jump" else "label")
    ensures NewMemoryLayer(Name(k), Attributes(k), shape).name != Name(k)
  {
  }

  /** Each header selects its own class. */
  lemma KindOfHeader(k: Kind)
    ensures KindOf(Header(k)) == Some(k)
  {
    var r := KindOf(Header(k));
    assert r.Some?;
    HeaderInjective(r.value, k);
  }

  /** A line selects a class exactly when it is that class's header. */
  lemma KindOfSpec(line: string, k: Kind)
    ensures KindOf(line) == Some(k) <==> Header(k) == line
  {
    if Header(k) == line {
      KindOfHeader(k);
    }
  }

  /** No two classes share a header. */
  lemma HeaderInjective(k1: Kind, k2: Kind)
    requires Header(k1) == Header(k2)
    ensures k1 == k2
  {
    HeaderLength(k1);
    HeaderLength(k2);
    if HeaderLengthOf(k1) == 27 && HeaderLengthOf(k2) == 27 {
      WellsHeadersDiffer();
    }
  }

  /** The length of each header; only the discharge-specified wells and the
      head-specified line sinks share one. */
  function HeaderLengthOf(k: Kind): nat {
    match k
    case DischargeWells => 27
    case HeadWells => 22
    case DischargeLineSinks => 32
    case HeadLineSinks => 27
    case Drains => 8
    case Galleries => 11
    case InhomogeneityDomains => 38
    case OpenSlurryWalls => 19
    case ClosedSlurryWalls => 21
    case TestPoints => 247
  }

  lemma HeaderLength(k: Kind)
    ensures |Header(k)| == HeaderLengthOf(k)
  {
  }

  lemma WellsHeadersDiffer()
    ensures Header(DischargeWells) != Header(HeadLineSinks)
  {
    assert Header(DischargeWells)[2] == 'd';
    assert Header(HeadLineSinks)[2] == 'h';
  }

  // ---- the scan ---------------------------------------------------------------------

  /** What the loop looks each line up in: the class it is the header of,
      if any. */
  type Classifier = string -> Option<Kind>

  /** MAPPING looked up with the stripped line. */
  function HeaderOf(line: string): Option<Kind> {
    KindOf(Strings.Strip(line))
  }

  /** What the loop calls once it has read a header: the class, the parser
      past the header line, and whether the GeoPackage exists; the layers
      written and the parser past the block. */
  type Extractor = (Kind, Parser, bool) -> Result<(seq<Written>, Parser)>

  /** An extractor reads the same lines and leaves the parser on a line of
      the file no earlier than where it started. */
  ghost predicate Progresses(extract: Extractor) {
    forall k, q, b :: extract(k, q, b).Ok? ==>
      extract(k, q, b).value.1.lines == q.lines && q.count <= extract(k, q, b).value.1.count < |q.lines|
  }

  /** What the loop leaves behind: the layers written, in order, and the
      fault that ended it, if one did. Each block is written as soon as it
      is read, so a fault in a later block leaves the earlier layers in the
      GeoPackage. */
  datatype ScanOutcome = ScanOutcome(written: seq<Written>, fault: Option<Fault>)

  /** The loop of `extraction_to_layers` over any header lookup and block
      extractor: read one line, and if it is a header, extract the block
      that follows and write it.
      Once a block is written the GeoPackage exists. */
  function ScanWith(p: Parser, fileExists: bool, header: Classifier, extract: Extractor): ScanOutcome
    requires Progresses(extract)
    decreases |p.lines| - p.count
  {
    if Done(p) then ScanOutcome([], None)
    else
      var q := Parser(p.lines, p.count + 1);
      match header(p.lines[p.count])
      case None => ScanWith(q, fileExists, header, extract)
      case Some(k) =>
        match extract(k, q, fileExists)
        case Fail(f) => ScanOutcome([], Some(f))
        case Ok((written, q')) =>
          var rest := ScanWith(q', true, header, extract);
          ScanOutcome(written + rest.written, rest.fault)
  }

  /** A block that is read and written stays written whatever the rest of
      the file holds: its layers lead what the loop reports, and a fault
      later on only ends the loop. A block that fails writes nothing and
      ends the loop with its fault. */
  lemma {:induction false} BlockWrittenFirst(p: Parser, fileExists: bool, header: Classifier, extract: Extractor, k: Kind)
    requires Progresses(extract) && !Done(p)
    requires header(p.lines[p.count]) == Some(k)
    ensures var r := extract(k, Parser(p.lines, p.count + 1), fileExists);
      r.Ok? ==> r.value.0 <= ScanWith(p, fileExists, header, extract).written
    ensures var r := extract(k, Parser(p.lines, p.count + 1), fileExists);
      r.Fail? ==> ScanWith(p, fileExists, header, extract) == ScanOutcome([], Some(r.fault))
  {
    var q := Parser(p.lines, p.count + 1);
    var r := extract(k, q, fileExists);
    var s := ScanWith(p, fileExists, header, extract);
    if r.Ok? {
      var rest := ScanWith(r.value.1, true, header, extract);
      assert s == ScanOutcome(r.value.0 + rest.written, rest.fault);
      assert r.value.0 <= r.value.0 + rest.written;
    } else {
      assert s == ScanOutcome([], Some(r.fault));
    }
  }

  /** MAPPING's classes, each extracting and writing its block. */
  function Classes(): Extractor {
    (k, q, b) => ExtractBlock(k, q, b)
  }

  lemma ClassesProgress()
    ensures Progresses(Classes())
  {
  }

  function Scan(p: Parser, fileExists: bool): ScanOutcome {
    ClassesProgress();
    ScanWith(p, fileExists, HeaderOf, Classes())
  }

  /** `extraction_to_layers` on the lines of a file. */
  function ExtractionToLayers(lines: seq<string>, fileExists: bool): ScanOutcome {
    Scan(Parser(lines, 0), fileExists)
  }

  /** Lines that are not headers once stripped are skipped, and so is the
      last line whatever it holds: `done` stops one line early. */
  lemma ScanSkips(p: Parser, fileExists: bool)
    requires forall i :: p.count <= i < |p.lines| - 1 ==> KindOf(Strings.Strip(p.lines[i])).None?
    ensures Scan(p, fileExists) == ScanOutcome([], None)
  {
    ClassesProgress();
    ScanWithSkips(p, fileExists, HeaderOf, Classes());
  }

  lemma {:induction false} ScanWithSkips(p: Parser, fileExists: bool, header: Classifier, extract: Extractor)
    requires Progresses(extract)
    requires forall i :: p.count <= i < |p.lines| - 1 ==> header(p.lines[i]).None?
    ensures ScanWith(p, fileExists, header, extract) == ScanOutcome([], None)
    decreases |p.lines| - p.count
  {
    if !Done(p) {
      ScanWithSkips(Parser(p.lines, p.count + 1), fileExists, header, extract);
    }
  }

  /** Only the first of the layers written may create the GeoPackage, and
      only when it did not exist before. */
  predicate NewOnlyFirst(ws: seq<Written>, fileExists: bool) {
    forall i :: 0 <= i < |ws| && ws[i].newfile ==> i == 0 && !fileExists
  }

  /** Every block writes at least one layer, and only its first may create
      the GeoPackage. */
  ghost predicate WritesNewOnlyFirst(extract: Extractor) {
    forall k, q, b :: extract(k, q, b).Ok? ==>
      |extract(k, q, b).value.0| > 0 && NewOnlyFirst(extract(k, q, b).value.0, b)
  }

  lemma ClassesNewOnlyFirst()
    ensures WritesNewOnlyFirst(Classes())
  {
    forall k, q, b | Classes()(k, q, b).Ok?
      ensures |Classes()(k, q, b).value.0| > 0 && NewOnlyFirst(Classes()(k, q, b).value.0, b)
    {
      BlockNewOnlyFirst(k, q, b);
    }
  }

  /** One block writes at least one layer, and only its first may be new. */
  lemma BlockNewOnlyFirst(k: Kind, q: Parser, b: bool)
    ensures ExtractBlock(k, q, b).Ok? ==>
      |ExtractBlock(k, q, b).value.0| > 0 && NewOnlyFirst(ExtractBlock(k, q, b).value.0, b)
  {
    var r := ExtractBlock(k, q, b);
    if r.Ok? {
      if IsDoublet(k) {
        DoubletWrites(k, q, b);
        NewOnlyFirstPair(r.value.0, b);
      } else {
        SingleWrites(k, q, b);
        NewOnlyFirstSingle(r.value.0, b);
      }
    }
  }

  /** Two layers written into the existing GeoPackage create nothing. */
  lemma NewOnlyFirstPair(ws: seq<Written>, fileExists: bool)
    requires |ws| == 2 && !ws[0].newfile && !ws[1].newfile
    ensures NewOnlyFirst(ws, fileExists)
  {
  }

  /** One layer, new exactly when the GeoPackage does not exist yet. */
  lemma NewOnlyFirstSingle(ws: seq<Written>, fileExists: bool)
    requires |ws| == 1 && (ws[0].newfile <==> !fileExists)
    ensures NewOnlyFirst(ws, fileExists)
  {
  }

  /** Only the first layer written can create the GeoPackage, and only when
      it did not exist before: every later write finds the file. */
  lemma ScanNewfile(p: Parser, fileExists: bool)
    ensures NewOnlyFirst(Scan(p, fileExists).written, fileExists)
  {
    ClassesProgress();
    ClassesNewOnlyFirst();
    ScanWithNewfile(p, fileExists, HeaderOf, Classes());
  }

  lemma {:induction false} ScanWithNewfile(p: Parser, fileExists: bool, header: Classifier, extract: Extractor)
    requires Progresses(extract) && WritesNewOnlyFirst(extract)
    ensures NewOnlyFirst(ScanWith(p, fileExists, header, extract).written, fileExists)
    decreases |p.lines| - p.count
  {
    if !Done(p) {
      var q := Parser(p.lines, p.count + 1);
      match header(p.lines[p.count])
      case None =>
        ScanWithNewfile(q, fileExists, header, extract);
      case Some(k) =>
        if extract(k, q, fileExists).Ok? {
          var (written, q') := extract(k, q, fileExists).value;
          ScanWithNewfile(q', true, header, extract);
          NewOnlyFirstAppend(written, ScanWith(q', true, header, extract).written, fileExists);
        }
    }
  }

  lemma NewOnlyFirstAppend(written: seq<Written>, rest: seq<Written>, fileExists: bool)
    requires |written| > 0 && NewOnlyFirst(written, fileExists) && NewOnlyFirst(rest, true)
    ensures NewOnlyFirst(written + rest, fileExists)
  {
    assert forall i :: |written| <= i < |written + rest| ==> (written + rest)[i] == rest[i - |written|];
  }
}
