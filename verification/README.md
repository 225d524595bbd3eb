# GFLOW plugin core in Dafny

This project models the core of the GFLOW QGIS plugin. The plugin keeps a groundwater model as
GeoPackage layers named `gflow <Type>:<Name>`. It validates each layer's attribute table
against a per-class schema and renders every row as GFLOW solver input. It assembles the JSON
document for the solver and reads the solver's extract (.XTR) file back into layers. The
model is pure: a layer is its set of field names plus its rows, and a row is a map from field
name to value. Every Python exception the code can raise is an explicit `Fail(fault)` value.

The modules follow the plugin's structure:

- `Schemata` and `TableSchema`: the value rules of `core/schemata.py` and the table
  validators of `core/elements/schemata.py`.
- `Catalog`: every element class with its `element_type`, `geometry_type`, `attributes` and
  schema table (`Catalog.SchemaOf`), plus the `ELEMENTS` registry.
- `Elements`, `Format`, `Render` and `Segments`: the `Element` base class, the `render`
  methods and the line-sink segment interpolation.
- `Registry`: `parse_name` and loading elements from layer names.
- `Formatting`: layer-name sanitising, grid spacing, extent snapping and the JSON assembly.
- `Extract` and `Extractions`: the .XTR line cursor, the block decoder, the extraction
  classes and the scan loop.
- `Dataset` and `Compute`: the pure parts of the dataset and compute widgets.
- `Wrappers`, `Values` and `Strings` hold Python's exceptions, values, dicts and the string
  operations the code relies on.

Several defects of the source are modelled as written and stated as lemmas, not fixed. One
is not: `convert_to_json` calls `data_to_json`, which it never imports, and the model follows
the intended call (`Dataset.ConvertToJson`, see "## Left out"). That call would fail as well:
`gflow_json` pops the layer name "gflow Domain:Domain", but the widget keys its data by
element type, so the conversion raises KeyError once validation passes
(`Dataset.ConvertToJsonFails`). The others:

- the lake schema checks a misspelt field (`Catalog.LakeSchemaMisspelt`);
- uniform flow requires a label it has no column for (`Catalog.UniformFlowLabelMissing`);
- the far-field schema holds the `Optional` class instead of an instance
  (`Catalog.FarFieldNeverValidates`);
- the lake line sink renders a resistance it has no column for (`Render.LakeRowsFail`);
- `Aquifer.to_gflow` calls `check_gflow_columns`, which neither Element nor Aquifer defines,
  and then `validate_gflow`, which no schema class defines, so an Aquifer never yields data
  whatever the inherited ExtractorMixin provides (`Elements.AquiferNeverExtracts`);
- `Domain.to_gflow` asks its schema for `validate_gflow`, which no schema class defines
  (`Elements.DomainToGflowFails`). Nothing calls this method: Domain inherits
  `Element.extract_data`, which the dataset widget uses instead;
- the interpolation measures |y - x| per vertex instead of segment length
  (`Segments.ThreeVertexExample`);
- the memory layer is named after the last attribute (`Extractions.LayerNameShadowed`);
- a doublet sets x and y only on its first line record, so a doublet block with two or more
  line records raises KeyError('x') when its features are added
  (`Extractions.DoubletOneString`);
- `compute` never stops on invalid input (`Compute.GateNeverStops`).

The docstring of `parse_name` gives `"gflow Headwell:drainage"` as its example. The code
parses that to the type "Headwell", which no class has. The model follows the code
(`Registry.DocstringExample`).

## Model

| member | source | states |
|---|---|---|
| Schemata.Check | plugin/gflow/core/schemata.py:90-123 | StrictlyPositive fails exactly for numbers <= 0 and Positive exactly for numbers < 0; both raise on non-numbers; Membership passes exactly null or a member string, and any other value raises, because its message reads `members_key`, which is never assigned |
| Schemata.GatherSpec | plugin/gflow/core/schemata.py:67-73 | the check loop raises iff some check raises, keeps at most one message per check, and keeps none iff every check passed |
| Schemata.GatherAppend | plugin/gflow/core/schemata.py:67-73 | the loop does not short-circuit: the messages of two check lists in sequence are the first list's followed by the second's |
| Schemata.CheckAll | plugin/gflow/core/schemata.py:67-73 | every constraint of a container is applied in order; the result is empty iff each constraint passes, and raises iff one raises |
| Schemata.CheckAllAppend | plugin/gflow/core/schemata.py:67-73 | the messages of concatenated constraint lists are concatenated in declaration order |
| Schemata.Validate | plugin/gflow/core/schemata.py:76-87 | Required reports "a value is required" for null; Optional passes null; a non-null value goes through every constraint; the bare Optional class raises |
| Schemata.RequiredStrictlyPositive | plugin/gflow/core/schemata.py:83-101 | Required(StrictlyPositive) rejects zero and negatives with their message and accepts positives; Optional accepts null; Positive accepts zero |
| Schemata.CheckMany | plugin/gflow/core/schemata.py:35-42 | validate_many keeps one message per failing value, raises iff a check on some value raises, and is empty iff every value passes |
| Schemata.CheckManyAppend | plugin/gflow/core/schemata.py:35-42 | the messages of validate_many come in input order: a prefix's messages come first |
| Schemata.SingleRowCheck | plugin/gflow/core/schemata.py:104-109 | the single-row constraint reports a message exactly when the row count is not one, naming that count |
| TableSchema.RowKeyInjective | plugin/gflow/core/elements/schemata.py:69 | distinct rows are reported under distinct "Row i:" keys |
| TableSchema.ValidateRow | plugin/gflow/core/elements/schemata.py:61-66 | one row raises iff some schema field is absent from it or its rule raises; it reports nothing iff every field passes |
| TableSchema.ReportRows | plugin/gflow/core/elements/schemata.py:56-71 | the row loop raises iff some row raises, and reports nothing iff every row passes |
| TableSchema.ValidateRows | plugin/gflow/core/elements/schemata.py:56-71 | row-wise validation raises iff some row's checks raise, and is empty iff every row passes |
| TableSchema.RowReported | plugin/gflow/core/elements/schemata.py:60-69 | each row with messages is reported under its own "Row i:" key with exactly those messages; a row without messages has no entry |
| TableSchema.RowErrorsReported | plugin/gflow/core/elements/schemata.py:56-71 | the report holds, under "Row i+1:", exactly the field messages of the row at index i when it has any, and nothing otherwise |
| TableSchema.ValidateSchemaSpec | plugin/gflow/core/elements/schemata.py:37-89 | a schema reports nothing iff the row count suits it and every field of every row passes; it raises iff it checks the rows and some field is missing or raises; a single-row schema with another row count reports only that count under the layer name |
| TableSchema.ValidateSchema | plugin/gflow/core/elements/schemata.py:37-89 | SchemaBase.validate dispatching to the row-wise or single-row check; what it reports is stated by `TableSchema.ValidateSchemaSpec` |
| TableSchema.SingleRowIsRowWise | plugin/gflow/core/elements/schemata.py:80-89 | on a one-row table the single-row schema gives exactly the row-wise result |
| TableSchema.ValidateTable | plugin/gflow/core/elements/schemata.py:21-28 | whole-table validation raises iff some schema field is missing from the data or its rule raises |
| TableSchema.ValidateTableEntries | plugin/gflow/core/elements/schemata.py:21-28 | every entry of a successful whole-table validation is one field's non-empty message list, keyed "{name} {field}" |
| Catalog.AttributeNames | plugin/gflow/core/elements/element.py:203-220 | the name set of a class's declared attributes is exactly the names of its QgsFields |
| Catalog.Elements | plugin/gflow/core/elements/__init__.py:26-48 | ELEMENTS has one entry per registered class, in registration order, keyed by that class's element_type |
| Catalog.LookupClass | plugin/gflow/core/elements/__init__.py:26-48 | looking up a type fails with KeyError exactly for names outside ELEMENTS, and otherwise finds a registered class of that type |
| Catalog.TypeNamesAgree | plugin/gflow/core/elements/__init__.py:26-48 | the eighteen registered classes carry the eighteen type names, in order |
| Catalog.TypeNamesDistinct | plugin/gflow/core/elements/__init__.py:26-48 | no two registered classes share an element_type |
| Catalog.RegistryDistinct | plugin/gflow/core/elements/__init__.py:26-48 | no entry of the ELEMENTS comprehension overwrites another |
| Catalog.LookupRegistered | plugin/gflow/core/elements/__init__.py:26-48 | the type of every registered class looks up to that very class |
| Catalog.MissingFieldRaises | plugin/gflow/core/elements/schemata.py:63-64 | a field the schema checks and some row lacks makes validation raise, unless a single-row schema stops at the row count first |
| Catalog.AquiferSchema | plugin/gflow/core/elements/aquifer.py:12-18 | the aquifer table must have exactly one row, or only the row count is reported; a non-positive thickness is reported |
| Catalog.UniformFlowLabelMissing | plugin/gflow/core/elements/uniform_flow.py:9-26 | uniform flow's schema requires "label", which is not among its columns, so its single row never validates |
| Catalog.FarFieldNeverValidates | plugin/gflow/core/elements/linesinks/farfield.py:16-33 | the far-field schema's "label" rule is the Optional class itself and the layer has no label column, so any non-empty table raises |
| Catalog.LakeSchemaMisspelt | plugin/gflow/core/elements/linesinks/lake.py:18-43 | the lake schema checks "estimted_level1" while the layer has "estimated_level1", so a row of the layer never validates |
| Catalog.LegacyHeadLineSinkShadowed | plugin/gflow/core/elements/head_line_sink.py:26-35 | the legacy head line sink shares the registered line sink's type name, is not registered, has no render, and looking up its type finds the registered class |
| Catalog.LegacyLabelRequired | plugin/gflow/core/elements/head_line_sink.py:13-22 | the legacy schema reports a null label, which the registered line sink's schema accepts |
| Elements.CheckColumnsSpec | plugin/gflow/core/elements/element.py:203-220 | the column check is silent iff every declared attribute is a field, and otherwise names exactly the absent ones under "Table:" |
| Elements.CheckTableColumns | plugin/gflow/core/elements/element.py:203-220 | a class's column check passes iff its declared attributes are all layer fields, and otherwise lists exactly the missing ones |
| Elements.NoAttributesAlwaysPass | plugin/gflow/core/elements/element.py:203-220 | Domain and Flux Inspector declare no attributes, so their column check passes on any layer |
| Elements.ExtraColumnsAllowed | plugin/gflow/core/elements/element.py:203-220 | extra fields never cause a column error |
| Elements.PointOf | plugin/gflow/core/elements/element.py:230-231 | a point class reads the feature's point, and fails when the geometry is absent or not a point |
| Elements.VerticesOf | plugin/gflow/core/elements/element.py:232-235 | line and polygon classes read the vertices or the ring, and fail on a geometry of another kind |
| Elements.NormaliseSpec | plugin/gflow/core/elements/element.py:222-235 | a processed row loses "geometry" and "fid", gains x/y or xy from the geometry, and keeps every other value; it fails only on an absent or mismatched geometry |
| Elements.Normalise | plugin/gflow/core/elements/element.py:222-235 | the row preparation of process_table_row; its effect on the row is stated by `Elements.NormaliseSpec` |
| Elements.ProcessTableRow | plugin/gflow/core/elements/element.py:222-238 | a row processes only when it normalises and renders, and apart from line sinks the row returned is the normalised one |
| Elements.ProcessRowsSpec | plugin/gflow/core/elements/element.py:253-256 | the row loop succeeds iff every row processes, yields each row's result in order, and otherwise raises the first failing row's fault |
| Elements.ProcessRows | plugin/gflow/core/elements/element.py:253-256 | the row loop of extract_data; its outcome is stated by `Elements.ProcessRowsSpec` |
| Elements.ExtractWith | plugin/gflow/core/elements/element.py:240-243 | a layer missing declared columns yields only the column errors, without validating |
| Elements.ExtractWithStops | plugin/gflow/core/elements/element.py:240-257 | on a complete layer a validation that raises or reports errors ends the extraction before any row is rendered |
| Elements.ExtractWithRenders | plugin/gflow/core/elements/element.py:240-257 | a valid table extracts iff every row processes, giving one text per row and, as data, the last processed row (an empty record list for no rows) |
| Elements.ExtractDataSpec | plugin/gflow/core/elements/element.py:240-257 | extract_data per class: an Aquifer never yields data; any other class reports exactly its missing columns, propagates a validation that raises, returns validation errors before rendering, and on a valid table succeeds iff every row processes, with one text per row |
| Elements.AquiferMethod | plugin/gflow/core/elements/aquifer.py:46-53 | a name looked up on an Aquifer resolves iff Element, Aquifer or the inherited mixin defines it, and otherwise raises AttributeError naming it |
| Elements.AquiferToGflow | plugin/gflow/core/elements/aquifer.py:46-53 | to_gflow succeeds iff the mixin defines check_gflow_columns and that reports missing columns, and then returns only those errors; otherwise it raises AttributeError for the first of check_gflow_columns, table_to_records and validate_gflow that is not defined |
| Elements.AquiferNeverExtracts | plugin/gflow/core/elements/aquifer.py:46-56 | neither Element nor Aquifer defines check_gflow_columns and no schema class defines validate_gflow, so extract_data of an Aquifer never yields data, and raises AttributeError when the mixin lacks the column check |
| Elements.NoRenderRowFails | plugin/gflow/core/elements/element.py:237 | a class without a render method fails on every row it can normalise |
| Elements.NoRenderNeverExtracts | plugin/gflow/core/elements/element.py:237-257 | Domain, Uniform Flow, Barrier, Flux Inspector and Backward Particle never extract a non-empty valid table |
| Elements.Min | plugin/gflow/core/elements/domain.py:71-80 | the minimum is a member of the list and at most every member |
| Elements.Max | plugin/gflow/core/elements/domain.py:71-80 | the maximum is a member of the list and at least every member |
| Elements.BoundingBox | plugin/gflow/core/elements/domain.py:71-80 | the domain box exists iff there is a vertex, and it encloses every vertex |
| Elements.DomainToGflow | plugin/gflow/core/elements/domain.py:63-80 | Domain.to_gflow asks its schema for validate_gflow before it reads any row; past that lookup, the data would be the bounding box of the first row's ring (`Elements.BoundingBox`) |
| Elements.DomainToGflowFails | plugin/gflow/core/elements/schemata.py:17-89 | no schema class defines validate_gflow, so Domain.to_gflow raises AttributeError on every table |
| TableSchema.SchemaMethod | plugin/gflow/core/elements/schemata.py:17-89 | looking a method up on a schema class fails with AttributeError exactly for names none of SchemaBase, RowWiseSchema and SingleRowSchema defines |
| Elements.UpdateExtent | plugin/gflow/core/elements/domain.py:42-61 | the reset ring is the extent's four corners, clockwise from the top left, and the result is (ymax, ymin) |
| Elements.ExtentRoundTrip | plugin/gflow/core/elements/domain.py:42-80 | the bounding box of the ring update_extent writes is the extent it was given |
| Elements.CopyFields | plugin/gflow/core/elements/barrier.py:37-45 | the new row holds exactly the listed fields with the source row's values, or raises KeyError if one is absent |
| Elements.ProcessGflowRow | plugin/gflow/core/elements/barrier.py:37-45 | only Uniform Flow, Barrier, Flux Inspector and the legacy head line sink define process_gflow_row; line classes add the line's vertices as xy; every other value is copied from the row |
| Elements.UniformFlowGflowRow | plugin/gflow/core/elements/uniform_flow.py:33-38 | uniform flow's gflow row is exactly its head, gradient and orientation, and needs all three |
| Elements.FluxInspectorGflowRow | plugin/gflow/core/elements/flux_inspector.py:24-27 | the flux inspector's gflow row holds only its vertices |
| Registry.ParseName | plugin/gflow/core/elements/__init__.py:51-65 | a layer name parses only when it splits on ":" into exactly two pieces |
| Registry.ParseNameRoundTrip | plugin/gflow/core/elements/__init__.py:51-65 | "gflow T:N" parses back to (T, N) whenever neither part has ":" and T has no "gflow " |
| Registry.GflowNameParses | plugin/gflow/core/elements/element.py:103-105 | every element's own layer name parses back to its type and name; Aquifer and Domain use their type as the name |
| Registry.ParseNameColons | plugin/gflow/core/elements/__init__.py:63 | a layer name with zero or several ":" fails to unpack, so a parsed name has exactly one |
| Registry.ParseNameNeedsPrefix | plugin/gflow/core/elements/__init__.py:64 | a prefix without "gflow " raises IndexError |
| Registry.DocstringExample | plugin/gflow/core/elements/__init__.py:61 | the docstring's example parses to type "Headwell", which ELEMENTS does not contain |
| Registry.Unregistered | plugin/gflow/core/elements/__init__.py:82 | a type outside the eighteen type names fails lookup with KeyError |
| Registry.KeysAreTypeNames | plugin/gflow/core/elements/__init__.py:26-48 | the keys of ELEMENTS are the eighteen type names, in order |
| Registry.ParseAll | plugin/gflow/core/elements/__init__.py:75-76 | on success every layer name is parsed, in order |
| Registry.Dedup | plugin/gflow/core/elements/__init__.py:73-77 | the deduplicated list has the same members and no repeats |
| Registry.GroupKeys | plugin/gflow/core/elements/__init__.py:73-77 | the grouping keeps each type once, in first-seen order |
| Registry.GroupGet | plugin/gflow/core/elements/__init__.py:73-77 | under each type the grouping holds that type's distinct names in first-seen order, and a type never seen has no entry |
| Registry.GroupSpec | plugin/gflow/core/elements/__init__.py:73-77 | the grouping keeps the types once each in first-seen order, and under each its distinct names in first-seen order |
| Registry.InstantiateOk | plugin/gflow/core/elements/__init__.py:79-82 | creating the elements succeeds iff every group's type is in ELEMENTS |
| Registry.CreateOk | plugin/gflow/core/elements/__init__.py:79-82 | the creation loop gets through iff the class lookup succeeds for every group |
| Registry.InstantiateFails | plugin/gflow/core/elements/__init__.py:79-82 | a failed creation is the KeyError of one group's unregistered type |
| Registry.InstantiateMembers | plugin/gflow/core/elements/__init__.py:79-82 | the created elements are exactly the (class, name) members of the groups |
| Registry.LoadElementsSpec | plugin/gflow/core/elements/__init__.py:68-84 | loading creates (c, n) iff some layer name parses to (c's type, n) and ELEMENTS maps that type to c |
| Registry.LoadElements | plugin/gflow/core/elements/__init__.py:68-84 | `load`: parse every layer name, group the names by type and create one element per name; what it creates is stated by `Registry.LoadElementsSpec`, `Registry.LoadElementsDistinct` and `Registry.UnregisteredAborts` |
| Registry.GroupNoRepeats | plugin/gflow/core/elements/__init__.py:73-77 | the names under one type are distinct |
| Registry.InstantiateDistinct | plugin/gflow/core/elements/__init__.py:79-82 | distinct types with distinct names create distinct elements |
| Registry.LoadElementsDistinct | plugin/gflow/core/elements/__init__.py:68-84 | loading never creates the same element twice |
| Registry.UnregisteredAborts | plugin/gflow/core/elements/__init__.py:68-84 | one layer name of an unregistered type aborts the whole load |
| Registry.InstantiateFailsOn | plugin/gflow/core/elements/__init__.py:79-82 | one unregistered group type is enough to make creation fail |
| Format.PieceTok | plugin/gflow/core/elements/well.py:38-39 | a replacement field raises KeyError naming its key exactly when the row lacks that key |
| Format.FirstMissing | plugin/gflow/core/elements/well.py:38-39 | the first missing key is absent from the row, and there is none iff every key is present |
| Format.FillLineSpec | plugin/gflow/core/elements/well.py:38-39 | a template line fills iff every field's key is present, giving one token per piece; otherwise it raises KeyError for the first absent key |
| Format.FillSpec | plugin/gflow/core/elements/linesinks/head.py:50-55 | a multi-line template fills iff every key is present, line by line; otherwise it raises KeyError for the first absent key in reading order |
| Format.Fill | plugin/gflow/core/elements/linesinks/head.py:50-55 | `str.format` on a multi-line template; `Format.FillSpec` states when it fills and what it gives |
| Format.RenderXY | plugin/gflow/core/elements/element.py:259-260 | one "x y" line per vertex, in order; no vertices give one empty line |
| Render.LocationsMatchSchema | plugin/gflow/core/elements/element.py:266-270 | the location codes exist for exactly the names the schemas accept |
| Render.SetLocationSpec | plugin/gflow/core/elements/element.py:278-279 | the three location names become 0, 1 and 2 and nothing else in the row changes; any other string raises KeyError naming it, and so does a missing location |
| Render.Render | plugin/gflow/core/elements/element.py:237 | a class without render raises AttributeError; apart from line sinks render leaves the row as it was |
| Render.FillSingleLine | plugin/gflow/core/elements/well.py:38-39 | a one-line template fills iff no key is missing, giving that line's tokens |
| Render.RenderWell | plugin/gflow/core/elements/well.py:38-39 | a well renders "x y discharge radius" iff those four keys are present, else raises KeyError for the first absent one; the label is not written |
| Render.RenderHeadWell | plugin/gflow/core/elements/headwell.py:38-39 | a head well renders "x y head radius" iff those keys are present, else raises KeyError for the first absent one |
| Render.RenderPiezometer | plugin/gflow/core/elements/piezometer.py:33-34 | a piezometer renders "x y" iff both are present, else raises KeyError for the first absent one |
| Render.RenderForwardParticle | plugin/gflow/core/elements/particle.py:33-45 | a forward particle renders x, y, its starting elevation and direction 1.0 over a copy, leaving the row unchanged |
| Render.ClosedBarrierHeaderFill | plugin/gflow/core/elements/closed_barrier.py:47-50 | the slurry line fills iff the four parameters are present, in the order conductivity, thickness, porosity, bottom elevation |
| Render.RenderClosedBarrierSpec | plugin/gflow/core/elements/closed_barrier.py:46-52 | a closed barrier renders iff its parameters and vertices are present: the slurry line, then one line per vertex |
| Render.RenderClosedBarrier | plugin/gflow/core/elements/closed_barrier.py:46-52 | the closed barrier's render; `Render.RenderClosedBarrierSpec` states its text |
| Render.RenderInhomogeneitySpec | plugin/gflow/core/elements/inhomogeneity.py:46-69 | null parameters become -9999.0, a given recharge changes sign, a null one becomes -9999.0, and the ring's vertices follow |
| Render.RenderInhomogeneity | plugin/gflow/core/elements/inhomogeneity.py:46-69 | the inhomogeneity's render; `Render.RenderInhomogeneitySpec` states its text |
| Render.DrainHeaderKeys | plugin/gflow/core/elements/linesinks/drain.py:47-60 | the drain header fills resistance, width, location and nothing else (depth is written as 0.0) |
| Render.GalleryHeaderKeys | plugin/gflow/core/elements/linesinks/gallery.py:51-65 | the gallery header fills discharge, resistance, width and location |
| Render.FarFieldHeaderKeys | plugin/gflow/core/elements/linesinks/farfield.py:40-53 | the far-field header fills only the location |
| Render.HeadHeaderKeys | plugin/gflow/core/elements/linesinks/head.py:49-62 | head and lake line sinks fill resistance, width, location and depth |
| Render.CodedKeeps | plugin/gflow/core/elements/element.py:278-279 | coding the location keeps every key and every other value |
| Render.LineSinkRenderOk | plugin/gflow/core/elements/linesinks/head.py:49-62 | a line sink renders iff its location is known, every header field and both end values are present, and the interpolation succeeds |
| Render.LineSinkRenderText | plugin/gflow/core/elements/linesinks/head.py:49-62 | a rendered line sink is the header lines then one line per segment (n - 1 for n vertices), and the row comes back with its location coded |
| Render.RenderLineSink | plugin/gflow/core/elements/linesinks/head.py:49-62 | the line sinks' render; `Render.LineSinkRenderOk` states when it succeeds and `Render.LineSinkRenderText` what it gives |
| Render.LakeRowsFail | plugin/gflow/core/elements/linesinks/lake.py:50-63 | a lake row without "resistance", as every row of its layer is, never renders; with a known location the KeyError names "resistance" |
| Render.DischargeLineSinkText | plugin/gflow/core/elements/linesinks/discharge.py:37-43 | the discharge line sink writes "discharge" and then its segments, leaving the row unchanged |
| Segments.Distances | plugin/gflow/core/elements/element.py:284 | one non-negative distance per vertex, |y - x|, from the axis-1 difference |
| Segments.AccumulatedAtMostTotal | plugin/gflow/core/elements/element.py:285-286 | each cumulative distance lies between zero and the total |
| Segments.MidpointBounds | plugin/gflow/core/elements/element.py:287 | every midpoint lies between zero and the total |
| Segments.MidpointsNonDecreasing | plugin/gflow/core/elements/element.py:287 | midpoints never decrease along the line |
| Segments.ValuesMonotone | plugin/gflow/core/elements/element.py:285-289 | with end >= start the interpolated values stay in [start, end] and never decrease along the line |
| Segments.ValuesMirror | plugin/gflow/core/elements/element.py:289 | interpolating from end to start mirrors interpolating from start to end |
| Segments.DiagonalShiftInvariant | plugin/gflow/core/elements/element.py:284-289 | moving every vertex by (t, t) changes no value, because the axis-1 difference sees only y - x |
| Segments.ThreeVertexExample | plugin/gflow/core/elements/element.py:284-289 | for (0,0), (10,0), (20,0) from 0 to 20 the two values are 0 and 10/3, not the 5 and 15 that segment lengths give |
| Segments.SegmentLines | plugin/gflow/core/elements/element.py:291-294 | one "x0 y0 x1 y1 value" line per consecutive vertex pair |
| Segments.Interpolate | plugin/gflow/core/elements/element.py:281-294 | n vertices give n - 1 lines, each with the midpoint value; no vertex list raises ValueError, non-numeric ends TypeError, a zero total fails |
| Formatting.Sanitized | plugin/gflow/core/formatting.py:37-38 | a sanitised name holds neither ":" nor a space |
| Formatting.SanitizedLayerName | plugin/gflow/core/formatting.py:37-38 | sanitising "prefix:name" keeps just the name, with spaces made underscores |
| Formatting.Round | plugin/gflow/core/formatting.py:54-63 | the result is within one half of x, and on a tie it is the even integer |
| Formatting.RoundUnique | plugin/gflow/core/formatting.py:54-63 | the integer within one half of x (the even one on ties) is round's result, and no other is |
| Formatting.RoundSpacing | plugin/gflow/core/formatting.py:47-63 | the spacing is a multiple of 500, 50, 5 or 1 by size, within half a step of one fiftieth of the height; one or less stays as it is |
| Formatting.RoundSpacingExamples | plugin/gflow/core/formatting.py:47-63 | heights of 2500 and 30000 give spacings of 50 and 500 |
| Formatting.Ceil | plugin/gflow/core/formatting.py:87-90 | the ceiling is the least integer at or above x |
| Formatting.RoundExtent | plugin/gflow/core/formatting.py:66-95 | a zero spacing raises ZeroDivisionError; otherwise xmin and ymin are floored to multiples, xmax lands half a spacing above its ceiling multiple, and ymax half a spacing below its own |
| Formatting.HeadgridEntry | plugin/gflow/core/formatting.py:98-106 | the head grid is the snapped extent with the spacing it was snapped to, and fails exactly on a zero spacing |
| Formatting.Entries | plugin/gflow/core/formatting.py:115-123 | one entry per layer, in order: the layer name with its element name and data |
| Formatting.JsonEntriesOk | plugin/gflow/core/formatting.py:115-123 | the element loop succeeds iff every layer name parses and its type is in the mapping |
| Formatting.JsonEntriesAppend | plugin/gflow/core/formatting.py:115-123 | with distinct new layer names the loop appends one entry per layer, in order |
| Formatting.ParsesNotAquifer | plugin/gflow/core/formatting.py:110-115 | a parsed layer name is never the "Aquifer" key, so no layer overwrites the aquifer entry |
| Formatting.JsonElementsOk | plugin/gflow/core/formatting.py:109-125 | without the aquifer layer assembly raises KeyError; with it, assembly succeeds iff every other layer converts |
| Formatting.JsonElementsValue | plugin/gflow/core/formatting.py:109-125 | the document holds the aquifer's data under "Aquifer", then every other layer's element name and data, in order |
| Formatting.JsonElements | plugin/gflow/core/formatting.py:109-125 | json_elements; `Formatting.JsonElementsOk` and `Formatting.JsonElementsValue` state when it succeeds and the document it builds |
| Formatting.UnmappedLayer | plugin/gflow/core/formatting.py:118 | a layer of a type outside the mapping does not convert |
| Formatting.DrainNotMapped | plugin/gflow/core/formatting.py:14-32 | the mapping has no "Drain Line Sink", so a drain layer makes the assembly fail |
| Formatting.GflowJson | plugin/gflow/core/formatting.py:128-163 | a missing domain raises KeyError; otherwise the window is read from the domain's data with the spacing, the elements are assembled from the rest, and a head grid exists iff a mesh or raster is asked for |
| Formatting.Divide | plugin/gflow/core/formatting.py:87-90 | dividing a bound by the spacing raises TypeError for a non-number and, for a number, ZeroDivisionError for a zero spacing |
| Formatting.WindowOf | plugin/gflow/core/formatting.py:83-90 | a record list raises TypeError; a row's bounds are read xmin, ymin, xmax, ymax and the first absent one is the KeyError; then a numeric xmin with a zero spacing raises ZeroDivisionError before any other bound is divided; the window exists iff the spacing is non-zero and all four bounds are numbers, and then holds them |
| Values.Lookup | plugin/gflow/core/elements/schemata.py:64 | indexing a row or record fails with KeyError exactly for absent keys, and otherwise gives the stored value |
| Extract.PopField | plugin/gflow/core/extract/linesinks.py:10-12 | popping gives the field's cell and the record without it, or KeyError |
| Extract.Peek | plugin/gflow/core/extract/__init__.py:48-49 | peek raises IndexError exactly past the last line |
| Extract.Advance | plugin/gflow/core/extract/__init__.py:51-54 | advance returns the peeked line and moves the cursor by one line |
| Extract.DropFirst | plugin/gflow/core/extract/__init__.py:67 | the decoded text is the line without its first character, and empty for an empty line |
| Extract.DecodeValue | plugin/gflow/core/extract/__init__.py:71-80 | "label" stays text and every other field becomes a number or None; the label of the NUL-stripping copy holds no NUL |
| Extract.NulMakesNull | plugin/gflow/core/extract/parser.py:29-36 | in the copy that keeps NULs, a numeric field containing one decodes to None |
| Extract.ZipSpec | plugin/gflow/core/extract/__init__.py:69-80 | the field loop adds exactly the attributes that have a field, each bound to its own field, and leaves other keys alone |
| Extract.ZipKeys | plugin/gflow/core/extract/__init__.py:69-80 | the field loop adds exactly the attributes that have a field to the record's keys, even when names repeat |
| Extract.DecodeLineKeys | plugin/gflow/core/extract/__init__.py:67-81 | a record's keys are the attributes that have a field on the line, and never a name outside the attribute tuple |
| Extract.DecodeLineSpec | plugin/gflow/core/extract/__init__.py:67-81 | a record holds exactly the first min(#attributes, #fields) attributes, each decoded from its own field |
| Extract.NextTerminator | plugin/gflow/core/extract/__init__.py:59-61 | the next line starting with "*" or "!" at or after a position, with none before it |
| Extract.Block | plugin/gflow/core/extract/__init__.py:63-83 | one decoded record per line of the range, in order |
| Extract.AdvanceBlockSpec | plugin/gflow/core/extract/__init__.py:63-83 | the block reader succeeds iff a terminator follows the cursor, then returns one record per line before it and stops on it; otherwise it raises IndexError |
| Extract.AdvanceBlock | plugin/gflow/core/extract/__init__.py:63-83 | advance_block; `Extract.AdvanceBlockSpec` states its records and where it stops |
| Extract.EmptyBlock | plugin/gflow/core/extract/__init__.py:64-66 | a terminator under the cursor gives no records and consumes nothing |
| Extract.NulCopiesDisagree | plugin/gflow/core/extract/parser.py:29-36 | the two reader copies disagree on a numeric field with a NUL: one reads 1.0, the other None |
| Extractions.KindOf | plugin/gflow/core/extract/__init__.py:94 | a line selects a class only when it is that class's header |
| Extractions.KindOfSpec | plugin/gflow/core/extract/__init__.py:27-39 | a line selects class k iff it is k's header |
| Extractions.HeaderInjective | plugin/gflow/core/extract/__init__.py:27-39 | no two classes share a header |
| Extractions.FieldsSound | plugin/gflow/core/extract/extraction_base.py:32-43 | every layer field is a non-coordinate attribute; only "label" is text, every other field is a double |
| Extractions.FieldsComplete | plugin/gflow/core/extract/extraction_base.py:32-43 | every attribute that is not a coordinate gets a field |
| Extractions.FieldsAppend | plugin/gflow/core/extract/extraction_base.py:32-43 | the fields keep the attributes' order |
| Extractions.PairEnds | plugin/gflow/core/extract/linesinks.py:10-12 | pairing succeeds iff both ends are present and raises KeyError for the first missing one; afterwards x and y hold the end pairs and the four end keys are gone |
| Extractions.PairAllSpec | plugin/gflow/core/extract/linesinks.py:9-12 | the pairing loop succeeds iff every record has both ends, and pairs each record in order |
| Extractions.Relocate | plugin/gflow/core/extract/doublets.py:39-43 | a node gives its x and y, then moves to its centre point; raises KeyError for the first missing key |
| Extractions.RelocateAllSpec | plugin/gflow/core/extract/doublets.py:39-43 | the node loop succeeds iff every node holds x, y, xc and yc, collecting the x and y columns in order |
| Extractions.AttachNodes | plugin/gflow/core/extract/doublets.py:45-46 | the node columns go into the first line record and the other records are untouched; no line records raises IndexError |
| Extractions.AddFeatures | plugin/gflow/core/memory_layer.py:25-39 | the layer gains every record, in order, iff each has x and y; otherwise the first record without them raises the KeyError of the key it lacks first, x before y |
| Extractions.FirstUnlocated | plugin/gflow/core/memory_layer.py:29-30 | the index of the first record without both coordinates: every record before it has them |
| Extractions.SingleExtractionSpec | plugin/gflow/core/extract/extraction_base.py:13-58 | a block ending at a terminator becomes one layer of the class's shape and fields whose features are its records (ends paired for a line sink), written under the class name as a new file iff the GeoPackage is missing; a block that runs off the file raises IndexError |
| Extractions.SingleUnpairedOutcome | plugin/gflow/core/extract/extraction_base.py:13-17 | a block read without pairing extracts iff every record has x and y, and otherwise raises the KeyError of the coordinate the first such record lacks |
| Extractions.SinglePairedOutcome | plugin/gflow/core/extract/linesinks.py:8-14 | a line-sink block read extracts iff pairing succeeds and raises pairing's KeyError otherwise: paired records always hold x and y |
| Extractions.ShortLineRaises | plugin/gflow/core/extract/extraction_base.py:13-17 | in a block whose columns start with x and y, the first line with fewer than two fields makes the extraction raise KeyError('y') |
| Extractions.ShortPointLineRaises | plugin/gflow/core/extract/wells.py:5-18 | a discharge-well, head-well or test-point block whose first short line has fewer than two fields raises KeyError('y') |
| Extractions.BlockRecordLocated | plugin/gflow/core/extract/__init__.py:67-81 | a record of a block whose columns start with x and y always holds x, and holds y iff its line has at least two fields |
| Extractions.SingleExtraction | plugin/gflow/core/extract/extraction_base.py:13-58 | a single-layer extraction class read and written; `Extractions.SingleExtractionSpec`, `Extractions.SingleUnpairedOutcome` and `Extractions.SinglePairedOutcome` state its layer and its failures |
| Extractions.ReadDoubletBlocksSpec | plugin/gflow/core/extract/doublets.py:33-59 | both blocks are read iff a terminator ends each; the line block runs to the first terminator and the node block from the line after it to the second |
| Extractions.DoubletRecordsSpec | plugin/gflow/core/extract/doublets.py:33-46 | parsing succeeds iff both blocks are read, the line block is non-empty and every node holds x, y, xc and yc; then the first line record holds x and y, every other is its line decoded, and every node holds x and y |
| Extractions.DoubletExtractionSpec | plugin/gflow/core/extract/doublets.py:33-68 | both layers are written into the existing file, the line records and the nodes as features; a parse failure is the fault; once parsed, it succeeds iff every line record has x and y, else raises the KeyError of the first that lacks one |
| Extractions.DoubletManyStrings | plugin/gflow/core/extract/doublets.py:45-51 | with no x column, two or more line records raise KeyError('x') once parsed, and an extracting doublet writes exactly one line feature |
| Extractions.DoubletOneString | plugin/gflow/core/extract/doublets.py:12-51 | for each doublet class, a block with two or more line records raises KeyError('x'), and one that extracts has exactly one line feature |
| Extractions.DoubletExtraction | plugin/gflow/core/extract/doublets.py:33-68 | a doublet class read and written; `Extractions.DoubletExtractionSpec` and `Extractions.DoubletManyStrings` state its two layers and its failures |
| Extractions.BlockNewOnlyFirst | plugin/gflow/core/extract/__init__.py:96-99 | every block that extracts writes at least one layer, and only its first may create the GeoPackage |
| Extractions.DoubletWrites | plugin/gflow/core/extract/doublets.py:61-68 | a doublet writes the line layer and then the node layer, neither as a new file |
| Extractions.SingleWrites | plugin/gflow/core/extract/extraction_base.py:53-58 | a single-layer class writes one layer, a new file iff the GeoPackage did not exist |
| Extractions.LayerNameShadowed | plugin/gflow/core/extract/extraction_base.py:33-50 | the memory layer is named after the last attribute, never after the class, because the loop rebinds `name` |
| Extractions.KindOfHeader | plugin/gflow/core/extract/__init__.py:27-39 | each header selects its own class |
| Extractions.DischargeWellFields | plugin/gflow/core/extract/wells.py:5-13 | a discharge-well block makes a point layer with the fields radius, Q, head (doubles) and label (text) |
| Extractions.HeadWellFields | plugin/gflow/core/extract/wells.py:16-18 | a head-well block makes a point layer whose fields add %error_in_head before label |
| Extractions.TestPointFields | plugin/gflow/core/extract/test_point.py:7-28 | a test-point block makes a point layer of 16 columns, label last, of which all but x and y become fields |
| Extractions.LineSinkBlocks | plugin/gflow/core/extract/linesinks.py:17-87 | every line-sink block is a linestring layer whose columns start with both end points and end with label; the drain layer is "gflow Line Sink" |
| Extractions.DoubletBlocks | plugin/gflow/core/extract/doublets.py:92-116 | the inhomogeneity line block has 7 columns and no label, its node block 14; every node block holds x, y, xc and yc |
| Extractions.ScanSkips | plugin/gflow/core/extract/__init__.py:92-99 | a file with no header line writes nothing |
| Extractions.ScanWithSkips | plugin/gflow/core/extract/__init__.py:92-99 | the scan skips every line that is not a header once stripped |
| Extractions.ScanNewfile | plugin/gflow/core/extract/__init__.py:86-101 | only the first layer written can create the GeoPackage, and only when it did not exist |
| Extractions.ScanWithNewfile | plugin/gflow/core/extract/__init__.py:92-99 | if each block may create the file only with its first layer, the whole scan creates it at most once |
| Extractions.ScanWith | plugin/gflow/core/extract/__init__.py:92-99 | the scan loop over any header lookup and block extractor; `Extractions.ScanWithSkips`, `Extractions.ScanWithNewfile` and `Extractions.BlockWrittenFirst` state what it writes |
| Extractions.BlockWrittenFirst | plugin/gflow/core/extract/__init__.py:92-99 | a block read and written stays written: its layers lead what the loop reports, whatever a later block raises; a block that raises writes nothing and ends the loop with its fault |
| Extractions.Scan | plugin/gflow/core/extract/__init__.py:92-99 | the scan with the MAPPING classes; `Extractions.ScanSkips` and `Extractions.ScanNewfile` state what it writes |
| Extractions.ExtractionToLayers | plugin/gflow/core/extract/__init__.py:86-101 | extraction_to_layers on a file's lines, starting at the first line |
| Dataset.AddElement | plugin/gflow/widgets/dataset_widget.py:69-88 | a new item is checked, shows the element's name, and is disabled exactly for Aquifer and Domain |
| Dataset.Click | plugin/gflow/widgets/dataset_widget.py:72-74 | a click toggles an enabled box and leaves a disabled one unchanged |
| Dataset.MandatoryStaysChecked | plugin/gflow/widgets/dataset_widget.py:79-88 | however often it is clicked, the item of a mandatory element stays checked |
| Dataset.RemovalSelection | plugin/gflow/widgets/dataset_widget.py:99-104 | removal works on exactly the selected items that are neither Aquifer nor Domain |
| Dataset.LastCheckedSome | plugin/gflow/widgets/dataset_widget.py:157-161 | a name has an element iff some checked item shows that name |
| Dataset.SelectedSpec | plugin/gflow/widgets/dataset_widget.py:157-161 | the comprehension has distinct keys, and each name maps to the element of the last checked item with that text |
| Dataset.Selected | plugin/gflow/widgets/dataset_widget.py:157-161 | the elements comprehension over the checked items; `Dataset.SelectedSpec` and `Dataset.LastCheckedSome` state its entries |
| Dataset.VerdictOf | plugin/gflow/widgets/dataset_widget.py:163-178 | an element raises iff its extraction fails with anything but a deleted Qt object; it is invalid iff it reports errors; its data is kept only when present and non-empty |
| Dataset.PartitionOk | plugin/gflow/widgets/dataset_widget.py:163-178 | the loop finishes iff no element raises |
| Dataset.PartitionFirstRaised | plugin/gflow/widgets/dataset_widget.py:163-178 | when the loop raises, it raises the error of the first element that raised |
| Dataset.PartitionErrors | plugin/gflow/widgets/dataset_widget.py:163-178 | each element's errors are stored under its name, and nothing else is |
| Dataset.PartitionData | plugin/gflow/widgets/dataset_widget.py:163-178 | each valid element's data is stored under its type and name, and nothing else is |
| Dataset.Partition | plugin/gflow/widgets/dataset_widget.py:163-178 | the loop over the selected elements; `Dataset.PartitionOk`, `Dataset.PartitionFirstRaised`, `Dataset.PartitionErrors` and `Dataset.PartitionData` state its outcome |
| Dataset.ExtractTreeSpec | plugin/gflow/widgets/dataset_widget.py:148-180 | what each name contributes, errors or data, is decided by the last checked item showing it |
| Dataset.ExtractTree | plugin/gflow/widgets/dataset_widget.py:148-180 | DatasetTreeWidget.extract_data; `Dataset.ExtractTreeSpec` and `Dataset.UncheckedIgnored` state its errors and data |
| Dataset.UncheckedIgnored | plugin/gflow/widgets/dataset_widget.py:157-161 | a name no checked item shows is neither among the errors nor in the data |
| Dataset.ExtractDataOutcome | plugin/gflow/widgets/dataset_widget.py:457-467 | success iff no element reported errors, and the data is attached exactly on success |
| Dataset.ConvertToGflow | plugin/gflow/widgets/dataset_widget.py:469-488 | with errors nothing is written and None is returned; otherwise the serialised data is written and False returned |
| Dataset.ConvertToJson | plugin/gflow/widgets/dataset_widget.py:497-539 | with errors True is returned; otherwise a failing conversion is the fault, and the JSON is written with a crs entry split from the authid at ":", which raises ValueError unless there is exactly one ":" |
| Dataset.PartitionNoDomainKey | plugin/gflow/widgets/dataset_widget.py:155-169 | the tree's data is keyed by element type, so it never holds the layer name "gflow Domain:Domain" |
| Dataset.IntendedJsonFails | plugin/gflow/core/formatting.py:128-171 | gflow_json on the tree's data always raises KeyError("gflow Domain:Domain") |
| Dataset.ConvertToJsonFails | plugin/gflow/widgets/dataset_widget.py:497-539 | with the intended conversion, a tree without errors always raises that KeyError, so no JSON file is written |
| Compute.SetSpacingFromDomain | plugin/gflow/widgets/compute_widget.py:429-441 | the widget's own spacing rule agrees with round_spacing for every extent |
| Compute.RedrawContours | plugin/gflow/widgets/compute_widget.py:327-335 | contours are requested iff there is a raster layer, a non-empty range and a non-zero step |
| Compute.WordsSound | plugin/gflow/widgets/compute_widget.py:505-506 | every word of `split()` is non-empty and holds no whitespace |
| Compute.WordsComplete | plugin/gflow/widgets/compute_widget.py:505-506 | the words of `split()` run together are exactly the string's non-whitespace characters, in order |
| Compute.ParseAllOk | plugin/gflow/widgets/compute_widget.py:505-506 | the list of floats exists iff every word parses, else ValueError |
| Compute.ParseAllValues | plugin/gflow/widgets/compute_widget.py:505-506 | the list holds each word's value, in order |
| Compute.ParseVertex | plugin/gflow/widgets/compute_widget.py:505-506 | a vertex line parses iff its window holds exactly three numbers, which become x, y and z |
| Compute.ParseVertexWindow | plugin/gflow/widgets/compute_widget.py:505 | only characters 4 to 46 of a vertex line are read |
| Compute.Classify | plugin/gflow/widgets/compute_widget.py:497-506 | START and END lines are recognised by their first letters; every other line must parse as a vertex |
| Compute.MapAllSpec | plugin/gflow/widgets/compute_widget.py:496-506 | the line loop gets through iff no line raises, giving one result per line; otherwise it raises the first bad line's error |
| Compute.Step | plugin/gflow/widgets/compute_widget.py:497-506 | one line of the splitter keeps every stored entry a reference to an existing vertex list |
| Compute.Run | plugin/gflow/widgets/compute_widget.py:495-506 | the splitter over all lines keeps the list references valid; `Compute.RunVertices`, `Compute.PolylineRun` and `Compute.EndAliases` state what it stores |
| Compute.Pathlines | plugin/gflow/widgets/compute_widget.py:493-506 | the pathline splitter on a file's lines; `Compute.WellFormedFile`, `Compute.EndAliases` and `Compute.NoStart` state its polylines |
| Compute.RunVertices | plugin/gflow/widgets/compute_widget.py:505-506 | vertex lines extend the current list and nothing else |
| Compute.PolylineRun | plugin/gflow/widgets/compute_widget.py:497-506 | START, vertices, END adds exactly that polyline to the result |
| Compute.FileRun | plugin/gflow/widgets/compute_widget.py:493-506 | a file of well-formed polylines appends exactly those polylines |
| Compute.WellFormedFile | plugin/gflow/widgets/compute_widget.py:493-506 | a well-formed file reads back as exactly its polylines |
| Compute.EndAliases | plugin/gflow/widgets/compute_widget.py:500-502 | an END without a fresh START stores the same list again, so both entries show its final content |
| Compute.NoStart | plugin/gflow/widgets/compute_widget.py:493-506 | vertices before the first START are kept |
| Compute.ZipSegmentsSpec | plugin/gflow/widgets/compute_widget.py:520-528 | zip pairs the vertices index by index, up to the shorter list, carrying both elevations |
| Compute.PolylineSegmentsSpec | plugin/gflow/widgets/compute_widget.py:520-528 | k vertices give k - 1 segments between consecutive vertices, none for an empty polyline |
| Compute.AllSegments | plugin/gflow/widgets/compute_widget.py:521-528 | the features of all polylines, one polyline after the other; `Compute.PolylineSegmentsSpec` states each polyline's segments |
| Compute.GateNeverStops | plugin/gflow/widgets/compute_widget.py:392-395 | the conversion returns None or False, never True, so `compute` always launches, even on invalid input |
| Strings.Strip | plugin/gflow/core/extract/__init__.py:71 | strip removes leading and trailing whitespace and keeps every other character |
| Strings.RemoveChar | plugin/gflow/core/extract/__init__.py:71 | removing NULs keeps every other character and leaves none of the removed one |
| Strings.NotANumeral | plugin/gflow/core/extract/__init__.py:77-80 | an ASCII character that no spelling of a float uses (not a digit, sign, point, whitespace, exponent mark, underscore or letter of "infinity" or "nan"), such as a NUL, makes `float()` fail |
| Strings.ParseFloat | plugin/gflow/core/extract/__init__.py:77-80 | `float()` on decimal numerals; `Strings.NotANumeral` states which characters make it fail |
| Strings.SplitJoin | plugin/gflow/core/elements/__init__.py:63 | splitting loses and invents no character: joining the pieces gives the string back |
| Strings.SplitCharCount | plugin/gflow/core/elements/__init__.py:63 | splitting on one character gives one more piece than it has occurrences, none containing it |
| Strings.NatToStringValue | plugin/gflow/core/elements/schemata.py:69 | the digits `str(i + 1)` prints read back as the number |

## Left out

- Qt and QGIS user interface: dialogs, tree widgets, layer styling, message boxes, the
  validation dialog and the layer panel. Only the check boxes, the selection filter and the
  widgets' data flow are modelled.
- GeoPackage and file I/O: writing and removing layers, `remove_from_geopackage`, reading
  the .XTR and pathline files, and the JSON dump. Files are lists of lines, and a written
  layer is a `Written` value. A memory layer is its name, shape, fields and records: the
  geometry built from a record's x and y, and the attribute values read with `record.get`,
  are not modelled, only the KeyError of a missing x or y.
- The ComputeTask subprocess, `core/processing.py`, `core/read_gflow.py` and the pathline
  layer's construction. Only the parsing of the pathline file and the segments built from it
  are modelled.
- Float formatting: a rendered value is a `Val` token that stands for `str(value)`; the
  digits Python prints are not modelled.
- Float parsing: `float()` accepts decimal numerals with an optional sign and point, and
  surrounding whitespace. Exponents, underscores between digits, "inf", "nan" and
  non-ASCII digits and whitespace are not modelled: `Strings.ParseFloat` rejects them.
- NaN and infinity: real arithmetic has neither. A zero interpolation total, which numpy
  turns into nan, is a `NotANumber` fault.
- Feature geometry: `ExtractorMixin.point_xy`, `linestring_xy`, `polygon_xy` and
  `table_to_records` are not part of this model. A row's "geometry" value carries the
  feature's geometry.
- Record key order in the extract: a record is a map, because no caller observes the order
  of its keys.
- `IterableSchema.validate_many`: no schema in the core uses it.
- `validate_timeseries`: the core's schemas never call it.
- Dataset.ConvertToGflow: `data_to_gflow` is imported but not defined in `core/formatting.py`,
  so the import itself would fail. The serializer is a parameter, and the model states what
  the widget does with its result.
- Dataset.ConvertToJson: `data_to_json` is called at line 517 but never imported, so the
  success path would raise NameError. The model takes the serializer as a parameter, which
  may fail, and `Dataset.ConvertToJsonFails` instantiates it with the intended `gflow_json`.
  The CRS entry's field values are kept, but not the JSON layout around them.
- Dataset.VerdictOf: each element's `extract_data` outcome is an input of the tree item. The
  element extraction itself is `Elements.ExtractData`.
- Formatting.GflowJson: reading the domain window from the extracted data is a parameter
  (`readWindow`), called with the spacing; `Formatting.WindowOf` models it for the element
  data.
- Elements.ExtractData: `gflow/core/extractor.py` (ExtractorMixin, which Element inherits)
  is not part of this model. The names it defines and what its `check_gflow_columns` returns
  are a parameter (`Elements.Mixin`), and `table_to_records` is taken to return the rows.
- Formatting.JsonEntriesOk: the `is None` skip of the loop is not modelled, because every
  value of GFLOW_MAPPING is a string.
- Schemata.Check: Python's message formatting is abstracted to one constructor per message
  template, and comparing a string with a number is a TypeError.
- Extract.DecodeValue: the worked decoding example of a full wells line (" 1.0, 2.0, 3.0,
  4.0, 5.0, L1") is not proved as a concrete lemma; `Extract.DecodeLineSpec` states the
  general rule.
- Float division and rounding are on exact reals, so binary rounding in `round_extent` and
  `round_spacing` is not modelled.
- Extractions.TestPointFields: the test-point header has 15 captions for 16 columns
  ("leakage (bottom)" is one caption); only the columns are stated, since the header is
  matched as a whole line.
