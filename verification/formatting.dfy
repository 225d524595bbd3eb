/** core/formatting.py: layer-name sanitising, the grid-spacing buckets, the
    extent snapping for the head grid, and the assembly of the JSON document
    handed to the solver. Python's float arithmetic is modelled on `real`. */
module Formatting {
  import opened Wrappers
  import opened Values
  import Format
  import opened Elements
  import opened Schemata
  import Strings
  import Registry

  // ---- sanitized ----------------------------------------------------------------

  function ReplaceSpaces(s: string): (r: string)
    ensures |r| == |s|
    ensures forall i :: 0 <= i < |s| ==> r[i] == if s[i] == ' ' then '_' else s[i]
  {
    seq(|s|, i requires 0 <= i < |s| => if s[i] == ' ' then '_' else s[i])
  }

  /** `name.split(":")[-1].replace(" ", "_")`: the text after the last ":",
      spaces made underscores. */
  function Sanitized(name: string): (r: string)
    ensures ':' !in r && ' ' !in r
  {
    var parts := Strings.Split(name, ":");
    Strings.SplitCharCount(name, ':');
    ReplaceSpaces(parts[|parts| - 1])
  }

  /** The last piece of a split on one character is the text after its last
      occurrence. */
  lemma {:induction false} SplitLastChar(a: string, c: char, b: string)
    requires c !in b
    ensures var parts := Strings.Split(a + [c] + b, [c]); parts[|parts| - 1] == b
    decreases |a|
  {
    var s := a + [c] + b;
    assert s[..1] == [s[0]];
    if |a| == 0 {
      assert s[1..] == b;
      Registry.SplitWhole(b, c);
      assert Strings.Split(s, [c]) == [""] + [b];
    } else {
      assert s[1..] == a[1..] + [c] + b;
      SplitLastChar(a[1..], c, b);
      var rest := Strings.Split(s[1..], [c]);
      Strings.SplitCharCount(s[1..], c);
      assert s[1..][|a| - 1] == c;
      CountCharPositive(s[1..], c, |a| - 1);
      if s[0] == c {
        assert Strings.Split(s, [c]) == [""] + rest;
      } else {
        assert Strings.Split(s, [c]) == [[s[0]] + rest[0]] + rest[1..];
      }
    }
  }

  lemma {:induction false} CountCharPositive(s: string, c: char, k: nat)
    requires k < |s| && s[k] == c
    ensures Strings.CountChar(s, c) >= 1
  {
    if k > 0 {
      CountCharPositive(s[1..], c, k - 1);
    }
  }

  /** Sanitising a layer name keeps its element name only, spaces made
      underscores: "gflow Head Well:my well" becomes "my_well". */
  lemma SanitizedLayerName(prefix: string, name: string)
    requires ':' !in name
    ensures Sanitized(prefix + ":" + name) == ReplaceSpaces(name)
  {
    assert prefix + ":" + name == prefix + [':'] + name;
    SplitLastChar(prefix, ':', name);
  }

  // ---- round_spacing ---------------------------------------------------------------

  /** Python's `round(x)`: the nearest integer, ties to the even one. */
  function Round(x: real): (r: int)
    ensures -0.5 <= r as real - x <= 0.5
    ensures (r as real - x == 0.5 || x - r as real == 0.5) ==> r % 2 == 0
  {
    var f := x.Floor;
    var d := x - f as real;
    if d < 0.5 then f
    else if d > 0.5 then f + 1
    else if f % 2 == 0 then f else f + 1
  }

  /** `round` is the only integer within one half, even on ties. */
  lemma RoundUnique(x: real, k: int)
    requires -0.5 <= k as real - x <= 0.5
    requires (k as real - x == 0.5 || x - k as real == 0.5) ==> k % 2 == 0
    ensures Round(x) == k
  {
  }

  /** `r` is a whole multiple of `m`. */
  predicate IsMultiple(r: real, m: real)
    requires m != 0.0
  {
    (r / m).Floor as real == r / m
  }

  /** round_spacing: about fifty rows over the extent, rounded to a multiple
      of 500, 50, 5 or 1 according to size; one or less is left as it is. */
  function RoundSpacing(ymin: real, ymax: real): (dy: real)
    ensures var d := (ymax - ymin) / 50.0;
      (d > 500.0 ==> dy >= 500.0 && IsMultiple(dy, 500.0) && -250.0 <= dy - d <= 250.0) &&
      (50.0 < d <= 500.0 ==> 50.0 <= dy <= 500.0 && IsMultiple(dy, 50.0) && -25.0 <= dy - d <= 25.0) &&
      (5.0 < d <= 50.0 ==> 5.0 <= dy <= 50.0 && IsMultiple(dy, 5.0) && -2.5 <= dy - d <= 2.5) &&
      (1.0 < d <= 5.0 ==> 1.0 <= dy <= 5.0 && IsMultiple(dy, 1.0) && -0.5 <= dy - d <= 0.5) &&
      (d <= 1.0 ==> dy == d)
  {
    var d := (ymax - ymin) / 50.0;
    if d > 500.0 then Round(d / 500.0) as real * 500.0
    else if d > 50.0 then Round(d / 50.0) as real * 50.0
    else if d > 5.0 then Round(d / 5.0) as real * 5.0
    else if d > 1.0 then Round(d) as real
    else d
  }

  /** An extent of 2500 gives a spacing of 50 and one of 30000 gives 500. */
  lemma RoundSpacingExamples()
    ensures RoundSpacing(0.0, 2500.0) == 50.0
    ensures RoundSpacing(0.0, 30000.0) == 500.0
  {
    RoundUnique(10.0, 10);
    RoundUnique(1.2, 1);
  }

  // ---- round_extent and headgrid_entry --------------------------------------------

  datatype Window = Window(xmin: real, xmax: real, ymin: real, ymax: real)

  function Ceil(x: real): (r: int)
    ensures x <= r as real < x + 1.0
  {
    -((-x).Floor)
  }

  /** round_extent: floor xmin and ymin down to multiples of the spacing and
      ceil xmax and ymax up; then half a spacing is added to xmin and xmax,
      taken from ymax, and taken from xmin again. Python float division by
      zero raises ZeroDivisionError. So xmin and ymin end on k * s for k the
      floor of their quotient by s, xmax half a spacing above k * s and ymax
      half a spacing below it for k the ceiling. */
  function RoundExtent(w: Window, s: real): (r: Result<Window>)
    ensures r.Ok? <==> s != 0.0
    ensures r.Fail? ==> r.fault == ZeroDivisionError
    ensures r.Ok? ==> exists k :: r.value.xmin == Snapped(k, s) && IsFloor(k, w.xmin / s)
    ensures r.Ok? ==> exists k :: r.value.ymin == Snapped(k, s) && IsFloor(k, w.ymin / s)
    ensures r.Ok? ==> exists k :: r.value.xmax == Snapped(k, s) + s / 2.0 && IsCeil(k, w.xmax / s)
    ensures r.Ok? ==> exists k :: r.value.ymax == Snapped(k, s) - s / 2.0 && IsCeil(k, w.ymax / s)
  {
    if s == 0.0 then Fail(ZeroDivisionError)
    else
      var xmin0 := (w.xmin / s).Floor as real * s;
      var ymin := (w.ymin / s).Floor as real * s;
      var xmax0 := Ceil(w.xmax / s) as real * s;
      var ymax0 := Ceil(w.ymax / s) as real * s;
      var xmin1 := xmin0 + 0.5 * s;
      var xmax := xmax0 + 0.5 * s;
      var ymax := ymax0 - 0.5 * s;
      var xmin := xmin1 - 0.5 * s;
      assert xmin == Snapped((w.xmin / s).Floor, s) && IsFloor((w.xmin / s).Floor, w.xmin / s);
      assert ymin == Snapped((w.ymin / s).Floor, s) && IsFloor((w.ymin / s).Floor, w.ymin / s);
      assert xmax == Snapped(Ceil(w.xmax / s), s) + s / 2.0 && IsCeil(Ceil(w.xmax / s), w.xmax / s);
      assert ymax == Snapped(Ceil(w.ymax / s), s) - s / 2.0 && IsCeil(Ceil(w.ymax / s), w.ymax / s);
      Ok(Window(xmin, xmax, ymin, ymax))
  }

  /** The k-th multiple of the spacing. */
  function Snapped(k: int, s: real): real {
    k as real * s
  }

  /** `k` is the floor of `x`. */
  predicate IsFloor(k: int, x: real) {
    k as real <= x < k as real + 1.0
  }

  /** `k` is the ceiling of `x`. */
  predicate IsCeil(k: int, x: real) {
    k as real - 1.0 < x <= k as real
  }

  datatype Headgrid = Headgrid(xmin: real, xmax: real, ymin: real, ymax: real, spacing: real)

  /** headgrid_entry: the snapped extent and the spacing it was snapped to. */
  function HeadgridEntry(w: Window, spacing: real): (r: Result<Headgrid>)
    ensures r.Ok? <==> spacing != 0.0
    ensures r.Ok? ==> (r.value.spacing == spacing &&
      RoundExtent(w, spacing) == Ok(Window(r.value.xmin, r.value.xmax, r.value.ymin, r.value.ymax)))
  {
    var e :- RoundExtent(w, spacing);
    Ok(Headgrid(e.xmin, e.xmax, e.ymin, e.ymax, spacing))
  }

  // ---- JSON assembly ---------------------------------------------------------------

  /** GFLOW_MAPPING: plugin element type to solver element name. */
  const Mapping: Dict<string> := [
    ("Constant", "Constant"),
    ("Uniform Flow", "Uflow"),
    ("Circular Area Sink", "CircAreaSink"),
    ("Well", "Well"),
    ("Head Well", "HeadWell"),
    ("Remote Head Well", "HeadWell"),
    ("Polygon Inhomogeneity", "PolygonInhomMaq"),
    ("Polygon Area Sink", "PolygonInhomMaq"),
    ("Polygon Semi-Confined Top", "PolygonInhomMaq"),
    ("Head Line Sink", "HeadLineSinkString"),
    ("Line Sink Ditch", "LineSinkDitchString"),
    ("Leaky Line Doublet", "LeakyLineDoubletString"),
    ("Impermeable Line Doublet", "ImpLineDoubletString"),
    ("Building Pit", "BuildingPit"),
    ("Leaky Building Pit", "LeakyBuildingPit"),
    ("Head Observation", "Head Observation"),
    ("Discharge Observation", "Discharge Observation")]

  const AquiferKey: string := "gflow Aquifer:Aquifer"
  const DomainKey: string := "gflow Domain:Domain"

  /** What the JSON holds per layer: the aquifer's data as it is, and for
      every other layer its element name and data. */
  datatype Item<V> = Raw(v: V) | Entry(name: string, data: V)

  /** A layer name that parses as "gflow <Type>:<Name>". */
  predicate Parses(layername: string) {
    Registry.ParseName(layername).Ok?
  }

  /** A layer name that parses and whose element type the mapping knows. */
  predicate Converts(m: Dict<string>, layername: string) {
    Parses(layername) && Get(m, Registry.ParseName(layername).value.0).Some?
  }

  predicate AllConvert<V>(m: Dict<string>, rest: Dict<V>) {
    forall i :: 0 <= i < |rest| ==> Converts(m, rest[i].0)
  }

  /** The loop of json_elements_and_observations over the remaining layers.
      Every value of GFLOW_MAPPING is a string, so the `is None` skip never
      happens and is not modelled. */
  function JsonEntries<V>(m: Dict<string>, rest: Dict<V>, acc: Dict<Item<V>>): Result<Dict<Item<V>>> {
    if |rest| == 0 then Ok(acc)
    else
      var (plugin, name) :- Registry.ParseName(rest[0].0);
      var _ :- match Get(m, plugin) case Some(g) => Ok(g) case None => Fail(KeyError(plugin));
      JsonEntries(m, rest[1..], Put(acc, rest[0].0, Entry(name, rest[0].1)))
  }

  /** json_elements_and_observations(data, mapping): the aquifer's data under
      "Aquifer", then one entry per other layer. */
  function JsonElements<V>(data: Dict<V>, m: Dict<string>): Result<Dict<Item<V>>> {
    var (aquifer, rest) :- Pop(data, AquiferKey);
    JsonEntries(m, rest, [("Aquifer", Raw(aquifer))])
  }

  /** The entry of one layer: its element name and its data. */
  function EntryOf<V>(layername: string, v: V): Item<V>
    requires Parses(layername)
  {
    Entry(Registry.ParseName(layername).value.1, v)
  }

  /** The entries of layers whose names all parse, in order. */
  function Entries<V>(rest: Dict<V>): (r: Dict<Item<V>>)
    requires forall i :: 0 <= i < |rest| ==> Parses(rest[i].0)
    ensures |r| == |rest|
    ensures forall i :: 0 <= i < |rest| ==> r[i] == (rest[i].0, EntryOf(rest[i].0, rest[i].1))
  {
    seq(|rest|, i requires 0 <= i < |rest| => (rest[i].0, EntryOf(rest[i].0, rest[i].1)))
  }

  /** The loop succeeds exactly when every layer converts; otherwise it fails
      with the KeyError or unpacking error of the first that does not. */
  lemma {:induction false} JsonEntriesOk<V>(m: Dict<string>, rest: Dict<V>, acc: Dict<Item<V>>)
    ensures JsonEntries(m, rest, acc).Ok? <==> AllConvert(m, rest)
  {
    if |rest| > 0 && Converts(m, rest[0].0) {
      var acc' := Put(acc, rest[0].0, EntryOf(rest[0].0, rest[0].1));
      JsonEntriesOk(m, rest[1..], acc');
      assert forall i :: 1 <= i < |rest| ==> rest[1..][i - 1] == rest[i];
    }
  }

  /** No layer name of `rest` is already a key of `acc`. */
  predicate Fresh<V>(rest: Dict<V>, acc: Dict<Item<V>>) {
    forall i :: 0 <= i < |rest| ==> rest[i].0 !in Keys(acc)
  }

  /** With distinct layer names, none already present, the loop appends the
      entries in order. */
  lemma {:induction false} JsonEntriesAppend<V>(m: Dict<string>, rest: Dict<V>, acc: Dict<Item<V>>)
    requires AllConvert(m, rest)
    requires UniqueKeys(rest) && Fresh(rest, acc)
    ensures JsonEntries(m, rest, acc) == Ok(acc + Entries(rest))
  {
    if |rest| == 0 {
      assert acc + Entries(rest) == acc;
    } else {
      var e := EntryOf(rest[0].0, rest[0].1);
      var acc' := Put(acc, rest[0].0, e);
      TailStaysFresh(m, rest, acc, e);
      JsonEntriesAppend(m, rest[1..], acc');
      JsonEntriesAppendStep(m, rest, acc);
    }
  }

  /** One turn of the loop on top of what it does with the remaining layers. */
  lemma JsonEntriesAppendStep<V>(m: Dict<string>, rest: Dict<V>, acc: Dict<Item<V>>)
    requires |rest| > 0 && AllConvert(m, rest) && rest[0].0 !in Keys(acc)
    requires var acc' := Put(acc, rest[0].0, EntryOf(rest[0].0, rest[0].1));
      JsonEntries(m, rest[1..], acc') == Ok(acc' + Entries(rest[1..]))
    ensures JsonEntries(m, rest, acc) == Ok(acc + Entries(rest))
  {
    var e := EntryOf(rest[0].0, rest[0].1);
    var acc' := Put(acc, rest[0].0, e);
    assert JsonEntries(m, rest, acc) == JsonEntries(m, rest[1..], acc') by {
      JsonEntriesStep(m, rest, acc);
    }
    var x := (rest[0].0, e);
    assert Entries(rest) == [x] + Entries(rest[1..]) by {
      EntriesCons(rest);
    }
    assert acc' == acc + [x] by {
      PutAppends(acc, rest[0].0, e);
    }
    AppendAssociates(acc, [x], Entries(rest[1..]));
  }

  /** The entries of a non-empty dict: its first layer's, then the rest's. */
  lemma EntriesCons<V>(rest: Dict<V>)
    requires |rest| > 0 && forall i :: 0 <= i < |rest| ==> Parses(rest[i].0)
    ensures Entries(rest) == [(rest[0].0, EntryOf(rest[0].0, rest[0].1))] + Entries(rest[1..])
  {
    assert forall i :: 1 <= i < |rest| ==> rest[1..][i - 1] == rest[i];
  }

  /** The loop's preconditions carry over to the next turn. */
  lemma TailStaysFresh<V>(m: Dict<string>, rest: Dict<V>, acc: Dict<Item<V>>, e: Item<V>)
    requires |rest| > 0 && AllConvert(m, rest)
    requires UniqueKeys(rest) && Fresh(rest, acc)
    ensures AllConvert(m, rest[1..]) && UniqueKeys(rest[1..])
    ensures Fresh(rest[1..], Put(acc, rest[0].0, e))
  {
    assert forall i :: 1 <= i < |rest| ==> rest[1..][i - 1] == rest[i];
  }

  /** One turn of the loop over a layer that converts. */
  lemma JsonEntriesStep<V>(m: Dict<string>, rest: Dict<V>, acc: Dict<Item<V>>)
    requires |rest| > 0 && Converts(m, rest[0].0)
    ensures JsonEntries(m, rest, acc) ==
      JsonEntries(m, rest[1..], Put(acc, rest[0].0, EntryOf(rest[0].0, rest[0].1)))
  {
  }

  /** A layer name that parses has exactly one ":", so it is never "Aquifer". */
  lemma ParsesNotAquifer(layername: string)
    requires Parses(layername)
    ensures layername != "Aquifer"
  {
    Registry.SplitWhole("Aquifer", ':');
  }

  /** JSON assembly needs the aquifer layer and fails on any other layer whose
      type the mapping lacks. */
  lemma JsonElementsOk<V>(data: Dict<V>, m: Dict<string>)
    ensures AquiferKey !in Keys(data) ==> JsonElements(data, m) == Fail(KeyError(AquiferKey))
    ensures AquiferKey in Keys(data) ==>
      (JsonElements(data, m).Ok? <==> AllConvert(m, Remove(data, AquiferKey)))
  {
    if AquiferKey in Keys(data) {
      var (aquifer, rest) := Pop(data, AquiferKey).value;
      JsonEntriesOk(m, rest, [("Aquifer", Raw(aquifer))]);
    }
  }

  /** On success the aquifer's data comes first under "Aquifer", then every
      other layer's element name and data, in order. */
  lemma JsonElementsValue<V>(data: Dict<V>, m: Dict<string>)
    requires AquiferKey in Keys(data) && UniqueKeys(data)
    requires AllConvert(m, Remove(data, AquiferKey))
    ensures JsonElements(data, m) ==
      Ok([("Aquifer", Raw(Pop(data, AquiferKey).value.0))] + Entries(Remove(data, AquiferKey)))
  {
    var (aquifer, rest) := Pop(data, AquiferKey).value;
    var acc := [("Aquifer", Raw(aquifer))];
    RemoveUnique(data, AquiferKey);
    assert Keys(acc) == ["Aquifer"];
    forall i | 0 <= i < |rest| ensures rest[i].0 !in Keys(acc) {
      ParsesNotAquifer(rest[i].0);
    }
    JsonEntriesAppend(m, rest, acc);
  }

  /** A layer of a type outside the mapping does not convert. */
  lemma UnmappedLayer(m: Dict<string>, t: string, n: string)
    requires ':' !in t && ':' !in n && !Strings.Occurs(t, Registry.Prefix)
    requires t !in Keys(m)
    ensures !Converts(m, Registry.Prefix + t + ":" + n)
  {
    Registry.ParseNameRoundTrip(t, n);
    GetKeys(m, t);
  }

  /** GFLOW_MAPPING has no entry for the catalog's "Drain Line Sink", so by
      UnmappedLayer a drain line sink layer makes JSON assembly fail. */
  lemma DrainNotMapped()
    ensures "Drain Line Sink" !in Keys(Mapping)
  {
    assert forall i :: 0 <= i < |Mapping| ==> |Mapping[i].0| != 15 || Mapping[i].0[0] != 'D';
  }

  /** OutputOptions of the compute widget. */
  datatype OutputOptions = OutputOptions(
    raster: bool, mesh: bool, contours: bool, piezometer: bool, gage: bool,
    lakeStage: bool, discharge: bool, fluxInspector: bool, pathlines: bool, spacing: real)

  /** The document gflow_json builds. */
  datatype Json<V> = Json(
    gflow: Dict<Item<V>>,
    observations: Dict<V>,
    dischargeObservations: Dict<V>,
    window: V,
    options: OutputOptions,
    headgrid: Option<Headgrid>)

  /** gflow_json: pop the domain, assemble the elements, and add a head grid
      when a mesh or raster is asked for. `readWindow` reads the domain
      data's xmin, ymin, xmax and ymax and divides each by the spacing, as
      round_extent does before it snaps them. */
  function GflowJson<V>(data: Dict<V>, options: OutputOptions, readWindow: (V, real) -> Result<Window>): (r: Result<Json<V>>)
    ensures DomainKey !in Keys(data) ==> r == Fail(KeyError(DomainKey))
    ensures r.Ok? ==> Get(data, DomainKey) == Some(r.value.window) && r.value.options == options
    ensures r.Ok? ==> r.value.observations == [] && r.value.dischargeObservations == []
    ensures r.Ok? ==> (r.value.headgrid.Some? <==> options.mesh || options.raster)
    ensures r.Ok? ==> Pop(data, DomainKey).Ok? && JsonElements(Pop(data, DomainKey).value.1, Mapping) == Ok(r.value.gflow)
    ensures r.Ok? && r.value.headgrid.Some? ==>
      readWindow(r.value.window, options.spacing).Ok? && r.value.headgrid.value.spacing == options.spacing
  {
    var (domain, rest) :- Pop(data, DomainKey);
    var elements :- JsonElements(rest, Mapping);
    var headgrid :- if options.mesh || options.raster then
      (var w :- readWindow(domain, options.spacing); var h :- HeadgridEntry(w, options.spacing); Ok(Some(h)))
    else Ok(None);
    Ok(Json(elements, [], [], domain, options, headgrid))
  }

  /** `value / spacing` in Python: a value that is not a number raises
      TypeError before the divisor matters, and a zero divisor raises
      ZeroDivisionError. */
  function Divide(v: Value, s: real): (r: Result<real>)
    ensures r.Ok? <==> IsNumber(v) && s != 0.0
    ensures r.Fail? ==> r.fault == if IsNumber(v) then ZeroDivisionError else TypeError
  {
    if !IsNumber(v) then Fail(TypeError)
    else if s == 0.0 then Fail(ZeroDivisionError)
    else Ok(AsReal(v) / s)
  }

  /** The bounds in the order round_extent reads them, and divides them. */
  const WindowOrder: seq<string> := ["xmin", "ymin", "xmax", "ymax"]

  /** The window of the domain's extracted data as round_extent reads it:
      `domain["xmin"]` to `domain["ymax"]`, then each bound divided by the
      spacing in the same order. A list of rows cannot be indexed by a
      string; the first absent bound is the KeyError; after that, a
      numeric xmin with a zero spacing is a ZeroDivisionError before any
      other bound is looked at, and otherwise the first bound that is not a
      number is a TypeError. */
  function WindowOf(d: Data, s: real): (r: Result<Window>)
    ensures d.Box? ==> (r.Ok? <==> s != 0.0)
    ensures d.Box? && r.Ok? ==> r.value == Window(d.xmin, d.xmax, d.ymin, d.ymax)
    ensures d.Box? && r.Fail? ==> r.fault == ZeroDivisionError
    ensures d.Records? ==> r == Fail(TypeError)
    ensures d.Record? ==> (r.Ok? <==> s != 0.0 && forall k :: k in WindowKeys ==> k in d.row && IsNumber(d.row[k]))
    ensures d.Record? && Format.FirstMissing(WindowOrder, d.row).Some? ==>
      r == Fail(KeyError(Format.FirstMissing(WindowOrder, d.row).value))
    ensures d.Record? && Format.FirstMissing(WindowOrder, d.row).None? ==>
      (r == Fail(ZeroDivisionError) <==> IsNumber(d.row["xmin"]) && s == 0.0)
    ensures d.Record? && Format.FirstMissing(WindowOrder, d.row).None? && r.Fail? ==>
      r.fault == TypeError || r.fault == ZeroDivisionError
    ensures d.Record? && r.Ok? ==>
      r.value == Window(AsReal(d.row["xmin"]), AsReal(d.row["xmax"]), AsReal(d.row["ymin"]), AsReal(d.row["ymax"]))
  {
    match d
    case Box(xmin, xmax, ymin, ymax) =>
      if s == 0.0 then Fail(ZeroDivisionError) else Ok(Window(xmin, xmax, ymin, ymax))
    case Records(_) => Fail(TypeError)
    case Record(row) =>
      WindowOrderMissing(row);
      var xmin :- Lookup(row, "xmin");
      var ymin :- Lookup(row, "ymin");
      var xmax :- Lookup(row, "xmax");
      var ymax :- Lookup(row, "ymax");
      var _ :- Divide(xmin, s);
      var _ :- Divide(ymin, s);
      var _ :- Divide(xmax, s);
      var _ :- Divide(ymax, s);
      Ok(Window(AsReal(xmin), AsReal(xmax), AsReal(ymin), AsReal(ymax)))
  }

  /** The first absent bound, in reading order. */
  lemma WindowOrderMissing(row: Row)
    ensures Format.FirstMissing(WindowOrder, row) ==
      if "xmin" !in row then Some("xmin") else if "ymin" !in row then Some("ymin")
      else if "xmax" !in row then Some("xmax") else if "ymax" !in row then Some("ymax") else None
  {
    var ks: seq<string> := ["ymax"];
    assert Format.FirstMissing(ks, row) == if "ymax" !in row then Some("ymax") else None by {
      assert ks[1..] == [];
    }
    ks := ["xmax"] + ks;
    assert Format.FirstMissing(ks, row) == if "xmax" !in row then Some("xmax") else Format.FirstMissing(ks[1..], row);
    ks := ["ymin"] + ks;
    assert Format.FirstMissing(ks, row) == if "ymin" !in row then Some("ymin") else Format.FirstMissing(ks[1..], row);
    ks := ["xmin"] + ks;
    assert Format.FirstMissing(ks, row) == if "xmin" !in row then Some("xmin") else Format.FirstMissing(ks[1..], row);
    assert ks == WindowOrder;
  }

  const WindowKeys: set<string> := {"xmin", "ymin", "xmax", "ymax"}
}
