/** The `render` methods of the element classes: the solver input fragment of
    one processed row, as lines of tokens. Line sinks first translate their
    `location` to its integer code, in the row itself. */
module Render {
  import opened Wrappers
  import opened Values
  import opened Catalog
  import opened Format
  import opened Segments

  /** LineSink.LINESINKLOCATIONS. */
  const Locations: Dict<int> := [
    ("Unknown", 0), ("Along stream centerline", 1), ("Along surface water boundary", 2)]

  /** The location dropdown offers exactly the names the schemas accept. */
  lemma LocationsMatchSchema()
    ensures forall s :: s in Keys(Locations) <==> s in LocationNames
  {
    assert Keys(Locations) == ["Unknown", "Along stream centerline", "Along surface water boundary"];
  }

  /** LineSink._set_location: `row["location"] = LINESINKLOCATIONS[row["location"]]`.
      A list is unhashable; any other absent key raises KeyError. */
  function SetLocation(row: Row): (r: Result<Row>) {
    var v :- Lookup(row, "location");
    match v
    case Str(s) =>
      (match Get(Locations, s)
       case Some(code) => Ok(row["location" := Int(code)])
       case None => Fail(KeyError(s)))
    case XY(_) => Fail(TypeError)
    case _ => Fail(KeyErrorNotText)
  }

  /** The three location names map to 0, 1 and 2; only `location` changes;
      any other string fails with a KeyError naming it. */
  lemma SetLocationSpec(row: Row)
    ensures SetLocation(row).Ok? <==>
      ("location" in row && row["location"].Str? && row["location"].s in LocationNames)
    ensures "location" !in row ==> SetLocation(row) == Fail(KeyError("location"))
    ensures "location" in row && row["location"] == Str("Unknown") ==>
      SetLocation(row) == Ok(row["location" := Int(0)])
    ensures "location" in row && row["location"] == Str("Along stream centerline") ==>
      SetLocation(row) == Ok(row["location" := Int(1)])
    ensures "location" in row && row["location"] == Str("Along surface water boundary") ==>
      SetLocation(row) == Ok(row["location" := Int(2)])
    ensures "location" in row && row["location"].Str? && row["location"].s !in LocationNames ==>
      SetLocation(row) == Fail(KeyError(row["location"].s))
    ensures SetLocation(row).Ok? ==> SetLocation(row).value.Keys == row.Keys
    ensures SetLocation(row).Ok? ==>
      forall k :: k in row && k != "location" ==> SetLocation(row).value[k] == row[k]
  {
    if "location" in row && row["location"].Str? {
      var s := row["location"].s;
      LocationsMatchSchema();
      GetKeys(Locations, s);
    }
  }

  // ---- templates --------------------------------------------------------------

  const WellTemplate: Template := [[Field("x"), Field("y"), Field("discharge"), Field("radius")]]
  const HeadWellTemplate: Template := [[Field("x"), Field("y"), Field("head"), Field("radius")]]
  const PiezometerTemplate: Template := [[Field("x"), Field("y")]]
  const ParticleTemplate: Template :=
    [[Field("x"), Field("y"), Field("starting_elevation"), Field("direction")]]
  const ClosedBarrierHeader: Template :=
    [[Word("slurry"), Word("closed"), Field("conductivity"), Field("thickness"),
      Field("porosity"), Field("bottom_elevation")]]

  predicate IsLineSink(c: ElementClass) {
    c in {HeadLineSink, DischargeLineSink, DrainLineSink, GalleryLineSink, FarFieldLineSink, LakeLineSink}
  }

  /** The parameter lines a line sink writes before its segments. */
  function Header(c: ElementClass): Template {
    match c
    case DischargeLineSink => [[Word("discharge")]]
    case DrainLineSink =>
      [[Word("drain")], [Word("resistance"), Field("resistance")],
       [Word("width"), Field("width"), Field("location")], [Word("depth"), Word("0.0")]]
    case GalleryLineSink =>
      [[Word("gallery")], [Word("pumping"), Field("discharge")], [Word("resistance"), Field("resistance")],
       [Word("width"), Field("width"), Field("location")], [Word("depth"), Word("0.0")]]
    case FarFieldLineSink =>
      [[Word("head")], [Word("resistance"), Word("0.0")],
       [Word("width"), Word("0.0"), Field("location")], [Word("depth"), Word("0.0")]]
    case _ =>
      [[Word("head")], [Word("resistance"), Field("resistance")],
       [Word("width"), Field("width"), Field("location")], [Word("depth"), Field("depth")]]
  }

  /** The fields a line sink interpolates from and to. */
  function StartKey(c: ElementClass): string {
    match c
    case DischargeLineSink => "starting_density"
    case GalleryLineSink => "minimum_starting_head"
    case _ => "starting_head"
  }

  function EndKey(c: ElementClass): string {
    match c
    case DischargeLineSink => "ending_density"
    case GalleryLineSink => "minimum_ending_head"
    case _ => "ending_head"
  }

  /** The render of the line sinks of core/elements/linesinks: location code
      (all but the discharge line sink), parameter lines, then the segments. */
  function RenderLineSink(c: ElementClass, row: Row): Result<(Row, Text)> {
    var coded :- if c == DischargeLineSink then Ok(row) else SetLocation(row);
    var header :- Fill(Header(c), coded);
    var xy :- Lookup(coded, "xy");
    var start :- Lookup(coded, StartKey(c));
    var end :- Lookup(coded, EndKey(c));
    var segments :- Interpolate(xy, start, end);
    Ok((coded, header + segments))
  }

  /** Python's `value * -1.0` for the recharge. */
  function Negated(v: Value): Result<Value> {
    match v
    case Num(r) => Ok(Num(-r))
    case Int(i) => Ok(Num(-(i as real)))
    case _ => Fail(TypeError)
  }

  /** The NODATA sentinel of Inhomogeneity.render. */
  const NoData: real := -9999.0

  function OrNoData(v: Value): Value {
    if v == Null then Num(NoData) else v
  }

  /** `_render_xy(row["xy"])` on a value: a vertex list, or the characters of
      a string, which cannot unpack into a pair unless there are none. */
  function RenderXYOf(xy: Value): Result<Text> {
    match xy
    case XY(pts) => Ok(RenderXY(pts))
    case Str(s) => if |s| == 0 then Ok([[]]) else Fail(ValueError)
    case _ => Fail(TypeError)
  }

  function RenderInhomogeneity(row: Row): Result<Text> {
    var conductivity :- Lookup(row, "conductivity");
    var base :- Lookup(row, "base_elevation");
    var porosity :- Lookup(row, "porosity");
    var head :- Lookup(row, "average_head");
    var recharge :- Lookup(row, "recharge");
    var flipped :- if recharge == Null then Ok(Num(NoData)) else Negated(recharge);
    var xy :- Lookup(row, "xy");
    var vertices :- RenderXYOf(xy);
    Ok([[Lit("transmissivity"), Val(OrNoData(conductivity)), Val(OrNoData(base)), Val(OrNoData(head)),
         Val(flipped), Val(OrNoData(porosity))]] + vertices)
  }

  function RenderClosedBarrier(row: Row): Result<Text> {
    var header :- Fill(ClosedBarrierHeader, row);
    var xy :- Lookup(row, "xy");
    var vertices :- RenderXYOf(xy);
    Ok(header + vertices)
  }

  /** `element.render(row)`: the rendered text and the row as render leaves it.
      A class without a render method raises AttributeError; the Particle base
      class has one but no `direction`. */
  function Render(c: ElementClass, row: Row): (r: Result<(Row, Text)>)
    ensures !HasRender(c) ==> r == Fail(AttributeError("render"))
    ensures r.Ok? && !IsLineSink(c) ==> r.value.0 == row
  {
    match c
    case Well => var text :- Fill(WellTemplate, row); Ok((row, text))
    case HeadWell => var text :- Fill(HeadWellTemplate, row); Ok((row, text))
    case Piezometer => var text :- Fill(PiezometerTemplate, row); Ok((row, text))
    case ForwardParticle => var text :- Fill(ParticleTemplate, row["direction" := Num(1.0)]); Ok((row, text))
    case Particle => Fail(AttributeError("direction"))
    case ClosedBarrier => var text :- RenderClosedBarrier(row); Ok((row, text))
    case Inhomogeneity => var text :- RenderInhomogeneity(row); Ok((row, text))
    case HeadLineSink => RenderLineSink(c, row)
    case DischargeLineSink => RenderLineSink(c, row)
    case DrainLineSink => RenderLineSink(c, row)
    case GalleryLineSink => RenderLineSink(c, row)
    case FarFieldLineSink => RenderLineSink(c, row)
    case LakeLineSink => RenderLineSink(c, row)
    case _ => Fail(AttributeError("render"))
  }

  // ---- properties -------------------------------------------------------------

  /** Filling a one-line template: the line's tokens, or the KeyError of
      its first absent key. */
  lemma FillSingleLine(l: seq<Piece>, row: Row)
    ensures Fill([l], row).Ok? <==> FirstMissing(LineKeys(l), row).None?
    ensures Fill([l], row).Fail? ==> Fill([l], row).fault == KeyError(FirstMissing(LineKeys(l), row).value)
    ensures Fill([l], row).Ok? ==> Fill([l], row).value == [FillLine(l, row).value]
  {
    FillLineSpec(l, row);
    assert [l][1..] == [];
  }

  /** The keys of a line of four fields, and its tokens when all are present. */
  lemma FourFields(a: string, b: string, c: string, d: string, row: Row)
    ensures var l := [Field(a), Field(b), Field(c), Field(d)];
      LineKeys(l) == [a, b, c, d] &&
      (FillLine(l, row).Ok? ==>
         a in row && b in row && c in row && d in row &&
         FillLine(l, row).value == [Val(row[a]), Val(row[b]), Val(row[c]), Val(row[d])])
  {
    var l := [Field(a), Field(b), Field(c), Field(d)];
    FourKeys(a, b, c, d);
    if FillLine(l, row).Ok? {
      FillLineSpec(l, row);
      var v := FillLine(l, row).value;
      var ks := [a, b, c, d];
      assert ks[0] in row && ks[1] in row && ks[2] in row && ks[3] in row;
      assert v[0] == PieceTok(l[0], row).value && v[1] == PieceTok(l[1], row).value;
      assert v[2] == PieceTok(l[2], row).value && v[3] == PieceTok(l[3], row).value;
      assert v[0] == Val(row[a]) && v[1] == Val(row[b]) && v[2] == Val(row[c]) && v[3] == Val(row[d]);
    }
  }

  lemma FourKeys(a: string, b: string, c: string, d: string)
    ensures LineKeys([Field(a), Field(b), Field(c), Field(d)]) == [a, b, c, d]
  {
    var l := [Field(a), Field(b), Field(c), Field(d)];
    assert l[1..] == [Field(b), Field(c), Field(d)];
    assert l[1..][1..] == [Field(c), Field(d)];
    assert l[1..][1..][1..] == [Field(d)];
    assert l[1..][1..][1..][1..] == [];
    assert LineKeys(l[1..][1..][1..]) == [d];
    assert LineKeys(l[1..][1..]) == [c, d];
    assert LineKeys(l[1..]) == [b, c, d];
  }

  /** Well.render: "{x} {y} {discharge} {radius}"; the label is not written. */
  lemma RenderWell(row: Row)
    ensures Render(Well, row).Ok? <==> "x" in row && "y" in row && "discharge" in row && "radius" in row
    ensures Render(Well, row).Ok? ==>
      Render(Well, row).value == (row, [[Val(row["x"]), Val(row["y"]), Val(row["discharge"]), Val(row["radius"])]])
    ensures Render(Well, row).Fail? ==>
      FirstMissing(["x", "y", "discharge", "radius"], row).Some? &&
      Render(Well, row).fault == KeyError(FirstMissing(["x", "y", "discharge", "radius"], row).value)
  {
    FourFields("x", "y", "discharge", "radius", row);
    FillSingleLine(WellTemplate[0], row);
  }

  /** HeadWell.render: "{x} {y} {head} {radius}"; the label is not written. */
  lemma RenderHeadWell(row: Row)
    ensures Render(HeadWell, row).Ok? <==> "x" in row && "y" in row && "head" in row && "radius" in row
    ensures Render(HeadWell, row).Ok? ==>
      Render(HeadWell, row).value == (row, [[Val(row["x"]), Val(row["y"]), Val(row["head"]), Val(row["radius"])]])
    ensures Render(HeadWell, row).Fail? ==>
      FirstMissing(["x", "y", "head", "radius"], row).Some? &&
      Render(HeadWell, row).fault == KeyError(FirstMissing(["x", "y", "head", "radius"], row).value)
  {
    FourFields("x", "y", "head", "radius", row);
    FillSingleLine(HeadWellTemplate[0], row);
  }

  /** Piezometer.render: "{x} {y}"; the label is not written. */
  lemma RenderPiezometer(row: Row)
    ensures Render(Piezometer, row).Ok? <==> "x" in row && "y" in row
    ensures Render(Piezometer, row).Ok? ==>
      Render(Piezometer, row).value == (row, [[Val(row["x"]), Val(row["y"])]])
    ensures Render(Piezometer, row).Fail? ==>
      Render(Piezometer, row).fault == KeyError(if "x" !in row then "x" else "y")
  {
    var l := PiezometerTemplate[0];
    assert l[1..] == [Field("y")];
    assert l[1..][1..] == [];
    assert LineKeys(l) == ["x", "y"];
    assert ["x", "y"][1..] == ["y"];
    FillSingleLine(l, row);
    FillLineSpec(l, row);
    if FillLine(l, row).Ok? {
      var v := FillLine(l, row).value;
      assert v[0] == PieceTok(l[0], row).value && v[1] == PieceTok(l[1], row).value;
      assert v == [Val(row["x"]), Val(row["y"])];
    }
  }

  /** ForwardParticle.render: "{x} {y} {starting_elevation} {direction}" over a
      copy of the row carrying direction 1.0; the row itself is unchanged and
      a null starting elevation is written as "None". */
  lemma RenderForwardParticle(row: Row)
    ensures Render(ForwardParticle, row).Ok? <==> "x" in row && "y" in row && "starting_elevation" in row
    ensures Render(ForwardParticle, row).Ok? ==>
      Render(ForwardParticle, row).value ==
        (row, [[Val(row["x"]), Val(row["y"]), Val(row["starting_elevation"]), Val(Num(1.0))]])
  {
    var copy := row["direction" := Num(1.0)];
    FourFields("x", "y", "starting_elevation", "direction", copy);
    FillSingleLine(ParticleTemplate[0], copy);
  }

  /** The slurry line of ClosedBarrier.render. */
  lemma ClosedBarrierHeaderFill(row: Row)
    ensures Fill(ClosedBarrierHeader, row).Ok? <==>
      "conductivity" in row && "thickness" in row && "porosity" in row && "bottom_elevation" in row
    ensures Fill(ClosedBarrierHeader, row).Ok? ==>
      Fill(ClosedBarrierHeader, row).value ==
        [[Lit("slurry"), Lit("closed"), Val(row["conductivity"]), Val(row["thickness"]),
          Val(row["porosity"]), Val(row["bottom_elevation"])]]
  {
    ClosedBarrierHeaderOk(row);
    if Fill(ClosedBarrierHeader, row).Ok? {
      ClosedBarrierHeaderValue(row);
    }
  }

  lemma ClosedBarrierHeaderOk(row: Row)
    ensures Fill(ClosedBarrierHeader, row).Ok? <==>
      "conductivity" in row && "thickness" in row && "porosity" in row && "bottom_elevation" in row
  {
    var l := ClosedBarrierHeader[0];
    var fields := [Field("conductivity"), Field("thickness"), Field("porosity"), Field("bottom_elevation")];
    assert l[1..][1..] == fields;
    FourFields("conductivity", "thickness", "porosity", "bottom_elevation", row);
    assert LineKeys(l) == LineKeys(fields);
    FillSingleLine(l, row);
    assert ClosedBarrierHeader == [l];
  }

  lemma ClosedBarrierHeaderValue(row: Row)
    requires "conductivity" in row && "thickness" in row && "porosity" in row && "bottom_elevation" in row
    requires Fill(ClosedBarrierHeader, row).Ok?
    ensures Fill(ClosedBarrierHeader, row).value ==
      [[Lit("slurry"), Lit("closed"), Val(row["conductivity"]), Val(row["thickness"]),
        Val(row["porosity"]), Val(row["bottom_elevation"])]]
  {
    var l := ClosedBarrierHeader[0];
    var fields := [Field("conductivity"), Field("thickness"), Field("porosity"), Field("bottom_elevation")];
    assert l[1..][1..] == fields;
    assert ClosedBarrierHeader == [l];
    FillSingleLine(l, row);
    assert FillLine(l, row).Ok?;
    FourFields("conductivity", "thickness", "porosity", "bottom_elevation", row);
    assert FillLine(l, row).value == [Lit("slurry")] + FillLine(l[1..], row).value;
    assert FillLine(l[1..], row).value == [Lit("closed")] + FillLine(fields, row).value;
    assert FillLine(fields, row).value ==
      [Val(row["conductivity"]), Val(row["thickness"]), Val(row["porosity"]), Val(row["bottom_elevation"])];
    assert FillLine(l, row).value ==
      [Lit("slurry"), Lit("closed"), Val(row["conductivity"]), Val(row["thickness"]),
       Val(row["porosity"]), Val(row["bottom_elevation"])];
    assert Fill(ClosedBarrierHeader, row).value == [FillLine(l, row).value];
  }

  /** ClosedBarrier.render: the slurry line, then one "x y" line per vertex. */
  lemma RenderClosedBarrierSpec(row: Row)
    ensures Render(ClosedBarrier, row).Ok? <==>
      ("conductivity" in row && "thickness" in row && "porosity" in row && "bottom_elevation" in row &&
       "xy" in row && RenderXYOf(row["xy"]).Ok?)
    ensures Render(ClosedBarrier, row).Ok? && row["xy"].XY? ==>
      Render(ClosedBarrier, row).value ==
        (row, [[Lit("slurry"), Lit("closed"), Val(row["conductivity"]), Val(row["thickness"]),
                Val(row["porosity"]), Val(row["bottom_elevation"])]] + RenderXY(row["xy"].pts))
  {
    ClosedBarrierHeaderFill(row);
  }

  /** Inhomogeneity.render: null parameters become the NODATA sentinel
      -9999.0, a given recharge changes sign (a null one does not), and the
      ring's vertices follow. */
  lemma RenderInhomogeneitySpec(row: Row)
    ensures Render(Inhomogeneity, row).Ok? <==>
      ("conductivity" in row && "base_elevation" in row && "porosity" in row && "average_head" in row &&
       "recharge" in row && (row["recharge"].Null? || row["recharge"].Num? || row["recharge"].Int?) &&
       "xy" in row && RenderXYOf(row["xy"]).Ok?)
    ensures Render(Inhomogeneity, row).Ok? ==>
      var text := Render(Inhomogeneity, row).value.1;
      var recharge := row["recharge"];
      text[0] == [Lit("transmissivity"),
                  Val(if row["conductivity"] == Null then Num(-9999.0) else row["conductivity"]),
                  Val(if row["base_elevation"] == Null then Num(-9999.0) else row["base_elevation"]),
                  Val(if row["average_head"] == Null then Num(-9999.0) else row["average_head"]),
                  Val(if recharge == Null then Num(-9999.0)
                      else if recharge.Num? then Num(-recharge.r) else Num(-(recharge.i as real))),
                  Val(if row["porosity"] == Null then Num(-9999.0) else row["porosity"])] &&
      text[1..] == RenderXYOf(row["xy"]).value
  {
    if Render(Inhomogeneity, row).Ok? {
      var text := RenderInhomogeneity(row).value;
      assert text[1..] == RenderXYOf(row["xy"]).value;
    }
  }

  lemma TemplateKeysCons(l: seq<Piece>, t: Template)
    ensures TemplateKeys([l] + t) == LineKeys(l) + TemplateKeys(t)
  {
    assert ([l] + t)[1..] == t;
  }

  /** The replacement fields of a template of four lines, line by line. */
  lemma FourLineKeys(a: seq<Piece>, b: seq<Piece>, c: seq<Piece>, d: seq<Piece>)
    ensures TemplateKeys([a, b, c, d]) == LineKeys(a) + LineKeys(b) + LineKeys(c) + LineKeys(d)
  {
    var ka, kb, kc, kd := LineKeys(a), LineKeys(b), LineKeys(c), LineKeys(d);
    assert TemplateKeys([d]) == kd by {
      TemplateKeysCons(d, []);
      assert [d] + [] == [d];
    }
    assert TemplateKeys([c, d]) == kc + kd by {
      TemplateKeysCons(c, [d]);
      assert [c] + [d] == [c, d];
    }
    assert TemplateKeys([b, c, d]) == kb + (kc + kd) by {
      TemplateKeysCons(b, [c, d]);
      assert [b] + [c, d] == [b, c, d];
    }
    assert TemplateKeys([a, b, c, d]) == ka + (kb + (kc + kd)) by {
      TemplateKeysCons(a, [b, c, d]);
      assert [a] + [b, c, d] == [a, b, c, d];
    }
    AppendAssociates(ka, kb, kc + kd);
    AppendAssociates(ka + kb, kc, kd);
  }

  lemma WordLineKeys(w: string)
    ensures LineKeys([Word(w)]) == []
  {
    assert [Word(w)][1..] == [];
  }

  lemma WordWordKeys(w: string, v: string)
    ensures LineKeys([Word(w), Word(v)]) == []
  {
    assert [Word(w), Word(v)][1..] == [Word(v)];
    WordLineKeys(v);
  }

  lemma WordFieldKeys(w: string, k: string)
    ensures LineKeys([Word(w), Field(k)]) == [k]
  {
    var l := [Word(w), Field(k)];
    assert l[1..] == [Field(k)];
    assert l[1..][1..] == [];
    assert LineKeys(l[1..]) == [k];
  }

  lemma WordFieldFieldKeys(w: string, k: string, m: string)
    ensures LineKeys([Word(w), Field(k), Field(m)]) == [k, m]
  {
    var l := [Word(w), Field(k), Field(m)];
    assert l[1..] == [Field(k), Field(m)];
    assert l[1..][1..] == [Field(m)];
    assert l[1..][1..][1..] == [];
    assert LineKeys(l[1..][1..]) == [m];
  }

  lemma WordWordFieldKeys(w: string, v: string, k: string)
    ensures LineKeys([Word(w), Word(v), Field(k)]) == [k]
  {
    var l := [Word(w), Word(v), Field(k)];
    assert l[1..] == [Word(v), Field(k)];
    assert l[1..][1..] == [Field(k)];
    assert l[1..][1..][1..] == [];
    assert LineKeys(l[1..][1..]) == [k];
  }

  /** The replacement fields of each line-sink header, in reading order. */
  lemma DrainHeaderKeys()
    ensures TemplateKeys(Header(DrainLineSink)) == ["resistance", "width", "location"]
  {
    WordLineKeys("drain");
    WordFieldKeys("resistance", "resistance");
    WordFieldFieldKeys("width", "width", "location");
    WordWordKeys("depth", "0.0");
    FourLineKeys([Word("drain")], [Word("resistance"), Field("resistance")],
      [Word("width"), Field("width"), Field("location")], [Word("depth"), Word("0.0")]);
  }

  lemma GalleryHeaderKeys()
    ensures TemplateKeys(Header(GalleryLineSink)) == ["discharge", "resistance", "width", "location"]
  {
    var t := Header(GalleryLineSink);
    WordLineKeys("gallery");
    WordFieldKeys("pumping", "discharge");
    WordFieldKeys("resistance", "resistance");
    WordFieldFieldKeys("width", "width", "location");
    WordWordKeys("depth", "0.0");
    FourLineKeys(t[1], t[2], t[3], t[4]);
    assert t[1..] == [t[1], t[2], t[3], t[4]];
  }

  lemma FarFieldHeaderKeys()
    ensures TemplateKeys(Header(FarFieldLineSink)) == ["location"]
  {
    WordLineKeys("head");
    WordWordKeys("resistance", "0.0");
    WordWordFieldKeys("width", "0.0", "location");
    WordWordKeys("depth", "0.0");
    FourLineKeys([Word("head")], [Word("resistance"), Word("0.0")],
      [Word("width"), Word("0.0"), Field("location")], [Word("depth"), Word("0.0")]);
  }

  lemma HeadHeaderKeys(c: ElementClass)
    requires c == HeadLineSink || c == LakeLineSink
    ensures TemplateKeys(Header(c)) == ["resistance", "width", "location", "depth"]
  {
    WordLineKeys("head");
    WordFieldKeys("resistance", "resistance");
    WordFieldFieldKeys("width", "width", "location");
    WordFieldKeys("depth", "depth");
    FourLineKeys([Word("head")], [Word("resistance"), Field("resistance")],
      [Word("width"), Field("width"), Field("location")], [Word("depth"), Field("depth")]);
  }

  /** The row a line sink renders from: its location coded, except for the
      discharge line sink, which has none. */
  function Coded(c: ElementClass, row: Row): Result<Row> {
    if c == DischargeLineSink then Ok(row) else SetLocation(row)
  }

  /** Coding the location keeps the keys, and every value but the location. */
  lemma CodedKeeps(c: ElementClass, row: Row)
    ensures Coded(c, row).Ok? ==> Coded(c, row).value.Keys == row.Keys
    ensures Coded(c, row).Ok? ==>
      forall k :: k in row && k != "location" ==> Coded(c, row).value[k] == row[k]
  {
    SetLocationSpec(row);
  }

  /** When a line sink renders: a known location, every header field, the
      vertices and the two end values present, and an interpolation that
      succeeds. */
  lemma LineSinkRenderOk(c: ElementClass, row: Row)
    requires IsLineSink(c)
    ensures Render(c, row).Ok? <==>
      (Coded(c, row).Ok? && FirstMissing(TemplateKeys(Header(c)), Coded(c, row).value).None? &&
       "xy" in row && StartKey(c) in row && EndKey(c) in row &&
       Interpolate(row["xy"], row[StartKey(c)], row[EndKey(c)]).Ok?)
  {
    assert Render(c, row) == RenderLineSink(c, row);
    if Coded(c, row).Ok? {
      var coded := Coded(c, row).value;
      CodedKeeps(c, row);
      FillSpec(Header(c), coded);
      assert StartKey(c) != "location" && EndKey(c) != "location";
      assert "xy" in coded ==> coded["xy"] == row["xy"];
      assert StartKey(c) in coded ==> coded[StartKey(c)] == row[StartKey(c)];
      assert EndKey(c) in coded ==> coded[EndKey(c)] == row[EndKey(c)];
    }
  }

  /** A rendered line sink: the row with its location coded, the header lines,
      then exactly one line per segment, n - 1 for n vertices. */
  lemma LineSinkRenderText(c: ElementClass, row: Row)
    requires IsLineSink(c)
    ensures Render(c, row).Ok? ==>
      Coded(c, row).Ok? && Render(c, row).value.0 == Coded(c, row).value
    ensures Render(c, row).Ok? ==>
      "xy" in row && row["xy"].XY? && StartKey(c) in row && EndKey(c) in row &&
      Fill(Header(c), Coded(c, row).value).Ok? &&
      Interpolate(row["xy"], row[StartKey(c)], row[EndKey(c)]).Ok? &&
      var text := Render(c, row).value.1;
      |text| == |Header(c)| + |row["xy"].pts| - 1 &&
      text[..|Header(c)|] == Fill(Header(c), Coded(c, row).value).value &&
      text[|Header(c)|..] == Interpolate(row["xy"], row[StartKey(c)], row[EndKey(c)]).value
  {
    assert Render(c, row) == RenderLineSink(c, row);
    if Coded(c, row).Ok? {
      var coded := Coded(c, row).value;
      CodedKeeps(c, row);
      FillSpec(Header(c), coded);
      assert StartKey(c) != "location" && EndKey(c) != "location";
      assert "xy" in coded ==> coded["xy"] == row["xy"];
      assert StartKey(c) in coded ==> coded[StartKey(c)] == row[StartKey(c)];
      assert EndKey(c) in coded ==> coded[EndKey(c)] == row[EndKey(c)];
    }
  }

  /** A lake line sink writes resistance, depth and starting/ending heads, and
      its layer has no resistance column: a row of its own attributes never
      renders, and with a known location the KeyError names "resistance". */
  lemma LakeRowsFail(row: Row)
    requires "resistance" !in row
    ensures Render(LakeLineSink, row).Fail?
    ensures SetLocation(row).Ok? ==> Render(LakeLineSink, row) == Fail(KeyError("resistance"))
  {
    LineSinkRenderOk(LakeLineSink, row);
    HeadHeaderKeys(LakeLineSink);
    CodedKeeps(LakeLineSink, row);
    if SetLocation(row).Ok? {
      var coded := SetLocation(row).value;
      FillSpec(Header(LakeLineSink), coded);
      assert Render(LakeLineSink, row) == RenderLineSink(LakeLineSink, row);
      assert FirstMissing(TemplateKeys(Header(LakeLineSink)), coded) == Some("resistance");
    }
  }

  /** The discharge line sink writes "discharge" and then its segments, and
      leaves the row as it was. */
  lemma DischargeLineSinkText(row: Row)
    ensures Render(DischargeLineSink, row).Ok? ==>
      Render(DischargeLineSink, row).value.0 == row &&
      Render(DischargeLineSink, row).value.1[0] == [Lit("discharge")] &&
      |Render(DischargeLineSink, row).value.1| == |row["xy"].pts|
  {
    LineSinkRenderText(DischargeLineSink, row);
    var l := [Word("discharge")];
    assert l[1..] == [];
    assert PieceTok(l[0], row) == Ok(Lit("discharge"));
    assert FillLine(l[1..], row) == Ok([]);
    assert [Lit("discharge")] + [] == [Lit("discharge")];
    assert FillLine(l, row) == Ok([Lit("discharge")]);
    FillSingleLine(l, row);
    assert Header(DischargeLineSink) == [l];
  }
}
