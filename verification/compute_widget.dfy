/** The pure parts of widgets/compute_widget.py: the spacing guessed from
    the domain, the guard of `redraw_contours`, the reading of a pathline
    file into polylines and segments, and the gate of `compute`. */
module Compute {
  import opened Wrappers
  import Strings
  import Formatting
  import Dataset

  // ---- set_spacing_from_domain -------------------------------------------------------

  /** About fifty rows over the domain's height, rounded by size. The widget
      writes the rule out again instead of calling `round_spacing`. */
  function SetSpacingFromDomain(ymax: real, ymin: real): (dy: real)
    ensures dy == Formatting.RoundSpacing(ymin, ymax)
  {
    var dy := (ymax - ymin) / 50.0;
    if dy > 500.0 then Formatting.Round(dy / 500.0) as real * 500.0
    else if dy > 50.0 then Formatting.Round(dy / 50.0) as real * 50.0
    else if dy > 5.0 then Formatting.Round(dy / 5.0) as real * 5.0
    else if dy > 1.0 then Formatting.Round(dy) as real
    else dy
  }

  // ---- redraw_contours ---------------------------------------------------------------

  /** The contouring `redraw_contours` asks for. */
  datatype ContourRequest = ContourRequest(name: string, start: real, stop: real, step: real)

  /** Nothing is drawn without a raster layer, for an empty range or for a
      zero step; otherwise the "head-contours" layer over the range. */
  function RedrawContours(hasLayer: bool, start: real, stop: real, step: real): (r: Option<ContourRequest>)
    ensures r.Some? <==> hasLayer && start != stop && step != 0.0
    ensures r.Some? ==> r.value == ContourRequest("head-contours", start, stop, step)
  {
    if !hasLayer then None
    else if start == stop || step == 0.0 then None
    else Some(ContourRequest("head-contours", start, stop, step))
  }

  // ---- reading a pathline file -----------------------------------------------------------

  /** A pathline vertex: x, y and the elevation z. */
  datatype Vertex = Vertex(x: real, y: real, z: real)

  /** What one line of the file means to the splitter. */
  datatype PathEvent = Start | End | VertexLine(v: Vertex)

  predicate StartsWith(s: string, prefix: string) {
    |prefix| <= |s| && s[..|prefix|] == prefix
  }

  /** Python's `s[lo:hi]` for 0 <= lo <= hi: out-of-range bounds are clipped. */
  function Slice(s: string, lo: nat, hi: nat): (r: string)
    requires lo <= hi
    ensures |r| <= hi - lo
    ensures hi <= |s| ==> r == s[lo..hi]
  {
    var h := if hi < |s| then hi else |s|;
    var l := if lo < h then lo else h;
    s[l..h]
  }

  /** One past the last character of the word that starts at `from`. */
  function WordEnd(s: string, from: nat): (j: nat)
    requires from <= |s|
    ensures from <= j <= |s|
    ensures forall k :: from <= k < j ==> !Strings.IsSpace(s[k])
    ensures j < |s| ==> Strings.IsSpace(s[j])
    decreases |s| - from
  {
    if from == |s| || Strings.IsSpace(s[from]) then from else WordEnd(s, from + 1)
  }

  /** Python's `s.split()`: the maximal runs of non-whitespace, in order. */
  function Words(s: string): seq<string>
    decreases |s|
  {
    var i := Strings.StripStart(s);
    if i == |s| then []
    else
      var j := WordEnd(s, i);
      [s[i..j]] + Words(s[j..])
  }

  /** Every word is non-empty and holds no whitespace. */
  lemma {:induction false} WordsSound(s: string)
    ensures forall w :: w in Words(s) ==> |w| > 0 && forall k :: 0 <= k < |w| ==> !Strings.IsSpace(w[k])
    decreases |s|
  {
    var i := Strings.StripStart(s);
    if i < |s| {
      var j := WordEnd(s, i);
      WordsSound(s[j..]);
      forall w | w in Words(s) ensures |w| > 0 && forall k :: 0 <= k < |w| ==> !Strings.IsSpace(w[k]) {
        if w != s[i..j] {
          assert w in Words(s[j..]);
        }
      }
    }
  }

  /** The characters of `s` that are not whitespace, in order. */
  function NonSpace(s: string): string {
    if |s| == 0 then [] else (if Strings.IsSpace(s[0]) then [] else [s[0]]) + NonSpace(s[1..])
  }

  /** The words run together. */
  function Concat(ws: seq<string>): string {
    if |ws| == 0 then [] else ws[0] + Concat(ws[1..])
  }

  lemma {:induction false} NonSpaceAppend(a: string, b: string)
    ensures NonSpace(a + b) == NonSpace(a) + NonSpace(b)
    decreases |a|
  {
    if |a| > 0 {
      var head: string := if Strings.IsSpace(a[0]) then [] else [a[0]];
      assert (a + b)[0] == a[0];
      assert (a + b)[1..] == a[1..] + b;
      NonSpaceAppend(a[1..], b);
      assert NonSpace(a + b) == head + (NonSpace(a[1..]) + NonSpace(b));
      assert NonSpace(a) == head + NonSpace(a[1..]);
    } else {
      assert a + b == b;
    }
  }

  /** Whitespace only: nothing survives. */
  lemma {:induction false} NonSpaceBlank(s: string)
    requires forall k :: 0 <= k < |s| ==> Strings.IsSpace(s[k])
    ensures NonSpace(s) == []
    decreases |s|
  {
    if |s| > 0 {
      NonSpaceBlank(s[1..]);
    }
  }

  /** No whitespace: everything survives. */
  lemma {:induction false} NonSpaceWord(s: string)
    requires forall k :: 0 <= k < |s| ==> !Strings.IsSpace(s[k])
    ensures NonSpace(s) == s
    decreases |s|
  {
    if |s| > 0 {
      NonSpaceWord(s[1..]);
    }
  }

  /** Nothing but whitespace is lost: the words, run together, are exactly
      the non-whitespace characters of `s` in order. With `WordsSound`, the
      words cut those characters into non-empty whitespace-free pieces. */
  lemma {:induction false} WordsComplete(s: string)
    ensures Concat(Words(s)) == NonSpace(s)
    decreases |s|
  {
    var i := Strings.StripStart(s);
    var blank, rest := s[..i], s[i..];
    assert s == blank + rest;
    NonSpaceAppend(blank, rest);
    assert forall k :: 0 <= k < |blank| ==> blank[k] == s[k];
    NonSpaceBlank(blank);
    if i < |s| {
      var j := WordEnd(s, i);
      var word, tail := s[i..j], s[j..];
      assert rest == word + tail;
      NonSpaceAppend(word, tail);
      assert forall k :: 0 <= k < |word| ==> word[k] == s[i + k];
      NonSpaceWord(word);
      WordsComplete(s[j..]);
      var ws := Words(s);
      assert ws == [s[i..j]] + Words(s[j..]);
      assert ws[1..] == Words(s[j..]);
    }
  }

  /** `[parse(v) for v in words]`: the first word that does not parse
      raises ValueError. */
  function ParseAll(words: seq<string>, parse: string -> Option<real>): Result<seq<real>> {
    if |words| == 0 then Ok([])
    else
      match parse(words[0])
      case None => Fail(ValueError)
      case Some(first) =>
        var rest :- ParseAll(words[1..], parse);
        Ok([first] + rest)
  }

  /** The list exists exactly when every word parses. */
  lemma {:induction false} ParseAllOk(words: seq<string>, parse: string -> Option<real>)
    ensures ParseAll(words, parse).Ok? <==> forall i :: 0 <= i < |words| ==> parse(words[i]).Some?
    ensures ParseAll(words, parse).Fail? ==> ParseAll(words, parse).fault == ValueError
  {
    if |words| > 0 {
      ParseAllOk(words[1..], parse);
      assert forall i :: 1 <= i < |words| ==> words[1..][i - 1] == words[i];
    }
  }

  /** The list holds the words' values, in order. */
  lemma {:induction false} ParseAllValues(words: seq<string>, parse: string -> Option<real>)
    ensures ParseAll(words, parse).Ok? ==> |ParseAll(words, parse).value| == |words|
    ensures ParseAll(words, parse).Ok? ==>
      forall i :: 0 <= i < |words| ==> Some(ParseAll(words, parse).value[i]) == parse(words[i])
  {
    if |words| > 0 && ParseAll(words, parse).Ok? {
      ParseAllValues(words[1..], parse);
      var rest := ParseAll(words[1..], parse).value;
      assert ParseAll(words, parse).value == [parse(words[0]).value] + rest;
      assert forall i :: 1 <= i < |words| ==> words[1..][i - 1] == words[i];
    }
  }

  /** Python's `float` on a word. */
  function Float(): string -> Option<real> {
    (w: string) => Strings.ParseFloat(w)
  }

  /** The numbers between the 5th and the 47th character of a line. */
  function VertexWords(line: string): seq<string> {
    Words(Slice(line, 4, 47))
  }

  /** `x, y, z = [float(v) for v in line[4:47].split()]`: exactly three
      numbers, or ValueError. */
  function ParseVertex(line: string): (r: Result<Vertex>)
    ensures r.Ok? <==> (|VertexWords(line)| == 3 &&
      forall i :: 0 <= i < 3 ==> Strings.ParseFloat(VertexWords(line)[i]).Some?)
    ensures r.Fail? ==> r.fault == ValueError
    ensures r.Ok? ==> r.value == Vertex(
      Strings.ParseFloat(VertexWords(line)[0]).value,
      Strings.ParseFloat(VertexWords(line)[1]).value,
      Strings.ParseFloat(VertexWords(line)[2]).value)
  {
    var words := VertexWords(line);
    ParseAllOk(words, Float());
    ParseAllValues(words, Float());
    var values :- ParseAll(words, Float());
    if |values| != 3 then Fail(ValueError) else Ok(Vertex(values[0], values[1], values[2]))
  }

  /** Only characters 4 to 46 of a vertex line are read. */
  lemma ParseVertexWindow(line: string, other: string)
    requires |line| >= 47 && |other| >= 47 && line[4..47] == other[4..47]
    ensures ParseVertex(line) == ParseVertex(other)
  {
  }

  /** One line of the file: START and END lines by their first letters,
      every other line a vertex. */
  function Classify(line: string): (r: Result<PathEvent>)
    ensures StartsWith(line, "START") ==> r == Ok(Start)
    ensures !StartsWith(line, "START") && StartsWith(line, "END") ==> r == Ok(End)
    ensures !StartsWith(line, "START") && !StartsWith(line, "END") ==>
      (r.Ok? <==> ParseVertex(line).Ok?) && (r.Ok? ==> r == Ok(VertexLine(ParseVertex(line).value)))
  {
    if StartsWith(line, "START") then Ok(Start)
    else if StartsWith(line, "END") then Ok(End)
    else
      var v :- ParseVertex(line);
      Ok(VertexLine(v))
  }

  /** The loop over the lines, as far as reading them goes: `f` on every
      line in order, stopping at the first line that raises. */
  function MapAll<A, B>(xs: seq<A>, f: A -> Result<B>): Result<seq<B>> {
    if |xs| == 0 then Ok([])
    else
      var first :- f(xs[0]);
      var rest :- MapAll(xs[1..], f);
      Ok([first] + rest)
  }

  /** The loop gets through exactly when no line raises; then it has one
      result per line, in order, and otherwise the first line's error. */
  lemma {:induction false} MapAllSpec<A, B>(xs: seq<A>, f: A -> Result<B>)
    ensures MapAll(xs, f).Ok? <==> forall i :: 0 <= i < |xs| ==> f(xs[i]).Ok?
    ensures MapAll(xs, f).Ok? ==> |MapAll(xs, f).value| == |xs|
    ensures MapAll(xs, f).Ok? ==> forall i :: 0 <= i < |xs| ==> f(xs[i]) == Ok(MapAll(xs, f).value[i])
    ensures MapAll(xs, f).Fail? ==>
      exists i :: 0 <= i < |xs| && f(xs[i]) == Fail(MapAll(xs, f).fault) && forall j :: 0 <= j < i ==> f(xs[j]).Ok?
  {
    if |xs| > 0 {
      MapAllSpec(xs[1..], f);
      assert forall i :: 1 <= i < |xs| ==> xs[1..][i - 1] == xs[i];
      if f(xs[0]).Fail? {
        assert f(xs[0]) == Fail(MapAll(xs, f).fault);
      } else if MapAll(xs[1..], f).Fail? {
        var i :| 0 <= i < |xs| - 1 && f(xs[1..][i]) == Fail(MapAll(xs[1..], f).fault) &&
          forall j :: 0 <= j < i ==> f(xs[1..][j]).Ok?;
        assert f(xs[i + 1]) == Fail(MapAll(xs, f).fault);
      }
    }
  }

  function Classifier(): string -> Result<PathEvent> {
    (line: string) => Classify(line)
  }

  function Classified(lines: seq<string>): Result<seq<PathEvent>> {
    MapAll(lines, Classifier())
  }

  /** The splitter's state. Python lists are shared objects: `lists` holds
      every vertex list made so far, `current` is the one `vertices` names,
      and `stored` names the list each `linestrings` entry refers to. */
  datatype Splitter = Splitter(lists: seq<seq<Vertex>>, current: nat, stored: seq<nat>)

  ghost predicate Valid(s: Splitter) {
    s.current < |s.lists| && forall i :: 0 <= i < |s.stored| ==> s.stored[i] < |s.lists|
  }

  /** `linestrings = []` and `vertices = []`. */
  const Initial: Splitter := Splitter([[]], 0, [])

  /** One line: START makes a fresh list, END stores (a reference to) the
      current list, and a vertex is appended to the current list. */
  function Step(s: Splitter, e: PathEvent): (r: Splitter)
    requires Valid(s)
    ensures Valid(r)
  {
    match e
    case Start => Splitter(s.lists + [[]], |s.lists|, s.stored)
    case End => s.(stored := s.stored + [s.current])
    case VertexLine(v) => s.(lists := s.lists[s.current := s.lists[s.current] + [v]])
  }

  function Run(s: Splitter, es: seq<PathEvent>): (r: Splitter)
    requires Valid(s)
    ensures Valid(r)
    decreases |es|
  {
    if |es| == 0 then s else Run(Step(s, es[0]), es[1..])
  }

  /** The content of `linestrings`: each entry reads its list's final state. */
  function Linestrings(s: Splitter): seq<seq<Vertex>>
    requires Valid(s)
  {
    seq(|s.stored|, i requires 0 <= i < |s.stored| => s.lists[s.stored[i]])
  }

  /** The polylines of a pathline file, or the error of its first bad line. */
  function Pathlines(lines: seq<string>): Result<seq<seq<Vertex>>> {
    var events :- Classified(lines);
    Ok(Linestrings(Run(Initial, events)))
  }

  lemma {:induction false} RunAppend(s: Splitter, a: seq<PathEvent>, b: seq<PathEvent>)
    requires Valid(s)
    ensures Run(s, a + b) == Run(Run(s, a), b)
    decreases |a|
  {
    if |a| == 0 {
      assert a + b == b;
    } else {
      assert (a + b)[0] == a[0];
      assert (a + b)[1..] == a[1..] + b;
      RunAppend(Step(s, a[0]), a[1..], b);
    }
  }

  function VertexEvents(vs: seq<Vertex>): (es: seq<PathEvent>)
    ensures |es| == |vs|
  {
    if |vs| == 0 then [] else [VertexLine(vs[0])] + VertexEvents(vs[1..])
  }

  /** Vertex lines extend the current list and nothing else. */
  lemma {:induction false} RunVertices(s: Splitter, vs: seq<Vertex>)
    requires Valid(s)
    ensures Run(s, VertexEvents(vs)) == s.(lists := s.lists[s.current := s.lists[s.current] + vs])
    decreases |vs|
  {
    if |vs| == 0 {
      assert s.lists[s.current] + vs == s.lists[s.current];
      assert s.lists[s.current := s.lists[s.current]] == s.lists;
    } else {
      var s1 := Step(s, VertexLine(vs[0]));
      RunVertices(s1, vs[1..]);
      assert s1.lists[s.current] + vs[1..] == s.lists[s.current] + vs;
    }
  }

  /** The lines of one well-formed polyline: START, its vertices, END. */
  function PolylineEvents(vs: seq<Vertex>): seq<PathEvent> {
    [Start] + VertexEvents(vs) + [End]
  }

  /** A well-formed polyline adds itself to `linestrings` and leaves the
      stored entries alone. */
  lemma PolylineRun(s: Splitter, vs: seq<Vertex>)
    requires Valid(s)
    ensures Linestrings(Run(s, PolylineEvents(vs))) == Linestrings(s) + [vs]
  {
    var s1 := Step(s, Start);
    assert Run(s, [Start]) == s1;
    RunAppend(s, [Start], VertexEvents(vs));
    RunAppend(s, [Start] + VertexEvents(vs), [End]);
    RunVertices(s1, vs);
    var s2 := Run(s1, VertexEvents(vs));
    assert s1.lists[s1.current] + vs == vs;
    assert s2.lists == s.lists + [vs];
    assert Run(s2, [End]) == Step(s2, End);
  }

  function FileEvents(polylines: seq<seq<Vertex>>): seq<PathEvent> {
    if |polylines| == 0 then [] else PolylineEvents(polylines[0]) + FileEvents(polylines[1..])
  }

  /** A file of well-formed polylines is read back as exactly those polylines. */
  lemma {:induction false} FileRun(s: Splitter, polylines: seq<seq<Vertex>>)
    requires Valid(s)
    ensures Linestrings(Run(s, FileEvents(polylines))) == Linestrings(s) + polylines
    decreases |polylines|
  {
    if |polylines| == 0 {
    } else {
      RunAppend(s, PolylineEvents(polylines[0]), FileEvents(polylines[1..]));
      PolylineRun(s, polylines[0]);
      FileRun(Run(s, PolylineEvents(polylines[0])), polylines[1..]);
      assert [polylines[0]] + polylines[1..] == polylines;
    }
  }

  lemma WellFormedFile(polylines: seq<seq<Vertex>>)
    ensures Linestrings(Run(Initial, FileEvents(polylines))) == polylines
  {
    FileRun(Initial, polylines);
  }

  /** An END without a START in front stores the same list object again,
      and vertex lines after an END still grow the stored list: both entries
      end up as [a, b]. */
  lemma EndAliases(a: Vertex, b: Vertex)
    ensures Linestrings(Run(Initial, [Start, VertexLine(a), End, VertexLine(b), End])) == [[a, b], [a, b]]
  {
    var es := [Start, VertexLine(a), End, VertexLine(b), End];
    var s1 := Step(Initial, Start);
    var s2 := Step(s1, VertexLine(a));
    var s3 := Step(s2, End);
    var s4 := Step(s3, VertexLine(b));
    var s5 := Step(s4, End);
    assert Run(Initial, es) == Run(s1, es[1..]);
    assert Run(s1, es[1..]) == Run(s2, es[2..]);
    assert Run(s2, es[2..]) == Run(s3, es[3..]);
    assert Run(s3, es[3..]) == Run(s4, es[4..]);
    assert Run(s4, es[4..]) == Run(s5, es[5..]);
    assert s1 == Splitter([[], []], 1, []);
    assert [] + [a] == [a] && [a] + [b] == [a, b];
    assert s2 == Splitter([[], [a]], 1, []);
    assert s3 == Splitter([[], [a]], 1, [1]);
    assert s4 == Splitter([[], [a, b]], 1, [1]);
    assert s5 == Splitter([[], [a, b]], 1, [1, 1]);
  }

  /** Vertices before the first START are kept: `vertices` starts as a list. */
  lemma NoStart(a: Vertex)
    ensures Linestrings(Run(Initial, [VertexLine(a), End])) == [[a]]
  {
    var s1 := Step(Initial, VertexLine(a));
    var s2 := Step(s1, End);
    assert Run(Initial, [VertexLine(a), End]) == Run(s1, [End]);
    assert Run(s1, [End]) == Run(s2, []);
    assert [] + [a] == [a];
    assert s1 == Splitter([[a]], 0, []);
    assert s2 == Splitter([[a]], 0, [0]);
  }

  // ---- segments ------------------------------------------------------------------------

  /** A feature of the Pathlines layer: a two-point line with the elevations
      of its ends. */
  datatype PathSegment = PathSegment(from: Vertex, to: Vertex, startElevation: real, endElevation: real)

  /** `zip(a, b)` of consecutive vertices into segments. */
  function ZipSegments(a: seq<Vertex>, b: seq<Vertex>): seq<PathSegment> {
    if |a| == 0 || |b| == 0 then []
    else [PathSegment(a[0], b[0], a[0].z, b[0].z)] + ZipSegments(a[1..], b[1..])
  }

  /** `zip(linestring[:-1], linestring[1:])`. */
  function PolylineSegments(ls: seq<Vertex>): seq<PathSegment> {
    if |ls| == 0 then [] else ZipSegments(ls[..|ls| - 1], ls[1..])
  }

  lemma {:induction false} ZipSegmentsSpec(a: seq<Vertex>, b: seq<Vertex>)
    ensures |ZipSegments(a, b)| == if |a| < |b| then |a| else |b|
    ensures forall i :: 0 <= i < |ZipSegments(a, b)| ==>
      ZipSegments(a, b)[i] == PathSegment(a[i], b[i], a[i].z, b[i].z)
  {
    if |a| > 0 && |b| > 0 {
      ZipSegmentsSpec(a[1..], b[1..]);
    }
  }

  /** A polyline of k vertices gives k - 1 segments (none for an empty one),
      segment i running from vertex i to vertex i + 1 with their elevations. */
  lemma PolylineSegmentsSpec(ls: seq<Vertex>)
    ensures |PolylineSegments(ls)| == if |ls| == 0 then 0 else |ls| - 1
    ensures forall i :: 0 <= i < |PolylineSegments(ls)| ==>
      PolylineSegments(ls)[i] == PathSegment(ls[i], ls[i + 1], ls[i].z, ls[i + 1].z)
  {
    if |ls| > 0 {
      ZipSegmentsSpec(ls[..|ls| - 1], ls[1..]);
    }
  }

  /** All features, polyline by polyline. */
  function AllSegments(linestrings: seq<seq<Vertex>>): seq<PathSegment> {
    if |linestrings| == 0 then [] else PolylineSegments(linestrings[0]) + AllSegments(linestrings[1..])
  }

  // ---- compute -------------------------------------------------------------------------

  /** Python truthiness of the value `convert_to_gflow` returns. */
  predicate Truthy(returned: Option<bool>) {
    returned.Some? && returned.value
  }

  /** `compute` stops early exactly when the conversion returned something truthy. */
  predicate Launches(returned: Option<bool>) {
    !Truthy(returned)
  }

  /** Whenever the conversion returns, the solver is launched: it returns
      None when validation fails and False when it succeeds, and neither is
      truthy. Only an exception stops `compute`. */
  lemma GateNeverStops(items: seq<Dataset.Item>, serialize: Dataset.TreeData -> string)
    ensures Dataset.ConvertToGflow(items, serialize).Ok? ==>
      Launches(Dataset.ConvertToGflow(items, serialize).value.returned)
    ensures Dataset.ExtractTree(items).Ok? && Dataset.ExtractTree(items).value.0 != [] ==>
      Dataset.ConvertToGflow(items, serialize).value.written.None? &&
      Launches(Dataset.ConvertToGflow(items, serialize).value.returned)
  {
  }
}
