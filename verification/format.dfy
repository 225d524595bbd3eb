/** Python's `template.format(**row)` at the token level: a template is a
    list of lines, each a list of pieces, and every `{key}` piece is replaced
    by the row's value for that key. The fields are filled left to right, so
    the first absent key, in reading order, is the one the KeyError names. */
module Format {
  import opened Wrappers
  import opened Values

  /** Literal template text, or a replacement field `{key}`. */
  datatype Piece = Word(w: string) | Field(key: string)

  type Template = seq<seq<Piece>>

  /** The token one piece becomes. */
  function PieceTok(p: Piece, row: Row): (r: Result<Tok>)
    ensures r.Ok? <==> (p.Field? ==> p.key in row)
    ensures r.Fail? ==> r.fault == KeyError(p.key)
  {
    match p
    case Word(w) => Ok(Lit(w))
    case Field(k) => var v :- Lookup(row, k); Ok(Val(v))
  }

  function FillLine(l: seq<Piece>, row: Row): Result<Line> {
    if |l| == 0 then Ok([])
    else
      var tok :- PieceTok(l[0], row);
      var rest :- FillLine(l[1..], row);
      Ok([tok] + rest)
  }

  /** `template.format(**row)`. */
  function Fill(t: Template, row: Row): Result<Text> {
    if |t| == 0 then Ok([])
    else
      var line :- FillLine(t[0], row);
      var rest :- Fill(t[1..], row);
      Ok([line] + rest)
  }

  /** The keys of the replacement fields, in reading order. */
  function LineKeys(l: seq<Piece>): seq<string> {
    if |l| == 0 then []
    else (if l[0].Field? then [l[0].key] else []) + LineKeys(l[1..])
  }

  function TemplateKeys(t: Template): seq<string> {
    if |t| == 0 then [] else LineKeys(t[0]) + TemplateKeys(t[1..])
  }

  /** The first key of `ks` that the row lacks. */
  function FirstMissing(ks: seq<string>, row: Row): (r: Option<string>)
    ensures r.None? <==> forall i :: 0 <= i < |ks| ==> ks[i] in row
    ensures r.Some? ==> r.value in ks && r.value !in row
  {
    if |ks| == 0 then None
    else if ks[0] !in row then Some(ks[0])
    else FirstMissing(ks[1..], row)
  }

  lemma {:induction false} FirstMissingAppend(a: seq<string>, b: seq<string>, row: Row)
    ensures FirstMissing(a + b, row) == if FirstMissing(a, row).Some? then FirstMissing(a, row) else FirstMissing(b, row)
  {
    if |a| == 0 {
      assert a + b == b;
    } else {
      assert (a + b)[1..] == a[1..] + b;
      FirstMissingAppend(a[1..], b, row);
    }
  }

  /** What a filled template line is: each piece's token when every field's
      key is present, otherwise the KeyError of the first absent key. */
  lemma {:induction false} FillLineSpec(l: seq<Piece>, row: Row)
    ensures FillLine(l, row).Ok? <==> FirstMissing(LineKeys(l), row).None?
    ensures FillLine(l, row).Fail? ==> FillLine(l, row).fault == KeyError(FirstMissing(LineKeys(l), row).value)
    ensures FillLine(l, row).Ok? ==> |FillLine(l, row).value| == |l|
    ensures FillLine(l, row).Ok? ==>
      forall j :: 0 <= j < |l| ==> PieceTok(l[j], row).Ok? && FillLine(l, row).value[j] == PieceTok(l[j], row).value
  {
    if |l| > 0 {
      FillLineSpec(l[1..], row);
      var own := if l[0].Field? then [l[0].key] else [];
      FirstMissingAppend(own, LineKeys(l[1..]), row);
      if l[0].Field? {
        assert own[1..] == [];
      }
      if FillLine(l, row).Ok? {
        var rest := FillLine(l[1..], row).value;
        assert FillLine(l, row).value == [PieceTok(l[0], row).value] + rest;
      }
    }
  }

  /** What a filled template is: the filled lines when every field's key is
      present, otherwise the KeyError of the first absent key in reading order. */
  lemma {:induction false} FillSpec(t: Template, row: Row)
    ensures Fill(t, row).Ok? <==> FirstMissing(TemplateKeys(t), row).None?
    ensures Fill(t, row).Fail? ==> Fill(t, row).fault == KeyError(FirstMissing(TemplateKeys(t), row).value)
    ensures Fill(t, row).Ok? ==> |Fill(t, row).value| == |t|
    ensures Fill(t, row).Ok? ==>
      forall i :: 0 <= i < |t| ==> FillLine(t[i], row).Ok? && Fill(t, row).value[i] == FillLine(t[i], row).value
  {
    if |t| > 0 {
      FillSpec(t[1..], row);
      FillLineSpec(t[0], row);
      FirstMissingAppend(LineKeys(t[0]), TemplateKeys(t[1..]), row);
      if Fill(t, row).Ok? {
        var rest := Fill(t[1..], row).value;
        assert Fill(t, row).value == [FillLine(t[0], row).value] + rest;
        assert forall i :: 1 <= i < |t| ==> t[1..][i - 1] == t[i];
      }
    }
  }

  /** Element._render_xy: one "x y" line per vertex, in order, joined by
      newlines; no vertices give the empty string, one empty line. */
  function RenderXY(pts: seq<Point>): (text: Text)
    ensures |pts| == 0 ==> text == [[]]
    ensures |pts| > 0 ==> |text| == |pts|
    ensures |pts| > 0 ==>
      forall i :: 0 <= i < |pts| ==> text[i] == [Val(Num(pts[i].x)), Val(Num(pts[i].y))]
  {
    if |pts| == 0 then [[]]
    else seq(|pts|, i requires 0 <= i < |pts| => [Val(Num(pts[i].x)), Val(Num(pts[i].y))])
  }
}
