/** The line cursor and the block decoder of the GFLOW extract (.XTR) reader.
    The reader exists twice, in extract/__init__.py and in extract/parser.py;
    the copies differ only in that the first removes NUL characters from every
    field. `stripNul` says which copy is meant. */
module Extract {
  import opened Wrappers
  import opened Values
  import Strings

  /** A decoded field. "label" stays text; every other field is a float, or
      None where `float()` raises. The extractions later combine fields into
      a pair (the ends of a line sink) or a column (the vertices of a doublet). */
  datatype Cell =
    | Label(s: string)
    | Number(v: Option<real>)
    | Pair(first: Cell, second: Cell)
    | Column(cells: seq<Cell>)

  /** One record: attribute name to cell. The order of a record's keys is
      never observed (layer fields follow the attribute tuple), so a map
      stands for the Python dict. */
  type Record = map<string, Cell>

  /** `record.pop(key)`: the cell, and the record without the key. */
  function PopField(row: Record, key: string): (r: Result<(Cell, Record)>)
    ensures r.Ok? <==> key in row
    ensures r.Ok? ==> r.value == (row[key], row - {key})
    ensures r.Fail? ==> r.fault == KeyError(key)
  {
    if key in row then Ok((row[key], row - {key})) else Fail(KeyError(key))
  }

  /** GflowExtractParser: the lines of the file and the index of the next one. */
  datatype Parser = Parser(lines: seq<string>, count: nat)

  /** `peek`: the current line; IndexError past the end. */
  function Peek(p: Parser): (r: Result<string>)
    ensures r.Ok? <==> p.count < |p.lines|
    ensures r.Fail? ==> r.fault == IndexError
  {
    if p.count < |p.lines| then Ok(p.lines[p.count]) else Fail(IndexError)
  }

  /** `advance`: the current line, and the cursor one line further on. */
  function Advance(p: Parser): (r: Result<(string, Parser)>)
    ensures r.Ok? <==> p.count < |p.lines|
    ensures r.Fail? ==> r.fault == IndexError
    ensures r.Ok? ==> Peek(p) == Ok(r.value.0) && r.value.1 == Parser(p.lines, p.count + 1)
  {
    var line :- Peek(p);
    Ok((line, Parser(p.lines, p.count + 1)))
  }

  /** `done`: at most one line is left. */
  predicate Done(p: Parser) {
    p.count >= |p.lines| - 1
  }

  /** `_end_of_block`: the line starts with "*" or "!". */
  predicate EndOfBlock(line: string) {
    |line| > 0 && (line[0] == '*' || line[0] == '!')
  }

  /** `line[1:]`, which is "" for the empty line. */
  function DropFirst(line: string): (r: string)
    ensures |line| > 0 ==> line == [line[0]] + r
    ensures |line| == 0 ==> r == ""
  {
    if |line| == 0 then "" else line[1..]
  }

  /** One field: trimmed, stripped of NULs in the copy that does so, and
      then kept as text for "label" or read with `float()` for anything else. */
  function DecodeValue(key: string, raw: string, stripNul: bool): (c: Cell)
    ensures c.Label? <==> key == "label"
    ensures c.Label? || c.Number?
    ensures c.Label? && stripNul ==> '\0' !in c.s
  {
    var trimmed := Strings.Strip(raw);
    var value := if stripNul then Strings.RemoveChar(trimmed, '\0') else trimmed;
    if key == "label" then Label(value) else Number(Strings.ParseFloat(value))
  }

  /** In the copy that keeps NULs, a numeric field containing one is None. */
  lemma NulMakesNull(key: string, raw: string, k: int)
    requires key != "label" && 0 <= k < |raw| && raw[k] == '\0'
    ensures DecodeValue(key, raw, false) == Number(None)
  {
    Strings.StripKeeps(raw, k);
    var m :| 0 <= m < |Strings.Strip(raw)| && Strings.Strip(raw)[m] == '\0';
    Strings.NotANumeral(Strings.Strip(raw), m);
  }

  /** The per-field decoding of one copy of the reader. */
  function Decoder(stripNul: bool): (string, string) -> Cell {
    (key: string, raw: string) => DecodeValue(key, raw, stripNul)
  }

  /** The loop `for key, value in zip(attributes, fields): record[key] = ...`,
      continuing from the record built so far. */
  function Zip(attrs: seq<string>, fields: seq<string>, decode: (string, string) -> Cell, acc: Record): Record
    decreases |attrs|
  {
    if |attrs| == 0 || |fields| == 0 then acc
    else Zip(attrs[1..], fields[1..], decode, acc[attrs[0] := decode(attrs[0], fields[0])])
  }

  function Min(a: int, b: int): int {
    if a < b then a else b
  }

  /** The attribute names that have a field on the line: the first
      min(#attributes, #fields). */
  function Covered(attrs: seq<string>, fields: seq<string>): set<string> {
    set i | 0 <= i < Min(|attrs|, |fields|) :: attrs[i]
  }

  /** With distinct attribute names the loop adds exactly the covered names,
      each bound to its own field decoded, and leaves other keys alone. */
  lemma {:induction false} ZipSpec(attrs: seq<string>, fields: seq<string>, decode: (string, string) -> Cell, acc: Record)
    requires NoRepeats(attrs)
    ensures Zip(attrs, fields, decode, acc).Keys == acc.Keys + Covered(attrs, fields)
    ensures forall i :: 0 <= i < Min(|attrs|, |fields|) ==>
      Zip(attrs, fields, decode, acc)[attrs[i]] == decode(attrs[i], fields[i])
    ensures forall k :: k in acc && k !in Covered(attrs, fields) ==> Zip(attrs, fields, decode, acc)[k] == acc[k]
  {
    if |attrs| > 0 && |fields| > 0 {
      var acc' := acc[attrs[0] := decode(attrs[0], fields[0])];
      assert NoRepeats(attrs[1..]) by {
        assert forall i :: 1 <= i < |attrs| ==> attrs[1..][i - 1] == attrs[i];
      }
      ZipSpec(attrs[1..], fields[1..], decode, acc');
      var r := Zip(attrs, fields, decode, acc);
      assert r == Zip(attrs[1..], fields[1..], decode, acc');
      CoveredCons(attrs, fields);
      FirstNotCovered(attrs, fields);
      forall i | 0 < i < Min(|attrs|, |fields|) ensures r[attrs[i]] == decode(attrs[i], fields[i]) {
        assert attrs[1..][i - 1] == attrs[i] && fields[1..][i - 1] == fields[i];
      }
    }
  }

  lemma CoveredCons(attrs: seq<string>, fields: seq<string>)
    requires |attrs| > 0 && |fields| > 0
    ensures Covered(attrs, fields) == {attrs[0]} + Covered(attrs[1..], fields[1..])
  {
    forall k | k in Covered(attrs, fields) ensures k == attrs[0] || k in Covered(attrs[1..], fields[1..]) {
      var i :| 0 <= i < Min(|attrs|, |fields|) && attrs[i] == k;
      if i > 0 {
        assert attrs[1..][i - 1] == k;
      }
    }
    forall k | k in Covered(attrs[1..], fields[1..]) ensures k in Covered(attrs, fields) {
      var i :| 0 <= i < Min(|attrs| - 1, |fields| - 1) && attrs[1..][i] == k;
      assert attrs[i + 1] == k;
    }
  }

  /** Whatever the attribute names, the loop adds exactly the covered names
      as keys. */
  lemma {:induction false} ZipKeys(attrs: seq<string>, fields: seq<string>, decode: (string, string) -> Cell, acc: Record)
    ensures Zip(attrs, fields, decode, acc).Keys == acc.Keys + Covered(attrs, fields)
    decreases |attrs|
  {
    if |attrs| > 0 && |fields| > 0 {
      ZipKeys(attrs[1..], fields[1..], decode, acc[attrs[0] := decode(attrs[0], fields[0])]);
      CoveredCons(attrs, fields);
    }
  }

  lemma FirstNotCovered(attrs: seq<string>, fields: seq<string>)
    requires |attrs| > 0 && |fields| > 0 && NoRepeats(attrs)
    ensures attrs[0] !in Covered(attrs[1..], fields[1..])
  {
    forall i | 0 <= i < Min(|attrs| - 1, |fields| - 1) ensures attrs[1..][i] != attrs[0] {
      assert attrs[1..][i] == attrs[i + 1];
    }
  }

  /** A record line: its first character dropped, the rest split on ",", and
      the pieces decoded against the attributes. */
  function DecodeLine(attrs: seq<string>, line: string, stripNul: bool): Record {
    Zip(attrs, Strings.Split(DropFirst(line), ","), Decoder(stripNul), map[])
  }

  /** With distinct attribute names a record holds exactly the attributes
      that have a field, the first min(#attributes, #fields), each bound to its
      own field: extra fields are dropped and missing ones leave their
      attributes out. */
  lemma DecodeLineSpec(attrs: seq<string>, line: string, stripNul: bool)
    requires NoRepeats(attrs)
    ensures var fields := Strings.Split(DropFirst(line), ",");
      DecodeLine(attrs, line, stripNul).Keys == Covered(attrs, fields) &&
      forall i :: 0 <= i < Min(|attrs|, |fields|) ==>
        DecodeLine(attrs, line, stripNul)[attrs[i]] == DecodeValue(attrs[i], fields[i], stripNul)
  {
    ZipSpec(attrs, Strings.Split(DropFirst(line), ","), Decoder(stripNul), map[]);
  }

  /** Repeated attribute names or not, a record holds exactly the attributes
      that have a field on its line, and so no key outside the attributes. */
  lemma DecodeLineKeys(attrs: seq<string>, line: string, stripNul: bool)
    ensures DecodeLine(attrs, line, stripNul).Keys == Covered(attrs, Strings.Split(DropFirst(line), ","))
    ensures forall k :: k in DecodeLine(attrs, line, stripNul) ==> k in attrs
  {
    ZipKeys(attrs, Strings.Split(DropFirst(line), ","), Decoder(stripNul), map[]);
  }

  /** `advance_block`: decode lines until one starts with "*" or "!"; that
      line is left for the caller. */
  function AdvanceBlock(p: Parser, attrs: seq<string>, stripNul: bool): Result<(seq<Record>, Parser)>
    decreases |p.lines| - p.count
  {
    var line :- Peek(p);
    if EndOfBlock(line) then Ok(([], p))
    else
      var (raw, q) :- Advance(p);
      var (records, r) :- AdvanceBlock(q, attrs, stripNul);
      Ok(([DecodeLine(attrs, raw, stripNul)] + records, r))
  }

  /** The first terminator line at or after `from`, or |lines| if none. */
  function NextTerminator(lines: seq<string>, from: nat): (j: nat)
    requires from <= |lines|
    ensures from <= j <= |lines|
    ensures forall k :: from <= k < j ==> !EndOfBlock(lines[k])
    ensures j < |lines| ==> EndOfBlock(lines[j])
    decreases |lines| - from
  {
    if from == |lines| || EndOfBlock(lines[from]) then from else NextTerminator(lines, from + 1)
  }

  /** The record decoding of one copy of the reader, line by line. */
  function LineDecoder(attrs: seq<string>, stripNul: bool): string -> Record {
    (line: string) => DecodeLine(attrs, line, stripNul)
  }

  /** The lines [from, to), each decoded, in order. */
  function Block(lines: seq<string>, from: nat, to: nat, decode: string -> Record): (b: seq<Record>)
    requires from <= to <= |lines|
    ensures |b| == to - from
    ensures forall i :: 0 <= i < |b| ==> b[i] == decode(lines[from + i])
  {
    seq(to - from, i requires 0 <= i < to - from => decode(lines[from + i]))
  }

  /** The record at `m` of a decoded block is its line, decoded. */
  lemma BlockAt(lines: seq<string>, from: nat, to: nat, attrs: seq<string>, stripNul: bool, m: nat)
    requires from <= to <= |lines| && m < to - from
    ensures Block(lines, from, to, LineDecoder(attrs, stripNul))[m] == DecodeLine(attrs, lines[from + m], stripNul)
  {
    var dec := LineDecoder(attrs, stripNul);
    assert Block(lines, from, to, dec)[m] == dec(lines[from + m]);
  }

  lemma BlockCons(lines: seq<string>, from: nat, to: nat, decode: string -> Record)
    requires from < to <= |lines|
    ensures Block(lines, from, to, decode) == [decode(lines[from])] + Block(lines, from + 1, to, decode)
  {
  }

  /** The block reader succeeds exactly when a terminator follows the cursor.
      It then returns one record per line before the terminator, in order,
      and leaves the cursor on the terminator; otherwise it runs off the end
      of the file. */
  lemma {:induction false} AdvanceBlockSpec(p: Parser, attrs: seq<string>, stripNul: bool)
    ensures AdvanceBlock(p, attrs, stripNul).Ok? <==>
      p.count <= |p.lines| && NextTerminator(p.lines, p.count) < |p.lines|
    ensures AdvanceBlock(p, attrs, stripNul).Fail? ==> AdvanceBlock(p, attrs, stripNul).fault == IndexError
    ensures AdvanceBlock(p, attrs, stripNul).Ok? ==>
      var j := NextTerminator(p.lines, p.count);
      AdvanceBlock(p, attrs, stripNul).value == (Block(p.lines, p.count, j, LineDecoder(attrs, stripNul)), Parser(p.lines, j))
    decreases |p.lines| - p.count
  {
    if p.count < |p.lines| && !EndOfBlock(p.lines[p.count]) {
      var q := Parser(p.lines, p.count + 1);
      AdvanceBlockSpec(q, attrs, stripNul);
      AdvanceBlockStep(p, attrs, stripNul);
      var j := NextTerminator(p.lines, p.count);
      assert j == NextTerminator(p.lines, q.count);
      if AdvanceBlock(q, attrs, stripNul).Ok? {
        BlockCons(p.lines, p.count, j, LineDecoder(attrs, stripNul));
      }
    }
  }

  /** One turn of the block loop over a record line. */
  lemma AdvanceBlockStep(p: Parser, attrs: seq<string>, stripNul: bool)
    requires p.count < |p.lines| && !EndOfBlock(p.lines[p.count])
    ensures var rest := AdvanceBlock(Parser(p.lines, p.count + 1), attrs, stripNul);
      AdvanceBlock(p, attrs, stripNul) ==
        if rest.Ok? then Ok(([LineDecoder(attrs, stripNul)(p.lines[p.count])] + rest.value.0, rest.value.1))
        else rest
  {
  }

  /** A terminator under the cursor gives an empty block and consumes nothing. */
  lemma EmptyBlock(p: Parser, attrs: seq<string>, stripNul: bool)
    requires p.count < |p.lines| && EndOfBlock(p.lines[p.count])
    ensures AdvanceBlock(p, attrs, stripNul) == Ok(([], p))
  {
  }

  /** The two copies of the reader disagree on a numeric field holding a NUL:
      " 1\0" reads as 1.0 in the copy that removes NULs and as None in the other. */
  lemma NulCopiesDisagree()
    ensures DecodeValue("Q", " 1\0", true) == Number(Some(1.0))
    ensures DecodeValue("Q", " 1\0", false) == Number(None)
  {
    NulRemoved();
    NulMakesNull("Q", " 1\0", 2);
  }

  lemma NulRemoved()
    ensures DecodeValue("Q", " 1\0", true) == Number(Some(1.0))
  {
    assert Strings.Strip(" 1\0") == "1\0";
    assert Strings.RemoveChar("1\0", '\0') == "1";
    assert Strings.Split("1", ".") == ["1"];
  }
}
