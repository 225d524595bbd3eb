/** The table validators of core/elements/schemata.py: a schema maps field
    names to rules and validates the rows of a layer, either row by row or
    after insisting on exactly one row, collecting every failure. */
module TableSchema {
  import opened Wrappers
  import opened Values
  import opened Schemata
  import Strings

  /** The `schemata` dict of a schema class: field name to rule, in order. */
  type Rules = seq<(string, Container)>

  datatype Mode = RowWise | SingleRow

  datatype Schema = Schema(mode: Mode, rules: Rules)

  /** A value of the error dict: a message list, or (for a row) field to messages. */
  datatype ErrorValue = Msgs(msgs: seq<Msg>) | FieldMsgs(fields: Dict<seq<Msg>>)

  type ErrorMap = Dict<ErrorValue>

  /** The key under which the errors of the row at 0-based index `i` are reported. */
  function RowKey(i: nat): string {
    "Row " + Strings.NatToString(i + 1) + ":"
  }

  lemma RowKeyInjective(i: nat, j: nat)
    requires i != j
    ensures RowKey(i) != RowKey(j)
  {
    var a := Strings.NatToString(i + 1);
    var b := Strings.NatToString(j + 1);
    if RowKey(i) == RowKey(j) {
      assert |a| == |b|;
      assert a == RowKey(i)[4..4 + |a|];
      assert b == RowKey(j)[4..4 + |b|];
      Strings.NatToStringInjective(i + 1, j + 1);
    }
  }

  /** The field `name` of `row` exists and its rule does not raise. */
  predicate FieldChecks(row: Row, rule: (string, Container)) {
    rule.0 in row && Validate(rule.1, row[rule.0]).Ok?
  }

  /** The field exists and its rule passes without a message. */
  predicate FieldPasses(row: Row, rule: (string, Container)) {
    rule.0 in row && Validate(rule.1, row[rule.0]) == Ok([])
  }

  /** The checks of one row: every rule's field is looked up and validated;
      fields with messages are reported, in rule order. */
  function ValidateRow(rules: Rules, row: Row): (r: Result<Dict<seq<Msg>>>)
    ensures r.Ok? <==> forall i :: 0 <= i < |rules| ==> FieldChecks(row, rules[i])
    ensures r.Ok? ==> |r.value| <= |rules|
    ensures r.Ok? ==> (r.value == [] <==> forall i :: 0 <= i < |rules| ==> FieldPasses(row, rules[i]))
  {
    if |rules| == 0 then Ok([])
    else
      var name := rules[0].0;
      var v :- Lookup(row, name);
      var errs :- Validate(rules[0].1, v);
      var rest :- ValidateRow(rules[1..], row);
      assert forall i :: 1 <= i < |rules| ==> rules[1..][i - 1] == rules[i];
      Ok((if errs != [] then [(name, errs)] else []) + rest)
  }

  /** What the checks of one row gave: its field messages, or the exception. */
  type RowOutcome = Result<Dict<seq<Msg>>>

  /** The outcome of every row, in row order. */
  function RowOutcomes(rules: Rules, rows: seq<Row>): (outs: seq<RowOutcome>)
    ensures |outs| == |rows|
    ensures forall i :: 0 <= i < |rows| ==> outs[i] == ValidateRow(rules, rows[i])
  {
    if |rows| == 0 then [] else [ValidateRow(rules, rows[0])] + RowOutcomes(rules, rows[1..])
  }

  /** The loop of RowWiseSchema._validate from row `start` on: the first
      exception aborts; a row with messages is reported under "Row i:". */
  function ReportRows(outs: seq<RowOutcome>, start: nat): (r: Result<ErrorMap>)
    requires start <= |outs|
    ensures r.Ok? <==> forall i :: start <= i < |outs| ==> outs[i].Ok?
    ensures r.Ok? ==> |r.value| <= |outs| - start
    ensures r.Ok? ==> (r.value == [] <==> forall i :: start <= i < |outs| ==> outs[i] == Ok([]))
    decreases |outs| - start
  {
    if start == |outs| then Ok([])
    else
      var errs :- outs[start];
      var rest :- ReportRows(outs, start + 1);
      Ok((if errs != [] then [(RowKey(start), FieldMsgs(errs))] else []) + rest)
  }

  /** RowWiseSchema._validate. */
  function ValidateRows(rules: Rules, rows: seq<Row>): (r: Result<ErrorMap>)
    ensures r.Ok? <==> forall i :: 0 <= i < |rows| ==> ValidateRow(rules, rows[i]).Ok?
    ensures r.Ok? ==> |r.value| <= |rows|
    ensures r.Ok? ==> (r.value == [] <==> forall i :: 0 <= i < |rows| ==> ValidateRow(rules, rows[i]) == Ok([]))
  {
    ReportRows(RowOutcomes(rules, rows), 0)
  }

  /** An entry for one row does not answer a lookup of another row. */
  lemma GetOtherRow(j: nat, i: nat, errs: Dict<seq<Msg>>, rest: ErrorMap)
    requires i != j
    ensures Get([(RowKey(j), FieldMsgs(errs))] + rest, RowKey(i)) == Get(rest, RowKey(i))
  {
    RowKeyInjective(j, i);
    GetCons((RowKey(j), FieldMsgs(errs)), rest, RowKey(i));
  }

  /** No row before `start` has a key in the report of the rows from `start` on. */
  lemma {:induction false} EarlierRowsAbsent(outs: seq<RowOutcome>, start: nat, i: nat)
    requires i < start <= |outs|
    requires ReportRows(outs, start).Ok?
    ensures Get(ReportRows(outs, start).value, RowKey(i)) == None
    decreases |outs| - start
  {
    if start < |outs| {
      var errs := outs[start].value;
      var rest := ReportRows(outs, start + 1).value;
      EarlierRowsAbsent(outs, start + 1, i);
      if errs != [] {
        assert ReportRows(outs, start).value == [(RowKey(start), FieldMsgs(errs))] + rest;
        GetOtherRow(start, i, errs, rest);
      } else {
        assert ReportRows(outs, start).value == rest;
      }
    }
  }

  /** Every row with messages is reported under its own "Row i:" key, and a
      row without messages has no entry. */
  lemma {:induction false} RowReported(outs: seq<RowOutcome>, start: nat, i: nat)
    requires start <= i < |outs|
    requires ReportRows(outs, start).Ok?
    ensures outs[i].Ok?
    ensures Get(ReportRows(outs, start).value, RowKey(i)) ==
      if outs[i].value == [] then None else Some(FieldMsgs(outs[i].value))
    decreases |outs| - start
  {
    var errs := outs[start].value;
    var rest := ReportRows(outs, start + 1).value;
    var e := (RowKey(start), FieldMsgs(errs));
    assert ReportRows(outs, start).value == if errs != [] then [e] + rest else rest;
    if i == start {
      if errs == [] {
        EarlierRowsAbsent(outs, start + 1, i);
      } else {
        GetCons(e, rest, RowKey(i));
      }
    } else {
      RowReported(outs, start + 1, i);
      if errs != [] {
        GetOtherRow(start, i, errs, rest);
      }
    }
  }

  /** The row-wise report holds, under "Row i+1:", exactly the messages of
      each row at index i that has any. */
  lemma RowErrorsReported(rules: Rules, rows: seq<Row>, i: nat)
    requires i < |rows|
    requires ValidateRows(rules, rows).Ok?
    ensures ValidateRow(rules, rows[i]).Ok?
    ensures var errs := ValidateRow(rules, rows[i]).value;
      Get(ValidateRows(rules, rows).value, RowKey(i)) == if errs == [] then None else Some(FieldMsgs(errs))
  {
    RowReported(RowOutcomes(rules, rows), 0, i);
  }

  /** SingleRowSchema._validate: a table-level message unless there is exactly one row. */
  function ValidateSingleRow(name: string, rules: Rules, rows: seq<Row>): Result<ErrorMap> {
    if |rows| != 1 then Ok([(name, Msgs([NotSingleRow(|rows|)]))])
    else ValidateRows(rules, rows)
  }

  /** The methods the table schema classes define: SchemaBase,
      RowWiseSchema and SingleRowSchema. */
  const SchemaMethods: set<string> := {"_validate_table", "validate_timeseries", "validate", "_validate"}

  /** Looking a method up on a schema class: AttributeError unless one of
      the classes defines it. */
  function SchemaMethod(name: string): (r: Result<string>)
    ensures r.Ok? <==> name in SchemaMethods
    ensures r.Ok? ==> r.value == name
    ensures r.Fail? ==> r.fault == AttributeError(name)
  {
    if name in SchemaMethods then Ok(name) else Fail(AttributeError(name))
  }

  /** SchemaBase.validate: dispatch on the schema's class. */
  function ValidateSchema(s: Schema, name: string, rows: seq<Row>): Result<ErrorMap> {
    match s.mode
    case RowWise => ValidateRows(s.rules, rows)
    case SingleRow => ValidateSingleRow(name, s.rules, rows)
  }

  /** A schema reports nothing exactly when the table has the number of rows
      the schema asks for and every field of every row passes its rule. It
      raises exactly when it checks the rows and some field is absent or its
      rule raises. A single-row schema on any other number of rows reports
      that number under the layer's name and checks nothing else. */
  lemma ValidateSchemaSpec(s: Schema, name: string, rows: seq<Row>)
    ensures ValidateSchema(s, name, rows) == Ok([]) <==>
      (s.mode == SingleRow ==> |rows| == 1) &&
      forall i, j :: 0 <= i < |rows| && 0 <= j < |s.rules| ==> FieldPasses(rows[i], s.rules[j])
    ensures ValidateSchema(s, name, rows).Fail? <==>
      (s.mode == RowWise || |rows| == 1) &&
      exists i, j :: 0 <= i < |rows| && 0 <= j < |s.rules| && !FieldChecks(rows[i], s.rules[j])
    ensures s.mode == SingleRow && |rows| != 1 ==>
      ValidateSchema(s, name, rows) == Ok([(name, Msgs([NotSingleRow(|rows|)]))])
  {
    if s.mode == RowWise || |rows| == 1 {
      assert ValidateSchema(s, name, rows) == ValidateRows(s.rules, rows);
    }
  }

  /** With exactly one row a single-row schema behaves as a row-wise one. */
  lemma SingleRowIsRowWise(rules: Rules, name: string, row: Row)
    ensures ValidateSchema(Schema(SingleRow, rules), name, [row]) == ValidateSchema(Schema(RowWise, rules), name, [row])
  {
  }

  /** SchemaBase._validate_table: whole-table validation, keyed "{name} {field}". */
  function ValidateTable(name: string, rules: Rules, data: Row): (r: Result<ErrorMap>)
    ensures r.Ok? <==> forall i :: 0 <= i < |rules| ==>
      rules[i].0 in data && Validate(rules[i].1, data[rules[i].0]).Ok?
  {
    if |rules| == 0 then Ok([])
    else
      var field := rules[0].0;
      var v :- Lookup(data, field);
      var errs :- Validate(rules[0].1, v);
      var rest :- ValidateTable(name, rules[1..], data);
      assert forall i :: 1 <= i < |rules| ==> rules[1..][i - 1] == rules[i];
      var front := if errs != [] then [(name + " " + field, Msgs(errs))] else [];
      Ok(front + rest)
  }

  /** The entry whole-table validation makes for a field whose messages are not empty. */
  ghost predicate TableEntry(name: string, rules: Rules, data: Row, e: (string, ErrorValue)) {
    exists i :: 0 <= i < |rules| && rules[i].0 in data && (
      var msgs := Validate(rules[i].1, data[rules[i].0]);
      msgs.Ok? && msgs.value != [] && e == (name + " " + rules[i].0, Msgs(msgs.value)))
  }

  /** One step of whole-table validation: the first field's entry, if any, then the rest. */
  lemma ValidateTableStep(name: string, rules: Rules, data: Row)
    requires |rules| > 0 && ValidateTable(name, rules, data).Ok?
    ensures rules[0].0 in data && Validate(rules[0].1, data[rules[0].0]).Ok?
    ensures ValidateTable(name, rules[1..], data).Ok?
    ensures var errs := Validate(rules[0].1, data[rules[0].0]).value;
      ValidateTable(name, rules, data).value ==
        (if errs != [] then [(name + " " + rules[0].0, Msgs(errs))] else []) +
        ValidateTable(name, rules[1..], data).value
  {
  }

  /** Every entry of a successful whole-table validation is the non-empty
      message list of one field, keyed by the layer name and the field. */
  lemma {:induction false} ValidateTableEntries(name: string, rules: Rules, data: Row)
    requires ValidateTable(name, rules, data).Ok?
    ensures forall k :: 0 <= k < |ValidateTable(name, rules, data).value| ==>
      TableEntry(name, rules, data, ValidateTable(name, rules, data).value[k])
  {
    if |rules| > 0 {
      ValidateTableStep(name, rules, data);
      ValidateTableEntries(name, rules[1..], data);
      var errs := Validate(rules[0].1, data[rules[0].0]).value;
      var rest := ValidateTable(name, rules[1..], data).value;
      var front := if errs != [] then [(name + " " + rules[0].0, Msgs(errs))] else [];
      var r := ValidateTable(name, rules, data).value;
      forall k | 0 <= k < |r|
        ensures TableEntry(name, rules, data, r[k])
      {
        if k < |front| {
          assert r[k] == front[0];
        } else {
          assert r[k] == rest[k - |front|];
          assert TableEntry(name, rules[1..], data, rest[k - |front|]);
          var i :| 0 <= i < |rules[1..]| && rules[1..][i].0 in data && (
            var msgs := Validate(rules[1..][i].1, data[rules[1..][i].0]);
            msgs.Ok? && msgs.value != [] && rest[k - |front|] == (name + " " + rules[1..][i].0, Msgs(msgs.value)));
          assert rules[1..][i] == rules[i + 1];
        }
      }
    }
  }
}
