/** The per-value validation rules of core/schemata.py: constraints
    (StrictlyPositive, Positive, Membership) wrapped in a Required or Optional
    container that decides what happens to a null value. */
module Schemata {
  import opened Wrappers
  import opened Values

  /** Validation messages; each constructor stands for one message template. */
  datatype Msg =
    | ValueRequired                       // "a value is required."
    | NotPositive(v: Value)               // "Number is not positive (>=0): {data}"
    | NotStrictlyPositive(v: Value)       // "Number is not strictly positive (>0): {data}"
    | NotOneRow(n: nat)                   // "Table must contain one row, found {nrow} rows."
    | NotSingleRow(n: nat)                // "Table must contain a single row. Table contains {nrow} rows."
    | MissingColumns(cols: set<string>)   // "Table is missing columns: {columns}. Remove and recreate the layer."

  datatype Constraint =
    | StrictlyPositive
    | Positive
    | Membership(members: set<string>)

  /** A field's rule: a container of constraints, or (as one schema table
      writes it) the `Optional` class itself in place of an instance. */
  datatype Container =
    | Optional(cs: seq<Constraint>)
    | Required(cs: seq<Constraint>)
    | OptionalClass

  predicate IsNumber(v: Value) { v.Num? || v.Int? }

  /** The number a numeric value stands for. */
  function AsReal(v: Value): real
    requires IsNumber(v)
  {
    if v.Num? then v.r else v.i as real
  }

  /** One constraint applied to one value: None when it passes, the message
      when it fails; Python's exceptions where the comparison or the message
      itself raises. */
  function Check(c: Constraint, v: Value): (r: Result<Option<Msg>>)
    ensures c == StrictlyPositive ==>
      (r.Ok? <==> IsNumber(v)) && (r.Ok? ==> (r.value.Some? <==> AsReal(v) <= 0.0))
    ensures c == Positive ==>
      (r.Ok? <==> IsNumber(v)) && (r.Ok? ==> (r.value.Some? <==> AsReal(v) < 0.0))
    ensures c.Membership? ==>
      (r == Ok(None) <==> v == Null || (v.Str? && v.s in c.members))
    ensures c.Membership? && r != Ok(None) ==> r.Fail?
  {
    match c
    case StrictlyPositive =>
      if !IsNumber(v) then Fail(TypeError)
      else if AsReal(v) <= 0.0 then Ok(Some(NotStrictlyPositive(v))) else Ok(None)
    case Positive =>
      if !IsNumber(v) then Fail(TypeError)
      else if AsReal(v) < 0.0 then Ok(Some(NotPositive(v))) else Ok(None)
    case Membership(members) =>
      if v == Null then Ok(None)
      else if v.Str? && v.s in members then Ok(None)
      // a list is unhashable; any other non-member reaches the message,
      // which reads the never-assigned attribute `members_key`
      else if v.XY? then Fail(TypeError)
      else Fail(AttributeError("members_key"))
  }

  /** What one check gave: no message, a message, or the exception. */
  type Outcome = Result<Option<Msg>>

  /** The loop shared by `_validate_schemata` and `validate_many`: the first
      exception aborts it, otherwise every message is kept, in order. */
  function Gather(outs: seq<Outcome>): (r: Result<seq<Msg>>)
  {
    if |outs| == 0 then Ok([])
    else
      var first :- outs[0];
      var rest :- Gather(outs[1..]);
      Ok(Contribution(outs[0]) + rest)
  }

  /** The loop succeeds exactly when no check raised, keeps at most one
      message per check, and keeps none exactly when every check passed. */
  lemma {:induction false} GatherSpec(outs: seq<Outcome>)
    ensures Gather(outs).Ok? <==> forall i :: 0 <= i < |outs| ==> outs[i].Ok?
    ensures Gather(outs).Ok? ==> |Gather(outs).value| <= |outs|
    ensures Gather(outs).Ok? ==> (Gather(outs).value == [] <==> forall i :: 0 <= i < |outs| ==> outs[i] == Ok(None))
  {
    if |outs| > 0 {
      GatherSpec(outs[1..]);
      assert forall i :: 1 <= i < |outs| ==> outs[1..][i - 1] == outs[i];
    }
  }

  /** The message an outcome contributes: none, or the one it carries. */
  function Contribution(o: Outcome): seq<Msg>
    requires o.Ok?
  {
    if o.value.Some? then [o.value.value] else []
  }

  /** One step of the loop: the first outcome's message, then the rest. */
  lemma GatherCons(o: Outcome, rest: seq<Outcome>)
    requires o.Ok? && Gather(rest).Ok?
    ensures Gather([o] + rest) == Ok(Contribution(o) + Gather(rest).value)
  {
    assert ([o] + rest)[1..] == rest;
  }

  /** No short-circuit: the messages of a concatenation are those of its
      first part followed by those of the second. */
  lemma {:induction false} GatherAppend(o1: seq<Outcome>, o2: seq<Outcome>)
    requires Gather(o1).Ok? && Gather(o2).Ok?
    ensures Gather(o1 + o2) == Ok(Gather(o1).value + Gather(o2).value)
  {
    if |o1| == 0 {
      assert o1 + o2 == o2;
      assert [] + Gather(o2).value == Gather(o2).value;
    } else {
      var tail := o1[1..];
      assert o1 == [o1[0]] + tail;
      assert o1 + o2 == [o1[0]] + (tail + o2);
      GatherCons(o1[0], tail);
      GatherAppend(tail, o2);
      GatherCons(o1[0], tail + o2);
      var front := Contribution(o1[0]);
      assert front + (Gather(tail).value + Gather(o2).value)
          == (front + Gather(tail).value) + Gather(o2).value;
    }
  }

  /** Every constraint of a list applied to one value. */
  function ChecksOf(cs: seq<Constraint>, v: Value): (outs: seq<Outcome>)
    ensures |outs| == |cs|
    ensures forall i :: 0 <= i < |cs| ==> outs[i] == Check(cs[i], v)
  {
    if |cs| == 0 then [] else [Check(cs[0], v)] + ChecksOf(cs[1..], v)
  }

  lemma {:induction false} ChecksOfAppend(cs1: seq<Constraint>, cs2: seq<Constraint>, v: Value)
    ensures ChecksOf(cs1 + cs2, v) == ChecksOf(cs1, v) + ChecksOf(cs2, v)
  {
    if |cs1| == 0 {
      assert cs1 + cs2 == cs2;
    } else {
      assert (cs1 + cs2)[1..] == cs1[1..] + cs2;
      ChecksOfAppend(cs1[1..], cs2, v);
    }
  }

  /** SchemaContainer._validate_schemata: every constraint is applied, in
      declaration order, and each failure contributes its message. */
  function CheckAll(cs: seq<Constraint>, v: Value): (r: Result<seq<Msg>>)
    ensures r.Ok? ==> |r.value| <= |cs|
    ensures r.Ok? ==> (r.value == [] <==> forall i :: 0 <= i < |cs| ==> Check(cs[i], v) == Ok(None))
    ensures r.Ok? <==> forall i :: 0 <= i < |cs| ==> Check(cs[i], v).Ok?
  {
    GatherSpec(ChecksOf(cs, v));
    Gather(ChecksOf(cs, v))
  }

  /** The messages of a concatenated constraint list are those of its
      first part followed by those of the second. */
  lemma CheckAllAppend(cs1: seq<Constraint>, cs2: seq<Constraint>, v: Value)
    requires CheckAll(cs1, v).Ok? && CheckAll(cs2, v).Ok?
    ensures CheckAll(cs1 + cs2, v) == Ok(CheckAll(cs1, v).value + CheckAll(cs2, v).value)
  {
    ChecksOfAppend(cs1, cs2, v);
    GatherAppend(ChecksOf(cs1, v), ChecksOf(cs2, v));
  }

  /** Optional/Required.validate. */
  function Validate(ct: Container, v: Value): (r: Result<seq<Msg>>)
    ensures ct.Required? && v == Null ==> r == Ok([ValueRequired])
    ensures ct.Optional? && v == Null ==> r == Ok([])
    ensures ct.OptionalClass? ==> r.Fail?
    ensures !ct.OptionalClass? && v != Null ==> r == CheckAll(ct.cs, v)
  {
    match ct
    case Optional(cs) => if v == Null then Ok([]) else CheckAll(cs, v)
    case Required(cs) => if v == Null then Ok([ValueRequired]) else CheckAll(cs, v)
    // the unbound `validate` of the class is called with the value as `self`
    // and no `data` argument
    case OptionalClass => Fail(TypeError)
  }

  /** Required(StrictlyPositive()): zero and negatives fail, null gets the
      required message and positives pass; Optional(...) passes null. */
  lemma RequiredStrictlyPositive(x: real)
    ensures Validate(Required([StrictlyPositive]), Null) == Ok([ValueRequired])
    ensures Validate(Optional([StrictlyPositive]), Null) == Ok([])
    ensures x <= 0.0 ==> Validate(Required([StrictlyPositive]), Num(x)) == Ok([NotStrictlyPositive(Num(x))])
    ensures x > 0.0 ==> Validate(Required([StrictlyPositive]), Num(x)) == Ok([])
    ensures Validate(Required([Positive]), Num(0.0)) == Ok([])
  {
    assert [StrictlyPositive][1..] == [];
    assert [Positive][1..] == [];
    assert CheckAll([], Num(x)) == Ok([]);
    assert CheckAll([], Num(0.0)) == Ok([]);
    assert Check(StrictlyPositive, Num(x)) == Ok(if x <= 0.0 then Some(NotStrictlyPositive(Num(x))) else None);
    assert [NotStrictlyPositive(Num(x))] + [] == [NotStrictlyPositive(Num(x))];
  }

  /** One constraint applied to each of many values. */
  function ChecksOn(c: Constraint, vs: seq<Value>): (outs: seq<Outcome>)
    ensures |outs| == |vs|
    ensures forall i :: 0 <= i < |vs| ==> outs[i] == Check(c, vs[i])
  {
    if |vs| == 0 then [] else [Check(c, vs[0])] + ChecksOn(c, vs[1..])
  }

  lemma {:induction false} ChecksOnAppend(c: Constraint, vs1: seq<Value>, vs2: seq<Value>)
    ensures ChecksOn(c, vs1 + vs2) == ChecksOn(c, vs1) + ChecksOn(c, vs2)
  {
    if |vs1| == 0 {
      assert vs1 + vs2 == vs2;
    } else {
      assert (vs1 + vs2)[1..] == vs1[1..] + vs2;
      ChecksOnAppend(c, vs1[1..], vs2);
    }
  }

  /** BaseSchema.validate_many: one constraint over many values, keeping the
      non-null results in input order. */
  function CheckMany(c: Constraint, vs: seq<Value>): (r: Result<seq<Msg>>)
    ensures r.Ok? ==> |r.value| <= |vs|
    ensures r.Ok? <==> forall i :: 0 <= i < |vs| ==> Check(c, vs[i]).Ok?
    ensures r.Ok? ==> (r.value == [] <==> forall i :: 0 <= i < |vs| ==> Check(c, vs[i]) == Ok(None))
  {
    GatherSpec(ChecksOn(c, vs));
    Gather(ChecksOn(c, vs))
  }

  /** The errors of validate_many come in input order: those of a prefix come first. */
  lemma CheckManyAppend(c: Constraint, vs1: seq<Value>, vs2: seq<Value>)
    requires CheckMany(c, vs1).Ok? && CheckMany(c, vs2).Ok?
    ensures CheckMany(c, vs1 + vs2) == Ok(CheckMany(c, vs1).value + CheckMany(c, vs2).value)
  {
    ChecksOnAppend(c, vs1, vs2);
    GatherAppend(ChecksOn(c, vs1), ChecksOn(c, vs2));
  }

  /** SingleRow.validate: a message exactly when the collection does not have one element. */
  function SingleRowCheck(nrow: nat): (r: Option<Msg>)
    ensures r.None? <==> nrow == 1
    ensures r.Some? ==> r.value == NotOneRow(nrow)
  {
    if nrow != 1 then Some(NotOneRow(nrow)) else None
  }
}
