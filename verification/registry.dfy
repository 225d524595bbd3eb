/** Layer names and loading, from core/elements/__init__.py: a GeoPackage
    layer "gflow <Type>:<Name>" names one element, `parse_name` recovers the
    type and the name, and loading creates one element per distinct pair,
    grouped by type. The list of layer names is an input here. */
module Registry {
  import opened Wrappers
  import opened Values
  import opened Catalog
  import opened Elements
  import Strings

  const Prefix: string := "gflow "

  /** parse_name: `prefix, name = layername.split(":")` fails to unpack unless
      there are exactly two pieces; `re.split("gflow ", prefix)[1]` is the
      text after the first "gflow " (up to a second one, if any). */
  function ParseName(layername: string): (r: Result<(string, string)>)
    ensures r.Ok? ==> |Strings.Split(layername, ":")| == 2
  {
    var parts := Strings.Split(layername, ":");
    if |parts| != 2 then Fail(ValueError)
    else
      var pieces := Strings.Split(parts[0], Prefix);
      if |pieces| < 2 then Fail(IndexError)
      else Ok((pieces[1], parts[1]))
  }

  /** A string without the first character of a separator has no occurrence of it. */
  lemma NoFirstCharNoOccurrence(t: string, sep: string)
    requires |sep| > 0 && sep[0] !in t
    ensures !Strings.Occurs(t, sep)
  {
  }

  /** Splitting a string without the separator's character gives the string itself. */
  lemma SplitWhole(t: string, c: char)
    requires c !in t
    ensures Strings.Split(t, [c]) == [t]
  {
    NoFirstCharNoOccurrence(t, [c]);
    Strings.SplitNoOccurrence(t, [c]);
  }

  /** The round trip of the layer-name grammar: "gflow T:N" parses back to
      (T, N) when neither part contains ":" and T contains no "gflow ". */
  lemma {:induction false} ParseNameRoundTrip(t: string, n: string)
    requires ':' !in t && ':' !in n && !Strings.Occurs(t, Prefix)
    ensures ParseName(Prefix + t + ":" + n) == Ok((t, n))
  {
    var head := Prefix + t;
    assert ':' !in Prefix;
    assert ':' !in head;
    assert Prefix + t + ":" + n == head + ":" + n;
    forall k | 0 <= k < |head| ensures !Strings.IsAt(head + ":" + n, ":", k) {
      assert (head + ":" + n)[k] == head[k];
      assert (head + ":" + n)[k..k + 1][0] == head[k];
    }
    Strings.SplitAtFirst(head, ":", n);
    SplitWhole(n, ':');
    assert Strings.Split(head + ":" + n, ":") == [head, n];
    assert head == "" + Prefix + t;
    Strings.SplitAtFirst("", Prefix, t);
    Strings.SplitNoOccurrence(t, Prefix);
  }

  /** Every element's own layer name parses back to its type and name. */
  lemma GflowNameParses(c: ElementClass, name: string)
    requires ':' !in ElementType(c) && !Strings.Occurs(ElementType(c), Prefix)
    requires ':' !in name
    ensures c != Aquifer && c != Domain ==> ParseName(GflowName(c, name)) == Ok((ElementType(c), name))
    ensures c == Aquifer || c == Domain ==> ParseName(GflowName(c, name)) == Ok((ElementType(c), ElementType(c)))
  {
    var shown := if c == Aquifer || c == Domain then ElementType(c) else name;
    assert GflowName(c, name) == Prefix + ElementType(c) + ":" + shown;
    ParseNameRoundTrip(ElementType(c), shown);
  }

  /** A layer name with zero or several ":" fails to unpack. */
  lemma ParseNameColons(layername: string)
    ensures Strings.CountChar(layername, ':') != 1 ==> ParseName(layername) == Fail(ValueError)
    ensures ParseName(layername).Ok? ==> Strings.CountChar(layername, ':') == 1
  {
    Strings.SplitCharCount(layername, ':');
  }

  /** A prefix without "gflow " leaves `re.split` a single piece, so taking
      the second one raises IndexError. */
  lemma ParseNameNeedsPrefix(prefix: string, n: string)
    requires ':' !in prefix && ':' !in n && !Strings.Occurs(prefix, Prefix)
    ensures ParseName(prefix + ":" + n) == Fail(IndexError)
  {
    forall k | 0 <= k < |prefix| ensures !Strings.IsAt(prefix + ":" + n, ":", k) {
      assert (prefix + ":" + n)[k..k + 1][0] == prefix[k];
    }
    Strings.SplitAtFirst(prefix, ":", n);
    SplitWhole(n, ':');
    assert Strings.Split(prefix + ":" + n, ":") == [prefix, n];
    Strings.SplitNoOccurrence(prefix, Prefix);
  }

  /** The docstring's example: "gflow Headwell:drainage" parses to the type
      "Headwell", not "Head Well", and no element class has that type. */
  lemma DocstringExample()
    ensures ParseName("gflow Headwell:drainage") == Ok(("Headwell", "drainage"))
    ensures LookupClass("Headwell") == Fail(KeyError("Headwell"))
  {
    NoFirstCharNoOccurrence("Headwell", Prefix);
    assert "gflow Headwell:drainage" == Prefix + "Headwell" + ":" + "drainage";
    ParseNameRoundTrip("Headwell", "drainage");
    Unregistered("Headwell");
  }

  /** A type outside the eighteen type names is not in ELEMENTS. */
  lemma Unregistered(t: string)
    requires t !in TypeNames
    ensures LookupClass(t) == Fail(KeyError(t))
  {
    KeysAreTypeNames();
  }

  /** The keys of ELEMENTS are the eighteen type names. */
  lemma KeysAreTypeNames()
    ensures Keys(Catalog.Elements()) == TypeNames
  {
    TypeNamesAgree();
  }

  // ---- load_elements_from_geopackage -----------------------------------------

  /** Every layer name parsed, in order; the first failure aborts. */
  function ParseAll(layernames: seq<string>): (r: Result<seq<(string, string)>>)
    ensures r.Ok? ==> |r.value| == |layernames|
    ensures r.Ok? ==> forall i :: 0 <= i < |layernames| ==>
      ParseName(layernames[i]).Ok? && r.value[i] == ParseName(layernames[i]).value
  {
    if |layernames| == 0 then Ok([])
    else
      var first :- ParseName(layernames[0]);
      var rest :- ParseAll(layernames[1..]);
      assert forall i :: 1 <= i < |layernames| ==> layernames[1..][i - 1] == layernames[i];
      Ok([first] + rest)
  }

  /** A list without repeats, in first-seen order. */
  function Dedup(s: seq<string>): (d: seq<string>)
    ensures forall x :: x in d <==> x in s
    ensures forall i, j :: 0 <= i < j < |d| ==> d[i] != d[j]
  {
    if |s| == 0 then []
    else
      var d := Dedup(s[..|s| - 1]);
      assert forall x :: x in s <==> x in s[..|s| - 1] || x == s[|s| - 1];
      if s[|s| - 1] in d then d else d + [s[|s| - 1]]
  }

  /** The names the pairs give for one type, in order (with repeats). */
  function NamesOf(pairs: seq<(string, string)>, t: string): (ns: seq<string>)
    ensures forall n :: n in ns <==> (t, n) in pairs
  {
    if |pairs| == 0 then []
    else
      var ns := NamesOf(pairs[..|pairs| - 1], t);
      var last := pairs[|pairs| - 1];
      assert forall p :: p in pairs <==> p in pairs[..|pairs| - 1] || p == last;
      if last.0 == t then ns + [last.1] else ns
  }

  function Types(pairs: seq<(string, string)>): (ts: seq<string>)
    ensures |ts| == |pairs|
    ensures forall i :: 0 <= i < |pairs| ==> ts[i] == pairs[i].0
  {
    seq(|pairs|, i requires 0 <= i < |pairs| => pairs[i].0)
  }

  /** `group[name] = layername` on the names already under a type: a new
      name goes last, a repeated one keeps its place. */
  function AddName(ns: seq<string>, n: string): (r: seq<string>)
    ensures forall x :: x in r <==> x in ns || x == n
  {
    if n in ns then ns else ns + [n]
  }

  /** `grouped_names[element_type]`, or no names yet. */
  function NamesIn(g: Dict<seq<string>>, t: string): seq<string> {
    match Get(g, t)
    case Some(ns) => ns
    case None => []
  }

  /** `grouped_names`: type to the names under it, both in first-seen order. */
  function Group(pairs: seq<(string, string)>): Dict<seq<string>> {
    if |pairs| == 0 then []
    else
      var g := Group(pairs[..|pairs| - 1]);
      var p := pairs[|pairs| - 1];
      Put(g, p.0, AddName(NamesIn(g, p.0), p.1))
  }

  lemma TypesStep(pairs: seq<(string, string)>)
    requires |pairs| > 0
    ensures Types(pairs) == Types(pairs[..|pairs| - 1]) + [pairs[|pairs| - 1].0]
    ensures Types(pairs)[..|pairs| - 1] == Types(pairs[..|pairs| - 1])
  {
  }

  /** The grouping keeps each type once, in first-seen order. */
  lemma {:induction false} GroupKeys(pairs: seq<(string, string)>)
    ensures Keys(Group(pairs)) == Dedup(Types(pairs))
    ensures UniqueKeys(Group(pairs))
  {
    if |pairs| > 0 {
      var init := pairs[..|pairs| - 1];
      var g := Group(init);
      var p := pairs[|pairs| - 1];
      GroupKeys(init);
      TypesStep(pairs);
      PutUnique(g, p.0, AddName(NamesIn(g, p.0), p.1));
    }
  }

  /** A type that no pair has has no names. */
  lemma NoTypeNoNames(pairs: seq<(string, string)>, t: string)
    requires t !in Types(pairs)
    ensures NamesOf(pairs, t) == []
  {
  }

  /** Under each type the grouping holds its distinct names in first-seen order. */
  lemma {:induction false} GroupGet(pairs: seq<(string, string)>, t: string)
    ensures Get(Group(pairs), t) == if t in Types(pairs) then Some(Dedup(NamesOf(pairs, t))) else None
  {
    if |pairs| > 0 {
      var init := pairs[..|pairs| - 1];
      var g := Group(init);
      var p := pairs[|pairs| - 1];
      GroupGet(init, t);
      TypesStep(pairs);
      PutGet(g, p.0, AddName(NamesIn(g, p.0), p.1), t);
      if t == p.0 {
        var before := NamesOf(init, t);
        assert NamesOf(pairs, t) == before + [p.1];
        assert (before + [p.1])[..|before|] == before;
        if t !in Types(init) {
          NoTypeNoNames(init, t);
        }
      }
    }
  }

  /** The grouping keeps the types in first-seen order, each once, and under
      each type its distinct names in first-seen order. */
  lemma GroupSpec(pairs: seq<(string, string)>, t: string)
    ensures Keys(Group(pairs)) == Dedup(Types(pairs))
    ensures UniqueKeys(Group(pairs))
    ensures Get(Group(pairs), t) == if t in Types(pairs) then Some(Dedup(NamesOf(pairs, t))) else None
  {
    GroupKeys(pairs);
    GroupGet(pairs, t);
  }

  /** One element per name of each group, the class looked up in ELEMENTS;
      an unregistered type raises KeyError. */
  function Instantiate(g: Dict<seq<string>>): Result<seq<(ElementClass, string)>> {
    if |g| == 0 then Ok([])
    else
      var c :- LookupClass(g[0].0);
      var rest :- Instantiate(g[1..]);
      Ok(seq(|g[0].1|, i requires 0 <= i < |g[0].1| => (c, g[0].1[i])) + rest)
  }

  /** Group i names a type ELEMENTS lacks (LookupClass fails exactly then), and the failure is its KeyError. */
  predicate FailsAt(g: Dict<seq<string>>, i: nat, f: Fault)
    requires i < |g|
  {
    LookupClass(g[i].0).Fail? && f == KeyError(g[i].0)
  }

  /** Element e belongs to group i: its class is the one ELEMENTS has for
      the group's type, and its name is one of the group's names. */
  predicate InGroup(g: Dict<seq<string>>, i: nat, e: (ElementClass, string))
    requires i < |g|
  {
    g[i].0 == ElementType(e.0) && e.1 in g[i].1 && LookupClass(g[i].0) == Ok(e.0)
  }

  /** Creation succeeds exactly when every group's type is registered. */
  lemma InstantiateOk(g: Dict<seq<string>>)
    ensures Instantiate(g).Ok? <==> forall i :: 0 <= i < |g| ==> LookupClass(g[i].0).Ok?
  {
    InstantiateIsCreate(g);
    CreateOk(g, Lookup());
  }

  /** The creation loop of Instantiate over any lookup of classes by type. */
  function Create<C>(g: Dict<seq<string>>, lookup: string -> Result<C>): Result<seq<(C, string)>> {
    if |g| == 0 then Ok([])
    else
      var c :- lookup(g[0].0);
      var rest :- Create(g[1..], lookup);
      Ok(seq(|g[0].1|, i requires 0 <= i < |g[0].1| => (c, g[0].1[i])) + rest)
  }

  function Lookup(): string -> Result<ElementClass> {
    t => LookupClass(t)
  }

  lemma {:induction false} InstantiateIsCreate(g: Dict<seq<string>>)
    ensures Instantiate(g) == Create(g, Lookup())
  {
    if |g| > 0 {
      InstantiateIsCreate(g[1..]);
    }
  }

  /** The loop gets through exactly when the lookup of every group's type does. */
  lemma {:induction false} CreateOk<C>(g: Dict<seq<string>>, lookup: string -> Result<C>)
    ensures Create(g, lookup).Ok? <==> forall i :: 0 <= i < |g| ==> lookup(g[i].0).Ok?
  {
    if |g| > 0 {
      CreateOk(g[1..], lookup);
      assert forall i :: 1 <= i < |g| ==> g[1..][i - 1] == g[i];
    }
  }

  /** A failed creation is the KeyError of an unregistered group type. */
  lemma {:induction false} InstantiateFails(g: Dict<seq<string>>)
    ensures Instantiate(g).Fail? ==> exists i :: 0 <= i < |g| && FailsAt(g, i, Instantiate(g).fault)
  {
    if |g| > 0 && Instantiate(g).Fail? {
      if LookupClass(g[0].0).Fail? {
        assert FailsAt(g, 0, Instantiate(g).fault);
      } else {
        InstantiateFails(g[1..]);
        var i :| 0 <= i < |g[1..]| && FailsAt(g[1..], i, Instantiate(g[1..]).fault);
        assert g[1..][i] == g[i + 1];
        assert FailsAt(g, i + 1, Instantiate(g).fault);
      }
    }
  }

  /** The created elements are exactly the members of the groups. */
  lemma {:induction false} InstantiateMembers(g: Dict<seq<string>>, e: (ElementClass, string))
    requires Instantiate(g).Ok?
    ensures e in Instantiate(g).value <==> exists i :: 0 <= i < |g| && InGroup(g, i, e)
  {
    if |g| > 0 {
      var c := LookupClass(g[0].0).value;
      var front := seq(|g[0].1|, i requires 0 <= i < |g[0].1| => (c, g[0].1[i]));
      var rest := Instantiate(g[1..]).value;
      assert Instantiate(g).value == front + rest;
      InstantiateMembers(g[1..], e);
      if e in front {
        var k :| 0 <= k < |front| && front[k] == e;
        assert InGroup(g, 0, e);
      } else if e in rest {
        var i :| 0 <= i < |g[1..]| && InGroup(g[1..], i, e);
        assert g[1..][i] == g[i + 1];
        assert InGroup(g, i + 1, e);
      }
      if exists i :: 0 <= i < |g| && InGroup(g, i, e) {
        var i :| 0 <= i < |g| && InGroup(g, i, e);
        if i == 0 {
          var k :| 0 <= k < |g[0].1| && g[0].1[k] == e.1;
          assert front[k] == e;
        } else {
          assert g[1..][i - 1] == g[i];
          assert InGroup(g[1..], i - 1, e);
        }
      }
    }
  }

  /** load_elements_from_geopackage on a list of layer names: the (class,
      name) of every element to create, or the first failure. */
  function LoadElements(layernames: seq<string>): Result<seq<(ElementClass, string)>> {
    var pairs :- ParseAll(layernames);
    Instantiate(Group(pairs))
  }

  /** Loading creates an element for a (type, name) pair exactly when some
      layer name parses to that pair, with the class ELEMENTS has for the
      type, and keeps the types in first-seen order. */
  lemma LoadElementsSpec(layernames: seq<string>, c: ElementClass, n: string)
    requires ParseAll(layernames).Ok? && LoadElements(layernames).Ok?
    ensures (c, n) in LoadElements(layernames).value <==>
      (ElementType(c), n) in ParseAll(layernames).value && LookupClass(ElementType(c)) == Ok(c)
    ensures Keys(Group(ParseAll(layernames).value)) == Dedup(Types(ParseAll(layernames).value))
  {
    var pairs := ParseAll(layernames).value;
    GroupKeys(pairs);
    InstantiateMembers(Group(pairs), (c, n));
    GroupMember(pairs, c, n);
  }

  /** Some group holds (c, n) exactly when (c's type, n) is a parsed pair
      and ELEMENTS maps that type to c. */
  lemma GroupMember(pairs: seq<(string, string)>, c: ElementClass, n: string)
    ensures (exists i :: 0 <= i < |Group(pairs)| && InGroup(Group(pairs), i, (c, n))) <==>
      (ElementType(c), n) in pairs && LookupClass(ElementType(c)) == Ok(c)
  {
    if exists i :: 0 <= i < |Group(pairs)| && InGroup(Group(pairs), i, (c, n)) {
      var i :| 0 <= i < |Group(pairs)| && InGroup(Group(pairs), i, (c, n));
      GroupMemberSound(pairs, c, n, i);
    }
    if (ElementType(c), n) in pairs && LookupClass(ElementType(c)) == Ok(c) {
      GroupMemberComplete(pairs, c, n);
    }
  }

  lemma GroupMemberSound(pairs: seq<(string, string)>, c: ElementClass, n: string, i: nat)
    requires i < |Group(pairs)| && InGroup(Group(pairs), i, (c, n))
    ensures (ElementType(c), n) in pairs && LookupClass(ElementType(c)) == Ok(c)
  {
    var g := Group(pairs);
    var t := ElementType(c);
    GroupSpec(pairs, t);
    GetUnique(g, t, i);
  }

  lemma GroupMemberComplete(pairs: seq<(string, string)>, c: ElementClass, n: string)
    requires (ElementType(c), n) in pairs && LookupClass(ElementType(c)) == Ok(c)
    ensures exists i :: 0 <= i < |Group(pairs)| && InGroup(Group(pairs), i, (c, n))
  {
    var g := Group(pairs);
    var t := ElementType(c);
    GroupSpec(pairs, t);
    assert Types(pairs)[IndexOf(pairs, (t, n))] == t;
    GetKeys(g, t);
    var i :| 0 <= i < |g| && g[i] == (t, Get(g, t).value);
    assert InGroup(g, i, (c, n));
  }

  function IndexOf(pairs: seq<(string, string)>, p: (string, string)): (i: nat)
    requires p in pairs
    ensures i < |pairs| && pairs[i] == p
  {
    if pairs[0] == p then 0 else 1 + IndexOf(pairs[1..], p)
  }

  /** No element is created twice: within the grouping types are unique and
      the names of a type are distinct. */
  lemma GroupNoRepeats(pairs: seq<(string, string)>, i: nat)
    requires i < |Group(pairs)|
    ensures forall j, k :: 0 <= j < k < |Group(pairs)[i].1| ==> Group(pairs)[i].1[j] != Group(pairs)[i].1[k]
  {
    var g := Group(pairs);
    var t := g[i].0;
    GroupSpec(pairs, t);
    GetUnique(g, t, i);
  }

  /** Groups with distinct types and distinct names create distinct elements. */
  lemma {:induction false} InstantiateDistinct(g: Dict<seq<string>>)
    requires Instantiate(g).Ok? && UniqueKeys(g)
    requires forall i :: 0 <= i < |g| ==> NoRepeats(g[i].1)
    ensures NoRepeats(Instantiate(g).value)
  {
    if |g| > 0 {
      var c := LookupClass(g[0].0).value;
      var front := seq(|g[0].1|, i requires 0 <= i < |g[0].1| => (c, g[0].1[i]));
      var rest := Instantiate(g[1..]).value;
      assert Instantiate(g).value == front + rest;
      assert forall i :: 0 <= i < |g[1..]| ==> g[1..][i] == g[i + 1];
      InstantiateDistinct(g[1..]);
      assert NoRepeats(g[0].1);
      forall e | e in front ensures e !in rest {
        InstantiateMembers(g[1..], e);
      }
      NoRepeatsAppend(front, rest);
    }
  }

  /** Loading never creates the same element twice. */
  lemma LoadElementsDistinct(layernames: seq<string>)
    requires LoadElements(layernames).Ok?
    ensures NoRepeats(LoadElements(layernames).value)
  {
    var pairs := ParseAll(layernames).value;
    GroupKeys(pairs);
    forall i | 0 <= i < |Group(pairs)| ensures NoRepeats(Group(pairs)[i].1) {
      GroupNoRepeats(pairs, i);
    }
    InstantiateDistinct(Group(pairs));
  }

  /** A layer name of an unregistered type aborts loading. */
  lemma UnregisteredAborts(layernames: seq<string>, i: nat)
    requires ParseAll(layernames).Ok? && i < |layernames|
    requires ParseAll(layernames).value[i].0 !in Keys(Catalog.Elements())
    ensures LoadElements(layernames).Fail?
  {
    var pairs := ParseAll(layernames).value;
    var g := Group(pairs);
    var t := pairs[i].0;
    assert Get(g, t).Some? by {
      GroupSpec(pairs, t);
      assert Types(pairs)[i] == t;
    }
    var j :| 0 <= j < |g| && g[j] == (t, Get(g, t).value) by {
      GetKeys(g, t);
    }
    InstantiateFailsOn(g, j);
  }

  /** One unregistered group type is enough to make creation fail. */
  lemma InstantiateFailsOn(g: Dict<seq<string>>, j: nat)
    requires j < |g| && g[j].0 !in Keys(Catalog.Elements())
    ensures Instantiate(g).Fail?
  {
    assert LookupClass(g[j].0).Fail?;
    InstantiateOk(g);
  }
}
