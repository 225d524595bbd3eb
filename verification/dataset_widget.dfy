/** The pure parts of widgets/dataset_widget.py: the check boxes of the
    dataset tree, the removal selection, the partition `extract_data` makes
    of the checked elements into validation errors and data, and the return
    values of `_extract_data`, `convert_to_gflow` and `convert_to_json`.
    What an element's own `extract_data` gives is a parameter of the tree:
    reading its layer is not modelled here. */
module Dataset {
  import opened Wrappers
  import opened Values
  import opened Catalog
  import opened Elements
  import opened TableSchema
  import Strings
  import Formatting

  /** An element in the tree: its class and the outcome of its `extract_data`. */
  datatype TreeElement = TreeElement(cls: ElementClass, outcome: Result<Extraction>)

  /** A tree item: the text of its second column, its check box and the element. */
  datatype Item = Item(text: string, checked: bool, enabled: bool, element: TreeElement)

  /** Aquifer and Domain are mandatory in every model. */
  predicate Mandatory(c: ElementClass) {
    c == Aquifer || c == Domain
  }

  // ---- check boxes -------------------------------------------------------------------

  /** `add_element`: a checked item whose check box is disabled exactly for
      the mandatory elements. */
  function AddElement(gflowName: string, element: TreeElement): (item: Item)
    ensures item.text == gflowName && item.element == element && item.checked
    ensures item.enabled <==> !Mandatory(element.cls)
  {
    Item(gflowName, true, !Mandatory(element.cls), element)
  }

  /** A click on the check box: a disabled box does not change. */
  function Click(item: Item): (r: Item)
    ensures r.text == item.text && r.element == item.element && r.enabled == item.enabled
    ensures r.checked == (if item.enabled then !item.checked else item.checked)
  {
    if item.enabled then item.(checked := !item.checked) else item
  }

  function Clicks(item: Item, n: nat): Item {
    if n == 0 then item else Click(Clicks(item, n - 1))
  }

  /** However often the user clicks, a mandatory element stays checked. */
  lemma {:induction false} MandatoryStaysChecked(gflowName: string, element: TreeElement, n: nat)
    requires Mandatory(element.cls)
    ensures Clicks(AddElement(gflowName, element), n).checked
    ensures Clicks(AddElement(gflowName, element), n) == AddElement(gflowName, element)
  {
    if n > 0 {
      MandatoryStaysChecked(gflowName, element, n - 1);
    }
  }

  /** The selection `remove_geopackage_layers` works on: the selected items
      without the mandatory ones, in selection order. */
  function RemovalSelection(selection: seq<Item>): (r: seq<Item>)
    ensures forall i :: 0 <= i < |r| ==> r[i] in selection && !Mandatory(r[i].element.cls)
    ensures forall i :: 0 <= i < |selection| && !Mandatory(selection[i].element.cls) ==> selection[i] in r
  {
    if |selection| == 0 then []
    else
      var rest := RemovalSelection(selection[1..]);
      if Mandatory(selection[0].element.cls) then rest else [selection[0]] + rest
  }

  // ---- extract_data ------------------------------------------------------------------

  /** The `elements` comprehension: the checked items' elements keyed by
      their text, in item order; a later item with the same text replaces
      the element and keeps the position. */
  function Selected(items: seq<Item>): Dict<TreeElement>
    decreases |items|
  {
    if |items| == 0 then []
    else
      var last := items[|items| - 1];
      var d := Selected(items[..|items| - 1]);
      if last.checked then Put(d, last.text, last.element) else d
  }

  /** The element of the last checked item with the given text. */
  function LastChecked(items: seq<Item>, name: string): Option<TreeElement>
    decreases |items|
  {
    if |items| == 0 then None
    else
      var last := items[|items| - 1];
      if last.checked && last.text == name then Some(last.element)
      else LastChecked(items[..|items| - 1], name)
  }

  /** A name has an element exactly when some checked item shows it. */
  lemma {:induction false} LastCheckedSome(items: seq<Item>, name: string)
    ensures LastChecked(items, name).Some? <==>
      exists i :: 0 <= i < |items| && items[i].checked && items[i].text == name
    decreases |items|
  {
    if |items| > 0 {
      var n := |items| - 1;
      LastCheckedSome(items[..n], name);
      if exists i :: 0 <= i < |items| && items[i].checked && items[i].text == name {
        var i :| 0 <= i < |items| && items[i].checked && items[i].text == name;
        if i < n {
          assert items[..n][i] == items[i];
        }
      }
    }
  }

  /** The comprehension keeps, for every text, the element of the last
      checked item showing it, and its keys are distinct. */
  lemma {:induction false} SelectedSpec(items: seq<Item>)
    ensures UniqueKeys(Selected(items))
    ensures forall name :: Get(Selected(items), name) == LastChecked(items, name)
    decreases |items|
  {
    if |items| > 0 {
      var n := |items| - 1;
      var last := items[n];
      SelectedSpec(items[..n]);
      if last.checked {
        PutUnique(Selected(items[..n]), last.text, last.element);
        forall name ensures Get(Selected(items), name) == LastChecked(items, name) {
          PutGet(Selected(items[..n]), last.text, last.element, name);
        }
      }
    }
  }

  /** What `extract_data` does with one element. */
  datatype Verdict =
    | Skipped                                   // no data, or the Qt layer is gone
    | Invalid(errors: ErrorMap)                 // goes to errors[name]
    | Valid(elementType: string, x: Extraction) // goes to data[element_type][name]
    | Raised(fault: Fault)                      // re-raised

  /** A `data` value is truthy unless it is an empty list or dict. */
  predicate Truthy(d: Data) {
    match d
    case Records(rows) => |rows| > 0
    case Record(row) => |row| > 0
    case Box(_, _, _, _) => true
  }

  function VerdictOf(el: TreeElement): (v: Verdict)
    ensures v.Raised? <==> el.outcome.Fail? && el.outcome.fault != QtObjectDeleted
    ensures v.Invalid? <==> el.outcome.Ok? && el.outcome.value.errors.Some? && el.outcome.value.errors.value != []
    ensures v.Valid? ==> v.elementType == ElementType(el.cls) && el.outcome == Ok(v.x) && v.x.data.Some? && Truthy(v.x.data.value)
  {
    match el.outcome
    case Fail(f) => if f == QtObjectDeleted then Skipped else Raised(f)
    case Ok(x) =>
      if x.errors.Some? && x.errors.value != [] then Invalid(x.errors.value)
      else if x.data.Some? && Truthy(x.data.value) then Valid(ElementType(el.cls), x)
      else Skipped
  }

  /** `data`: per element type, the extractions by element name. */
  type TreeData = Dict<Dict<Extraction>>

  /** `data[t]` of a defaultdict: an absent type reads as an empty dict. */
  function Group(data: TreeData, t: string): Dict<Extraction> {
    match Get(data, t)
    case Some(g) => g
    case None => []
  }

  /** The loop of `extract_data` over the selected elements, in order. */
  function Partition(entries: Dict<TreeElement>): Result<(Dict<ErrorMap>, TreeData)>
    decreases |entries|
  {
    if |entries| == 0 then Ok(([], []))
    else
      var (errors, data) :- Partition(entries[..|entries| - 1]);
      var (name, el) := entries[|entries| - 1];
      match VerdictOf(el)
      case Skipped => Ok((errors, data))
      case Raised(f) => Fail(f)
      case Invalid(e) => Ok((Put(errors, name, e), data))
      case Valid(t, x) => Ok((errors, Put(data, t, Put(Group(data, t), name, x))))
  }

  /** The errors an element contributes under its name. */
  function ErrorsOf(el: Option<TreeElement>): Option<ErrorMap> {
    if el.Some? && VerdictOf(el.value).Invalid? then Some(VerdictOf(el.value).errors) else None
  }

  /** The extraction an element contributes under type `t`. */
  function DataOf(el: Option<TreeElement>, t: string): Option<Extraction> {
    if el.Some? && VerdictOf(el.value).Valid? && VerdictOf(el.value).elementType == t
    then Some(VerdictOf(el.value).x) else None
  }

  /** The first element, in order, whose extraction raised. */
  predicate FirstRaised(entries: Dict<TreeElement>, i: int) {
    0 <= i < |entries| && VerdictOf(entries[i].1).Raised? &&
    forall j :: 0 <= j < i ==> !VerdictOf(entries[j].1).Raised?
  }

  /** The last entry of a dict with distinct keys shadows nothing: lookups
      of the other keys read the dict without it. */
  lemma LastEntry(entries: Dict<TreeElement>)
    requires UniqueKeys(entries) && |entries| > 0
    ensures UniqueKeys(entries[..|entries| - 1])
    ensures Get(entries[..|entries| - 1], entries[|entries| - 1].0) == None
    ensures var last := entries[|entries| - 1];
      forall name :: Get(entries, name) == if name == last.0 then Some(last.1) else Get(entries[..|entries| - 1], name)
  {
    var n := |entries| - 1;
    var prefix := entries[..n];
    var name0 := entries[n].0;
    assert entries == prefix + [entries[n]];
    assert UniqueKeys(prefix) by {
      assert forall i :: 0 <= i < n ==> prefix[i] == entries[i];
    }
    assert name0 !in Keys(prefix) by {
      forall i | 0 <= i < n ensures Keys(prefix)[i] != name0 {
        assert Keys(prefix)[i] == entries[i].0;
      }
    }
    GetKeys(prefix, name0);
    forall name ensures Get(entries, name) == if name == name0 then Some(entries[n].1) else Get(prefix, name) {
      GetSnoc(prefix, entries[n], name);
      GetKeys(prefix, name);
    }
  }

  /** One turn of the loop, for the last entry. */
  lemma PartitionStep(entries: Dict<TreeElement>)
    requires |entries| > 0
    ensures var prefix := Partition(entries[..|entries| - 1]);
      var v := VerdictOf(entries[|entries| - 1].1);
      var name := entries[|entries| - 1].0;
      Partition(entries) ==
        if prefix.Fail? then Fail(prefix.fault)
        else if v.Raised? then Fail(v.fault)
        else if v.Invalid? then Ok((Put(prefix.value.0, name, v.errors), prefix.value.1))
        else if v.Valid? then
          Ok((prefix.value.0, Put(prefix.value.1, v.elementType, Put(Group(prefix.value.1, v.elementType), name, v.x))))
        else prefix
  {
  }

  /** One turn of the loop gets through unless the loop already raised or
      the last element raises. */
  lemma PartitionStepOk(entries: Dict<TreeElement>)
    requires |entries| > 0
    ensures Partition(entries).Ok? <==>
      Partition(entries[..|entries| - 1]).Ok? && !VerdictOf(entries[|entries| - 1].1).Raised?
  {
    PartitionStep(entries);
  }

  /** Storing `x` under type `t0` and name `name0` changes that one lookup. */
  lemma GroupPut(data: TreeData, t0: string, name0: string, x: Extraction, t: string, name: string)
    ensures Get(Group(Put(data, t0, Put(Group(data, t0), name0, x)), t), name) ==
      if t == t0 && name == name0 then Some(x) else Get(Group(data, t), name)
  {
    PutGet(data, t0, Put(Group(data, t0), name0, x), t);
    PutGet(Group(data, t0), name0, x, name);
  }

  /** The loop finishes unless an element raises something other than the
      deleted-layer error. */
  lemma {:induction false} PartitionOk(entries: Dict<TreeElement>)
    ensures Partition(entries).Ok? <==> forall i :: 0 <= i < |entries| ==> !VerdictOf(entries[i].1).Raised?
    decreases |entries|
  {
    if |entries| > 0 {
      var n := |entries| - 1;
      PartitionOk(entries[..n]);
      PartitionStepOk(entries);
      NoneRaisedStep(entries);
    }
  }

  /** No element of a non-empty list raises iff none of the prefix does and the last does not. */
  lemma NoneRaisedStep(entries: Dict<TreeElement>)
    requires |entries| > 0
    ensures var n := |entries| - 1;
      (forall i :: 0 <= i < |entries| ==> !VerdictOf(entries[i].1).Raised?) <==>
      (forall i :: 0 <= i < n ==> !VerdictOf(entries[..n][i].1).Raised?) && !VerdictOf(entries[n].1).Raised?
  {
    var n := |entries| - 1;
    assert forall i :: 0 <= i < n ==> entries[..n][i] == entries[i];
  }

  /** When the loop raises, it is the error of the first element that raised. */
  lemma {:induction false} PartitionFirstRaised(entries: Dict<TreeElement>)
    ensures Partition(entries).Fail? ==>
      exists i :: FirstRaised(entries, i) && Partition(entries).fault == VerdictOf(entries[i].1).fault
    decreases |entries|
  {
    if |entries| > 0 && Partition(entries).Fail? {
      var n := |entries| - 1;
      var prefix := entries[..n];
      PartitionStep(entries);
      if Partition(prefix).Fail? {
        PartitionFirstRaised(prefix);
        var i :| FirstRaised(prefix, i) && Partition(prefix).fault == VerdictOf(prefix[i].1).fault;
        assert forall j :: 0 <= j <= i ==> prefix[j] == entries[j];
        assert FirstRaised(entries, i);
      } else {
        PartitionOk(prefix);
        assert forall j :: 0 <= j < n ==> prefix[j] == entries[j];
        assert FirstRaised(entries, n);
      }
    }
  }

  /** An element's errors are stored under its name, and nothing else is. */
  lemma {:induction false} PartitionErrors(entries: Dict<TreeElement>)
    requires UniqueKeys(entries)
    ensures Partition(entries).Ok? ==>
      forall name :: Get(Partition(entries).value.0, name) == ErrorsOf(Get(entries, name))
    decreases |entries|
  {
    if |entries| > 0 {
      var n := |entries| - 1;
      var prefix := entries[..n];
      var (name0, el) := entries[n];
      LastEntry(entries);
      PartitionErrors(prefix);
      PartitionStep(entries);
      if Partition(prefix).Ok? && VerdictOf(el).Invalid? {
        var errors := Partition(prefix).value.0;
        var e := VerdictOf(el).errors;
        forall name ensures Get(Put(errors, name0, e), name) == ErrorsOf(Get(entries, name)) {
          PutGet(errors, name0, e, name);
        }
      }
    }
  }

  /** An element's data, when it has no errors and the data is not empty, is
      stored under its element type and name, and nothing else is. */
  lemma {:induction false} PartitionData(entries: Dict<TreeElement>)
    requires UniqueKeys(entries)
    ensures Partition(entries).Ok? ==>
      forall t, name :: Get(Group(Partition(entries).value.1, t), name) == DataOf(Get(entries, name), t)
    decreases |entries|
  {
    if |entries| > 0 {
      var n := |entries| - 1;
      var prefix := entries[..n];
      var (name0, el) := entries[n];
      LastEntry(entries);
      PartitionData(prefix);
      PartitionStep(entries);
      if Partition(prefix).Ok? && VerdictOf(el).Valid? {
        var data := Partition(prefix).value.1;
        var (t0, x) := (VerdictOf(el).elementType, VerdictOf(el).x);
        forall t, name ensures Get(Group(Put(data, t0, Put(Group(data, t0), name0, x)), t), name) == DataOf(Get(entries, name), t) {
          GroupPut(data, t0, name0, x, t, name);
        }
      }
    }
  }

  /** `DatasetTreeWidget.extract_data`: the errors and the data of the
      checked elements. */
  function ExtractTree(items: seq<Item>): Result<(Dict<ErrorMap>, TreeData)> {
    Partition(Selected(items))
  }

  /** Over the items: what each name contributes is decided by the last
      checked item showing it, so an unchecked item contributes nothing. */
  lemma ExtractTreeSpec(items: seq<Item>)
    ensures ExtractTree(items).Ok? ==>
      forall name :: Get(ExtractTree(items).value.0, name) == ErrorsOf(LastChecked(items, name))
    ensures ExtractTree(items).Ok? ==>
      forall t, name :: Get(Group(ExtractTree(items).value.1, t), name) == DataOf(LastChecked(items, name), t)
  {
    SelectedSpec(items);
    PartitionErrors(Selected(items));
    PartitionData(Selected(items));
  }

  /** A name no checked item shows is neither among the errors nor in the data. */
  lemma UncheckedIgnored(items: seq<Item>, name: string, t: string)
    requires forall i :: 0 <= i < |items| && items[i].text == name ==> !items[i].checked
    ensures ExtractTree(items).Ok? ==>
      Get(ExtractTree(items).value.0, name) == None && Get(Group(ExtractTree(items).value.1, t), name) == None
  {
    LastCheckedSome(items, name);
    ExtractTreeSpec(items);
  }

  // ---- return contracts ---------------------------------------------------------------

  /** The `Extraction` named tuple of the widget: `gflow` defaults to None
      and `success` to True. */
  datatype TreeExtraction = TreeExtraction(gflow: Option<TreeData>, success: bool)

  /** `_extract_data`: success exactly when no element reported errors;
      then the data comes along, and otherwise no data. */
  function ExtractDataOutcome(items: seq<Item>): (r: Result<TreeExtraction>)
    ensures r.Ok? <==> ExtractTree(items).Ok?
    ensures r.Fail? ==> r.fault == ExtractTree(items).fault
    ensures r.Ok? ==> (r.value.success <==> ExtractTree(items).value.0 == [])
    ensures r.Ok? ==> (r.value.gflow.Some? <==> r.value.success)
    ensures r.Ok? && r.value.success ==> r.value.gflow == Some(ExtractTree(items).value.1)
  {
    var (errors, data) :- ExtractTree(items);
    if errors != [] then Ok(TreeExtraction(None, false)) else Ok(TreeExtraction(Some(data), true))
  }

  /** What a conversion returns and the text it writes, if any. */
  datatype Conversion<T> = Conversion(returned: Option<bool>, written: Option<T>)

  /** `convert_to_gflow`: None (nothing written) when validation fails, and
      False after writing the serialized data. The serializer is a
      parameter. */
  function ConvertToGflow(items: seq<Item>, serialize: TreeData -> string): (r: Result<Conversion<string>>)
    ensures r.Ok? <==> ExtractTree(items).Ok?
    ensures r.Ok? ==> (r.value.returned == None <==> ExtractTree(items).value.0 != [])
    ensures r.Ok? ==> (r.value.returned.Some? ==> r.value.returned == Some(false))
    ensures r.Ok? ==> (r.value.written.Some? <==> r.value.returned.Some?)
    ensures r.Ok? && r.value.written.Some? ==> r.value.written == Some(serialize(ExtractTree(items).value.1))
  {
    var extraction :- ExtractDataOutcome(items);
    if !extraction.success then Ok(Conversion(None, None))
    else Ok(Conversion(Some(false), Some(serialize(extraction.gflow.value))))
  }

  /** The project's coordinate reference system, as QGIS reports it. */
  datatype Crs = Crs(authid: string, description: string, wkt: string)

  /** The "crs" entry of the JSON file. */
  datatype CrsEntry = CrsEntry(description: string, organization: string, srsId: string, wkt: string)

  /** `convert_to_json`: True when validation fails; otherwise the tree's
      data is converted to JSON, whose failure propagates, and the JSON with
      its "crs" entry is written and the result is False. Unpacking the
      authority id split on ":" needs exactly one colon. */
  function ConvertToJson<J>(items: seq<Item>, toJson: TreeData -> Result<J>, crs: Crs): (r: Result<Conversion<(J, CrsEntry)>>)
    ensures ExtractTree(items).Fail? ==> r == Fail(ExtractTree(items).fault)
    ensures ExtractTree(items).Ok? && ExtractTree(items).value.0 != [] ==> r == Ok(Conversion(Some(true), None))
    ensures ExtractTree(items).Ok? && ExtractTree(items).value.0 == [] ==>
      var json := toJson(ExtractTree(items).value.1);
      (r.Ok? <==> json.Ok? && Strings.CountChar(crs.authid, ':') == 1) &&
      (json.Fail? ==> r == Fail(json.fault)) &&
      (json.Ok? && r.Fail? ==> r.fault == ValueError)
    ensures r.Ok? && r.value.returned == Some(false) ==> (r.value.written.Some? &&
      var (json, entry) := r.value.written.value;
      toJson(ExtractTree(items).value.1) == Ok(json) &&
      entry.organization + ":" + entry.srsId == crs.authid &&
      ':' !in entry.organization && entry.description == crs.description && entry.wkt == crs.wkt)
  {
    var extraction :- ExtractDataOutcome(items);
    if !extraction.success then Ok(Conversion(Some(true), None))
    else
      var json :- toJson(extraction.gflow.value);
      var parts := Strings.Split(crs.authid, ":");
      Strings.SplitCharCount(crs.authid, ':');
      if |parts| != 2 then Fail(ValueError)
      else
        Strings.SplitJoin(crs.authid, ":");
        assert Strings.Join(parts, ":") == parts[0] + ":" + parts[1];
        Ok(Conversion(Some(false), Some((json, CrsEntry(crs.description, parts[0], parts[1], crs.wkt)))))
  }

  /** No element type is the layer name "gflow Domain:Domain". */
  lemma TypeNotDomainKey(c: ElementClass)
    ensures ElementType(c) != Formatting.DomainKey
  {
  }

  /** The tree's data is keyed by element type, so it never holds the
      layer name gflow_json pops. */
  lemma {:induction false} PartitionNoDomainKey(entries: Dict<TreeElement>)
    ensures Partition(entries).Ok? ==> Formatting.DomainKey !in Keys(Partition(entries).value.1)
    decreases |entries|
  {
    if |entries| > 0 {
      PartitionNoDomainKey(entries[..|entries| - 1]);
      PartitionStep(entries);
      TypeNotDomainKey(entries[|entries| - 1].1.cls);
    }
  }

  /** The conversion `convert_to_json` evidently means to call,
      `gflow_json` through `data_to_json`, raises KeyError on every tree the
      widget builds: it pops "gflow Domain:Domain", but the tree holds the
      domain under its element type. */
  lemma IntendedJsonFails(items: seq<Item>, options: Formatting.OutputOptions,
                          readWindow: (Dict<Extraction>, real) -> Result<Formatting.Window>)
    ensures ExtractTree(items).Ok? ==>
      Formatting.GflowJson(ExtractTree(items).value.1, options, readWindow) == Fail(KeyError(Formatting.DomainKey))
  {
    PartitionNoDomainKey(Selected(items));
  }

  /** So `convert_to_json` with that conversion never writes a file: once
      validation passes, it raises that KeyError. */
  lemma ConvertToJsonFails(items: seq<Item>, options: Formatting.OutputOptions,
                           readWindow: (Dict<Extraction>, real) -> Result<Formatting.Window>, crs: Crs)
    ensures ExtractTree(items).Ok? && ExtractTree(items).value.0 == [] ==>
      ConvertToJson(items, data => Formatting.GflowJson(data, options, readWindow), crs) ==
        Fail(KeyError(Formatting.DomainKey))
  {
    IntendedJsonFails(items, options, readWindow);
  }
}
