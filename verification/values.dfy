/** The values that flow through the plugin: attribute values of a layer row,
    geometries, solver text at the token level, and Python's insertion-ordered
    `dict` as an association list. */
module Values {
  import opened Wrappers

  datatype Point = Point(x: real, y: real)

  /** A feature geometry as the layer provides it. */
  datatype Geometry =
    | PointGeom(p: Point)
    | LineGeom(vertices: seq<Point>)
    | PolygonGeom(ring: seq<Point>)

  /** One attribute value of a row: Python's None, a float, an int, a string,
      the feature geometry, or a vertex list (the "xy" entry added to a row). */
  datatype Value =
    | Null
    | Num(r: real)
    | Int(i: int)
    | Str(s: string)
    | Geom(g: Geometry)
    | XY(pts: seq<Point>)

  /** A row of an attribute table: field name to value. */
  type Row = map<string, Value>

  /** A token of solver text: literal template text, or `str()` of a value
      (a Null value prints as "None"). Tokens of a line are separated by one
      space; the digits Python prints for a float are not modelled. */
  datatype Tok = Lit(s: string) | Val(v: Value)

  type Line = seq<Tok>

  /** Solver text as its lines (joined by "\n"). */
  type Text = seq<Line>

  /** Python's `row[key]` on a dict with string keys. */
  function Lookup<V>(row: map<string, V>, key: string): (r: Result<V>)
    ensures r.Ok? <==> key in row
    ensures r.Ok? ==> r.value == row[key]
    ensures r.Fail? ==> r.fault == KeyError(key)
  {
    if key in row then Ok(row[key]) else Fail(KeyError(key))
  }

  // ---- insertion-ordered dictionaries ---------------------------------------

  /** A Python `dict` with string keys: entries in insertion order. */
  type Dict<V> = seq<(string, V)>

  function Keys<V>(d: Dict<V>): (ks: seq<string>)
    ensures |ks| == |d|
    ensures forall i :: 0 <= i < |d| ==> ks[i] == d[i].0
  {
    if |d| == 0 then [] else [d[0].0] + Keys(d[1..])
  }

  predicate UniqueKeys<V>(d: Dict<V>) {
    forall i, j :: 0 <= i < j < |d| ==> d[i].0 != d[j].0
  }

  /** Python's `d.get(k)`: the value of the first entry with key `k`. */
  function Get<V>(d: Dict<V>, k: string): Option<V>
  {
    if |d| == 0 then None
    else if d[0].0 == k then Some(d[0].1)
    else Get(d[1..], k)
  }

  /** `Get` finds a key exactly when it is one of the keys, and what it finds is an entry. */
  lemma {:induction false} GetKeys<V>(d: Dict<V>, k: string)
    ensures Get(d, k).None? <==> k !in Keys(d)
    ensures Get(d, k).Some? ==> (k, Get(d, k).value) in d
  {
    if |d| > 0 && d[0].0 != k {
      GetKeys(d[1..], k);
      assert Keys(d) == [d[0].0] + Keys(d[1..]);
    }
  }

  /** Looking up a key in a dict with one more entry at the front. */
  lemma GetCons<V>(e: (string, V), d: Dict<V>, k: string)
    ensures Get([e] + d, k) == if e.0 == k then Some(e.1) else Get(d, k)
  {
    assert ([e] + d)[1..] == d;
  }

  /** Looking up a key in a dict with one more entry at the back. */
  lemma {:induction false} GetSnoc<V>(d: Dict<V>, e: (string, V), k: string)
    ensures Get(d + [e], k) == if k in Keys(d) then Get(d, k) else if e.0 == k then Some(e.1) else None
  {
    if |d| == 0 {
      assert d + [e] == [e];
    } else {
      assert (d + [e])[1..] == d[1..] + [e];
      assert Keys(d) == [d[0].0] + Keys(d[1..]);
      if d[0].0 != k {
        GetSnoc(d[1..], e, k);
      }
    }
  }

  /** With unique keys, `Get` finds the one entry of its key. */
  lemma {:induction false} GetUnique<V>(d: Dict<V>, k: string, i: int)
    requires UniqueKeys(d)
    requires 0 <= i < |d| && d[i].0 == k
    ensures Get(d, k) == Some(d[i].1)
  {
    if i > 0 {
      assert d[0].0 != k;
      GetUnique(d[1..], k, i - 1);
    }
  }

  /** Python's `d[k] = v`: an existing key keeps its position, a new key is appended. */
  function Put<V>(d: Dict<V>, k: string, v: V): (r: Dict<V>)
    ensures Keys(r) == if k in Keys(d) then Keys(d) else Keys(d) + [k]
  {
    if |d| == 0 then [(k, v)]
    else if d[0].0 == k then
      var r := [(k, v)] + d[1..];
      assert Keys(r) == [k] + Keys(d[1..]);
      r
    else
      var rest := Put(d[1..], k, v);
      assert Keys(d) == [d[0].0] + Keys(d[1..]);
      assert Keys([d[0]] + rest) == [d[0].0] + Keys(rest);
      [d[0]] + rest
  }

  /** After `d[k] = v`, `d[k]` is `v` and every other key reads as before. */
  lemma {:induction false} PutGet<V>(d: Dict<V>, k: string, v: V, k': string)
    ensures Get(Put(d, k, v), k') == if k' == k then Some(v) else Get(d, k')
  {
    if |d| > 0 && d[0].0 != k {
      PutGet(d[1..], k, v, k');
      var r := Put(d, k, v);
      assert r[1..] == Put(d[1..], k, v);
    } else if |d| > 0 {
      assert Put(d, k, v)[1..] == d[1..];
    }
  }

  /** `Put` never creates a duplicate key. */
  lemma PutUnique<V>(d: Dict<V>, k: string, v: V)
    requires UniqueKeys(d)
    ensures UniqueKeys(Put(d, k, v))
  {
    var r := Put(d, k, v);
    forall i, j | 0 <= i < j < |r| ensures r[i].0 != r[j].0 {
      assert r[i].0 == Keys(r)[i] && r[j].0 == Keys(r)[j];
      assert Keys(r)[i] == d[i].0;
      if j < |d| {
        assert Keys(r)[j] == d[j].0;
      } else {
        assert k !in Keys(d) && Keys(r)[j] == k;
        assert d[i].0 == Keys(d)[i];
      }
    }
  }

  /** Python's `d[k]` on a dict: the value of key `k`, or KeyError. */
  function Index<V>(d: Dict<V>, k: string): (r: Result<V>)
    ensures r.Ok? <==> k in Keys(d)
    ensures r.Ok? ==> Get(d, k) == Some(r.value)
    ensures r.Fail? ==> r.fault == KeyError(k)
  {
    GetKeys(d, k);
    match Get(d, k)
    case None => Fail(KeyError(k))
    case Some(v) => Ok(v)
  }

  /** `dict.pop(k)`: the value and the dict without the key, or KeyError. */
  function Pop<V>(d: Dict<V>, k: string): (r: Result<(V, Dict<V>)>)
    ensures r.Ok? <==> k in Keys(d)
    ensures r.Fail? ==> r.fault == KeyError(k)
    ensures r.Ok? ==> Get(d, k) == Some(r.value.0) && k !in Keys(r.value.1)
    ensures r.Ok? ==> r.value.1 == Remove(d, k)
  {
    GetKeys(d, k);
    match Get(d, k)
    case None => Fail(KeyError(k))
    case Some(v) => Ok((v, Remove(d, k)))
  }

  /** The dict without the entries whose key is `k`, in order. */
  function Remove<V>(d: Dict<V>, k: string): (r: Dict<V>)
    ensures forall i :: 0 <= i < |r| ==> r[i] in d && r[i].0 != k
    ensures forall i :: 0 <= i < |d| && d[i].0 != k ==> d[i] in r
    ensures k !in Keys(r)
  {
    if |d| == 0 then []
    else
      var rest := Remove(d[1..], k);
      assert forall i :: 0 < i < |d| ==> d[i] == d[1..][i - 1];
      if d[0].0 == k then rest else [d[0]] + rest
  }

  /** Removing one key leaves every other key's value alone. */
  lemma {:induction false} RemoveGet<V>(d: Dict<V>, k: string, k': string)
    requires k' != k
    ensures Get(Remove(d, k), k') == Get(d, k')
  {
    if |d| > 0 {
      RemoveGet(d[1..], k, k');
    }
  }

  /** Removing one key leaves every other key present or absent as before. */
  lemma RemoveKeys<V>(d: Dict<V>, k: string, k': string)
    requires k' != k
    ensures k' in Keys(Remove(d, k)) <==> k' in Keys(d)
  {
    RemoveGet(d, k, k');
    GetKeys(d, k');
    GetKeys(Remove(d, k), k');
  }

  /** `d[k] = v` for a new key appends the entry. */
  lemma {:induction false} PutAppends<V>(d: Dict<V>, k: string, v: V)
    requires k !in Keys(d)
    ensures Put(d, k, v) == d + [(k, v)]
  {
    if |d| > 0 {
      assert Keys(d) == [d[0].0] + Keys(d[1..]);
      PutAppends(d[1..], k, v);
      assert d == [d[0]] + d[1..];
    }
  }

  /** Removing a key keeps the other keys distinct. */
  lemma {:induction false} RemoveUnique<V>(d: Dict<V>, k: string)
    requires UniqueKeys(d)
    ensures UniqueKeys(Remove(d, k))
  {
    if |d| > 0 {
      RemoveUnique(d[1..], k);
      var rest := Remove(d[1..], k);
      if d[0].0 != k {
        forall i | 0 <= i < |rest| ensures rest[i].0 != d[0].0 {
          assert rest[i] in d[1..];
        }
        assert Remove(d, k) == [d[0]] + rest;
      }
    }
  }

  /** A sequence without repeated elements. */
  predicate NoRepeats<T(==)>(s: seq<T>) {
    forall i, j :: 0 <= i < j < |s| ==> s[i] != s[j]
  }

  lemma NoRepeatsAppend<T>(a: seq<T>, b: seq<T>)
    requires NoRepeats(a) && NoRepeats(b)
    requires forall x :: x in a ==> x !in b
    ensures NoRepeats(a + b)
  {
    forall i, j | 0 <= i < j < |a + b| ensures (a + b)[i] != (a + b)[j] {
      if i < |a| && j >= |a| {
        assert (a + b)[i] in a && (a + b)[j] == b[j - |a|];
      }
    }
  }

  /** Concatenation regroups freely; stated once so that proofs can cite it. */
  lemma AppendAssociates<T>(a: seq<T>, b: seq<T>, c: seq<T>)
    ensures (a + b) + c == a + (b + c)
  {
  }
}
