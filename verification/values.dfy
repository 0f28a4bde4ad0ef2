/** The value trees that loaders produce and that metadata mappings hold,
    and the right-biased deep merge that combines the mappings of a chain. */
module Values {

  /** Python scalars: `str`, `int`, `bool` and `None`. */
  datatype Atom = Str(s: string) | Int(i: int) | Bool(b: bool) | Null

  /** A loaded or resolved value.
      - `Map`: a `dict` with string keys;
      - `List`: a Python `list`;
      - `Array`: a numpy `ndarray` with its full shape `dims`; `elems` are the
        sub-arrays (or scalars) along the first axis, which is what iterating
        and indexing by an integer give;
      - `Struct`: a MATLAB struct object (`mat_struct`), whose `_fieldnames`
        are the member names in order and whose attributes are the members;
      - `Obj`: an object built by a loader hook that supports both item
        access (missing item: `KeyError`) and attribute access;
      - `StrSet`: a Python `set` of strings. */
  datatype Value =
    | Scalar(atom: Atom)
    | Map(entries: map<string, Value>)
    | List(items: seq<Value>)
    | Array(dims: seq<nat>, elems: seq<Value>)
    | Struct(members: seq<Member>)
    | Obj(keyed: map<string, Value>, attrs: map<string, Value>)
    | StrSet(strs: set<string>)

  datatype Member = Member(name: string, value: Value)

  /** A resolved metadata mapping: metadata key to value. */
  type Metadata = map<string, Value>

  function Text(s: string): Value {
    Scalar(Str(s))
  }

  /** True when both values are dicts, the only case in which the merge
      recurses instead of overwriting. */
  predicate BothMaps(a: Value, b: Value) {
    a.Map? && b.Map?
  }

  /** `dict_deep_update(d, u)`: every key of `u` overwrites the same key of
      `d`, except that two dicts under the same key are merged recursively. */
  function DeepUpdate(d: Metadata, u: Metadata): (r: Metadata)
    ensures r.Keys == d.Keys + u.Keys
    ensures forall k :: k in r && k !in u ==> r[k] == d[k]
    ensures forall k :: k in r && k in u && !(k in d && BothMaps(d[k], u[k])) ==> r[k] == u[k]
    ensures forall k :: k in r && k in u && k in d && BothMaps(d[k], u[k]) ==>
      r[k].Map? && r[k].entries.Keys == d[k].entries.Keys + u[k].entries.Keys
    ensures forall k :: k in r && k in u && k in d && BothMaps(d[k], u[k]) ==>
      r[k] == Map(DeepUpdate(d[k].entries, u[k].entries))
    decreases Map(u)
  {
    map k | k in d.Keys + u.Keys ::
      if k in u then
        if k in d && BothMaps(d[k], u[k]) then Map(DeepUpdate(d[k].entries, u[k].entries))
        else u[k]
      else d[k]
  }

  /** True when following the keys `ks` through nested dicts of `m` ends at
      the value `v`, which is not itself a dict. */
  predicate LeafAt(m: Metadata, ks: seq<string>, v: Value)
    decreases |ks|
  {
    |ks| > 0 && ks[0] in m &&
    if |ks| == 1 then m[ks[0]] == v && !v.Map?
    else m[ks[0]].Map? && LeafAt(m[ks[0]].entries, ks[1..], v)
  }

  /** At any depth, a leaf of the update survives the merge unchanged. */
  lemma {:induction false} UpdateLeafWins(d: Metadata, u: Metadata, ks: seq<string>, v: Value)
    requires LeafAt(u, ks, v)
    ensures LeafAt(DeepUpdate(d, u), ks, v)
    decreases |ks|
  {
    var k := ks[0];
    if |ks| > 1 && k in d && BothMaps(d[k], u[k]) {
      UpdateLeafWins(d[k].entries, u[k].entries, ks[1..], v);
    }
  }

  /** True when the update `u` sets something on the path `ks` that replaces
      what the base holds there: the full path, or a non-dict on a prefix. */
  predicate Touches(u: Metadata, ks: seq<string>)
    decreases |ks|
  {
    |ks| > 0 && ks[0] in u &&
    (|ks| == 1 || !u[ks[0]].Map? || Touches(u[ks[0]].entries, ks[1..]))
  }

  /** At any depth, a leaf of the base survives the merge unless the update
      touches its path. */
  lemma {:induction false} BaseLeafKept(d: Metadata, u: Metadata, ks: seq<string>, v: Value)
    requires LeafAt(d, ks, v) && !Touches(u, ks)
    ensures LeafAt(DeepUpdate(d, u), ks, v)
    decreases |ks|
  {
    var k := ks[0];
    if |ks| > 1 && k in u {
      BaseLeafKept(d[k].entries, u[k].entries, ks[1..], v);
    }
  }

  /** Merging with an empty update, or into an empty mapping, changes nothing. */
  lemma DeepUpdateIdentity(m: Metadata)
    ensures DeepUpdate(m, map[]) == m
    ensures DeepUpdate(map[], m) == m
  {
  }

  /** Merging a mapping into itself gives the same mapping. */
  lemma {:induction false} DeepUpdateIdempotent(m: Metadata)
    ensures DeepUpdate(m, m) == m
    decreases Map(m)
  {
    forall k | k in m
      ensures DeepUpdate(m, m)[k] == m[k]
    {
      if m[k].Map? {
        DeepUpdateIdempotent(m[k].entries);
      }
    }
  }

  /** A later leaf overwrites an earlier one: {"a": 1} then {"a": 2} gives {"a": 2}. */
  lemma LeafConflictExample()
    ensures DeepUpdate(map["a" := Scalar(Int(1))], map["a" := Scalar(Int(2))]) == map["a" := Scalar(Int(2))]
  {
    var r := DeepUpdate(map["a" := Scalar(Int(1))], map["a" := Scalar(Int(2))]);
    assert r.Keys == {"a"};
  }

  /** Nested dicts merge: {"a": {"x": 1}} then {"a": {"y": 2}} gives
      {"a": {"x": 1, "y": 2}}. */
  lemma NestedMergeExample()
    ensures DeepUpdate(map["a" := Map(map["x" := Scalar(Int(1))])],
                       map["a" := Map(map["y" := Scalar(Int(2))])])
         == map["a" := Map(map["x" := Scalar(Int(1)), "y" := Scalar(Int(2))])]
  {
    var inner := DeepUpdate(map["x" := Scalar(Int(1))], map["y" := Scalar(Int(2))]);
    assert inner.Keys == {"x", "y"};
    assert inner == map["x" := Scalar(Int(1)), "y" := Scalar(Int(2))];
    var r := DeepUpdate(map["a" := Map(map["x" := Scalar(Int(1))])], map["a" := Map(map["y" := Scalar(Int(2))])]);
    assert r.Keys == {"a"};
  }
}
