/** `parse_nested_spec`: a dict whose values are plain values, spec objects
    or further dicts, turned into a metadata dict by running each spec
    object's own `_parse(base_dir)`. */
module NestedSpec {
  import opened Wrappers
  import opened Values
  import opened Files
  import opened Nodes
  import Chain
  import PathSpec
  import ExternalFile

  type Cache = ExternalFile.Cache
  type Outcome = ExternalFile.Outcome

  /** A value of the nested spec dict: a plain value (which may itself be a
      `dict`), a spec object (the head of a chain and the nodes chained to
      it), or a dict of further entries. */
  datatype Spec =
    | Plain(v: Value)
    | SpecObj(head: Node, children: seq<Node>)
    | Dict(entries: seq<(string, Spec)>)

  /** `isinstance(value, dict)`. */
  predicate IsDict(s: Spec) {
    s.Dict? || (s.Plain? && s.v.Map?)
  }

  /** The keys of a Python dict are distinct. */
  ghost predicate KeysDistinct(es: seq<(string, Spec)>) {
    forall i, j :: 0 <= i < j < |es| ==> es[i].0 != es[j].0
  }

  ghost function KeysFrom(es: seq<(string, Spec)>, i: nat): set<string>
    requires i <= |es|
  {
    set j | i <= j < |es| :: es[j].0
  }

  /** How a spec object is run inside `parse_nested_spec`: `value._parse(base_dir)`,
      so `metadata` is `None`. */
  function NestedEval(d: Dir): Chain.Eval {
    (n, c) => Chain.NodeParse(n, d, None, c)
  }

  /** The same call on the as-written nodes. */
  function NestedEvalAsWritten(d: Dir): Chain.Eval {
    (n, c) => Chain.NodeParseAsWritten(n, d, None, c)
  }

  /** The loop of `parse_nested_spec` as written, from entry `i` on, with the
      dict `out` built so far. A dict value makes `out_dict[key]` fail with
      `KeyError` before anything is parsed for it, since `key` is not in
      `out_dict` yet; a spec value is replaced by the head's own `_parse`
      result (its chained children are not consulted); anything else is
      copied. */
  function AsWrittenFrom(es: seq<(string, Spec)>, i: nat, out: Metadata, eval: Chain.Eval, cache: Cache): (o: Outcome)
    requires i <= |es|
    ensures o.result.Ok? ==> forall j :: i <= j < |es| ==> !IsDict(es[j].1)
    ensures o.result.Ok? ==> o.result.value.Keys == out.Keys + KeysFrom(es, i)
    decreases |es| - i
  {
    if i == |es| then
      assert KeysFrom(es, i) == {};
      ExternalFile.Outcome(Ok(out), cache)
    else
      assert KeysFrom(es, i) == {es[i].0} + KeysFrom(es, i + 1);
      var (k, s) := es[i];
      if IsDict(s) then ExternalFile.Outcome(Err(KeyError(k, false)), cache)
      else if s.SpecObj? then
        var o := eval(s.head, cache);
        match o.result
        case Err(e) => ExternalFile.Outcome(Err(e), o.cache)
        case Ok(m) => AsWrittenFrom(es, i + 1, out[k := Map(m)], eval, o.cache)
      else AsWrittenFrom(es, i + 1, out[k := s.v], eval, cache)
  }

  /** `parse_nested_spec(spec, base_dir)` as written. */
  function ParseNestedAsWritten(es: seq<(string, Spec)>, eval: Chain.Eval, cache: Cache): (o: Outcome)
    requires KeysDistinct(es)
    ensures o.result.Ok? ==> (forall j :: 0 <= j < |es| ==> !IsDict(es[j].1)) && o.result.value.Keys == KeysFrom(es, 0)
  {
    AsWrittenFrom(es, 0, map[], eval, cache)
  }

  /** The corrected loop: a dict value is parsed recursively and stored
      under its key. */
  function CorrectedFrom(s: Spec, i: nat, out: Metadata, eval: Chain.Eval, cache: Cache): (o: Outcome)
    requires s.Dict? && i <= |s.entries|
    ensures o.result.Ok? ==> o.result.value.Keys == out.Keys + KeysFrom(s.entries, i)
    decreases s, |s.entries| - i
  {
    var es := s.entries;
    if i == |es| then
      assert KeysFrom(es, i) == {};
      ExternalFile.Outcome(Ok(out), cache)
    else
      assert KeysFrom(es, i) == {es[i].0} + KeysFrom(es, i + 1);
      var (k, v) := es[i];
      if v.Dict? then
        var o := CorrectedFrom(v, 0, map[], eval, cache);
        match o.result
        case Err(e) => ExternalFile.Outcome(Err(e), o.cache)
        case Ok(m) => CorrectedFrom(s, i + 1, out[k := Map(m)], eval, o.cache)
      else if v.SpecObj? then
        var o := eval(v.head, cache);
        match o.result
        case Err(e) => ExternalFile.Outcome(Err(e), o.cache)
        case Ok(m) => CorrectedFrom(s, i + 1, out[k := Map(m)], eval, o.cache)
      else CorrectedFrom(s, i + 1, out[k := v.v], eval, cache)
  }

  /** `parse_nested_spec` with `out_dict[key] = parse_nested_spec(value, base_dir)`
      for dict values: the output has exactly the input's keys, at every
      level. */
  function ParseNested(es: seq<(string, Spec)>, eval: Chain.Eval, cache: Cache): (o: Outcome)
    ensures o.result.Ok? ==> o.result.value.Keys == KeysFrom(es, 0)
  {
    CorrectedFrom(Dict(es), 0, map[], eval, cache)
  }

  /** A value the loop copies as it is: neither a dict nor a spec object. */
  predicate Copied(s: Spec) {
    s.Plain? && !s.v.Map?
  }

  /** When no value is a dict, the code as written and the corrected code
      agree. */
  lemma {:induction false} AgreeWithoutDicts(es: seq<(string, Spec)>, i: nat, out: Metadata, eval: Chain.Eval, cache: Cache)
    requires i <= |es|
    requires forall j :: i <= j < |es| ==> !IsDict(es[j].1)
    ensures AsWrittenFrom(es, i, out, eval, cache) == CorrectedFrom(Dict(es), i, out, eval, cache)
    decreases |es| - i
  {
    if i < |es| {
      var (k, s) := es[i];
      if s.SpecObj? {
        var o := eval(s.head, cache);
        if o.result.Ok? {
          AgreeWithoutDicts(es, i + 1, out[k := Map(o.result.value)], eval, o.cache);
        }
      } else {
        AgreeWithoutDicts(es, i + 1, out[k := s.v], eval, cache);
      }
    }
  }

  /** As written, when the entries before the first dict value are all
      plain values, the failure is the `KeyError` for that dict's key. */
  lemma {:induction false} FirstDictKeyError(es: seq<(string, Spec)>, i: nat, out: Metadata, eval: Chain.Eval, cache: Cache, j: nat)
    requires i <= j < |es| && IsDict(es[j].1)
    requires forall m :: i <= m < j ==> Copied(es[m].1)
    ensures AsWrittenFrom(es, i, out, eval, cache).result == Err(KeyError(es[j].0, false))
    decreases j - i
  {
    if i < j {
      FirstDictKeyError(es, i + 1, out[es[i].0 := es[i].1.v], eval, cache, j);
    }
  }

  /** As written, each copied value appears unchanged under its key. */
  lemma {:induction false} CopiedUnchanged(es: seq<(string, Spec)>, i: nat, out: Metadata, eval: Chain.Eval, cache: Cache, j: nat)
    requires KeysDistinct(es) && i <= j < |es| && Copied(es[j].1)
    requires AsWrittenFrom(es, i, out, eval, cache).result.Ok?
    ensures AsWrittenFrom(es, i, out, eval, cache).result.value[es[j].0] == es[j].1.v
    decreases |es| - i
  {
    var (k, s) := es[i];
    if i == j {
      KeyKept(es, i + 1, out[k := s.v], eval, cache, k);
    } else if s.SpecObj? {
      var o := eval(s.head, cache);
      CopiedUnchanged(es, i + 1, out[k := Map(o.result.value)], eval, o.cache, j);
    } else {
      CopiedUnchanged(es, i + 1, out[k := s.v], eval, cache, j);
    }
  }

  /** A key set before entry `i` and not among the later keys keeps its
      value to the end. */
  lemma {:induction false} KeyKept(es: seq<(string, Spec)>, i: nat, out: Metadata, eval: Chain.Eval, cache: Cache, k: string)
    requires i <= |es| && k in out && forall m :: i <= m < |es| ==> es[m].0 != k
    requires AsWrittenFrom(es, i, out, eval, cache).result.Ok?
    ensures AsWrittenFrom(es, i, out, eval, cache).result.value[k] == out[k]
    decreases |es| - i
  {
    if i < |es| {
      var (k', s) := es[i];
      if s.SpecObj? {
        var o := eval(s.head, cache);
        KeyKept(es, i + 1, out[k' := Map(o.result.value)], eval, o.cache, k);
      } else {
        KeyKept(es, i + 1, out[k' := s.v], eval, cache, k);
      }
    }
  }

  /** Two entry lists that differ only in what is chained to their spec
      objects. */
  ghost predicate SameHeads(es: seq<(string, Spec)>, fs: seq<(string, Spec)>) {
    |es| == |fs| &&
    forall j :: 0 <= j < |es| ==>
      es[j].0 == fs[j].0 &&
      (es[j].1 == fs[j].1 || (es[j].1.SpecObj? && fs[j].1.SpecObj? && es[j].1.head == fs[j].1.head))
  }

  /** A spec value's chained children are never consulted: only the head's
      own `_parse` runs. */
  lemma {:induction false} ChildrenIgnored(es: seq<(string, Spec)>, fs: seq<(string, Spec)>, i: nat, out: Metadata, eval: Chain.Eval, cache: Cache)
    requires SameHeads(es, fs) && i <= |es|
    ensures AsWrittenFrom(es, i, out, eval, cache) == AsWrittenFrom(fs, i, out, eval, cache)
    decreases |es| - i
  {
    if i < |es| {
      var (k, s) := es[i];
      if !IsDict(s) {
        if s.SpecObj? {
          var o := eval(s.head, cache);
          if o.result.Ok? {
            ChildrenIgnored(es, fs, i + 1, out[k := Map(o.result.value)], eval, o.cache);
          }
        } else {
          ChildrenIgnored(es, fs, i + 1, out[k := s.v], eval, cache);
        }
      }
    }
  }

  /** No metadata reaches a nested `Glob`: `**None` fails, whatever the
      template. */
  lemma GlobValueFails(d: Dir, k: string, key: string, format: string, dirs: bool, children: seq<Node>, cache: Cache)
    ensures ParseNestedAsWritten([(k, SpecObj(GlobNode(key, format, dirs), children))], NestedEval(d), cache).result.Err?
    ensures ParseNestedAsWritten([(k, SpecObj(GlobNode(key, format, dirs), children))], NestedEval(d), cache).result.error.TypeError?
  {
  }

  /** A nested `Paths` value as written: its `_parse(base_dir)` takes the
      right arguments but then reads the undefined `a_list`, so the entry
      fails with `NameError` whenever the directory holds a match, and with
      the scan's `ValueError` otherwise. */
  lemma PathsValueFails(d: Dir, k: string, f: string, children: seq<Node>, cache: Cache)
    ensures var r := ParseNestedAsWritten([(k, SpecObj(PathsNode(f), children))], NestedEvalAsWritten(d), cache).result;
      && r.Err? && (r.error == NameError("a_list") <==> exists e, c :: PathSpec.Parsed(f, d, e, c))
      && (r.error != NameError("a_list") ==> r.error.ValueError?)
  {
  }

  /** `{"subject": {"id": 1}}` fails with `KeyError('subject')` as written,
      and gives `{"subject": {"id": 1}}` once corrected. */
  lemma NestedDictExample(eval: Chain.Eval, cache: Cache)
    ensures ParseNestedAsWritten([("subject", Dict([("id", Plain(Scalar(Int(1))))]))], eval, cache).result
         == Err(KeyError("subject", false))
    ensures ParseNested([("subject", Dict([("id", Plain(Scalar(Int(1))))]))], eval, cache).result
         == Ok(map["subject" := Map(map["id" := Scalar(Int(1))])])
  {
    var inner := Dict([("id", Plain(Scalar(Int(1))))]);
    assert CorrectedFrom(inner, 0, map[], eval, cache).result == Ok(map["id" := Scalar(Int(1))]);
  }
}
