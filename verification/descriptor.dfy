/** `BaseSpec.to_dict` and `from_dict`: a chain described as nested dicts of
    module name, class name and constructor arguments, and rebuilt from such
    a description by looking the class up and calling it. Module import and
    attribute lookup are a fixed registry of the spec classes. */
module Descriptor {
  import opened Wrappers
  import opened Values
  import opened Nodes
  import Template

  const PathModule := "onice_conversion.spec.path"
  const FileModule := "onice_conversion.spec.external_file"

  /** `self.__module__`: the module that defines the node's class. */
  function ModuleOf(n: Node): string {
    if n.FileNode? then FileModule else PathModule
  }

  /** `type(self).__name__`. */
  function ClassOf(n: Node): string {
    match n
    case PathNode(_) => "Path"
    case PathsNode(_) => "Paths"
    case GlobNode(_, _, _) => "Glob"
    case FileNode(l, _, _, _, _) =>
      match l
      case Json => "JSON"
      case Yaml => "YAML"
      case Mat(_) => "Mat"
  }

  /** A field-path item as it was passed: a `str` key or an `int` index. */
  function EncodeItem(i: Item): Value {
    match i
    case Key(k) => Text(k)
    case Index(j) => Scalar(Int(j))
  }

  /** The `field` argument as it was passed: one item, or a list of items. */
  function EncodeField(f: FieldPath): Value {
    match f
    case Single(i) => EncodeItem(i)
    case Steps(items) => List(seq(|items|, k requires 0 <= k < |items| => EncodeItem(items[k])))
  }

  /** `_init_args`: every parameter of the class's constructors (`retype`
      from `BaseSpec`, then the subclasses' own) with the value the node was
      built with. `retype` and `hook` are stored as `None`. */
  function InitArgs(n: Node): (r: map<string, Value>)
    ensures "retype" in r && r["retype"] == Scalar(Null)
  {
    match n
    case PathNode(f) => map["retype" := Scalar(Null), "format" := Text(f)]
    case PathsNode(f) => map["retype" := Scalar(Null), "format" := Text(f)]
    case GlobNode(k, f, dirs) =>
      map["retype" := Scalar(Null), "key" := Text(k), "format" := Text(f), "only_dirs" := Scalar(Bool(dirs))]
    case FileNode(l, p, k, field, c) =>
      var base := map["retype" := Scalar(Null), "path" := Text(p), "key" := Text(k),
                      "field" := EncodeField(field), "cache" := Scalar(Bool(c))];
      match l
      case Json => base["hook" := Scalar(Null)]
      case Yaml => base
      case Mat(s) => base["simplified" := Scalar(Bool(s))]
  }

  /** The entry describing one node: `module`, `class` and `kwargs`. */
  function Describe(n: Node): (r: map<string, Value>)
    ensures r.Keys == {"module", "class", "kwargs"}
    ensures r["module"] == Text(ModuleOf(n)) && r["class"] == Text(ClassOf(n))
    ensures r["kwargs"] == Map(InitArgs(n))
  {
    map["module" := Text(ModuleOf(n)), "class" := Text(ClassOf(n)), "kwargs" := Map(InitArgs(n))]
  }

  /** `to_dict` of the chain's head: its own entry plus a `children` list
      with one entry per node of `children()`, in order; child entries have
      no `children` field. */
  function ToDict(chain: seq<Node>): (r: Value)
    requires |chain| > 0
    ensures r.Map? && r.entries.Keys == {"module", "class", "kwargs", "children"}
    ensures r.entries["module"] == Text(ModuleOf(chain[0])) && r.entries["class"] == Text(ClassOf(chain[0]))
    ensures r.entries["kwargs"] == Map(InitArgs(chain[0]))
    ensures var cs := r.entries["children"];
      && cs.List? && |cs.items| == |chain| - 1
      && forall i :: 0 <= i < |cs.items| ==>
           cs.items[i].Map? && cs.items[i].entries.Keys == {"module", "class", "kwargs"}
           && cs.items[i].entries["module"] == Text(ModuleOf(chain[i + 1]))
           && cs.items[i].entries["class"] == Text(ClassOf(chain[i + 1]))
           && cs.items[i].entries["kwargs"] == Map(InitArgs(chain[i + 1]))
  {
    Map(Describe(chain[0])["children" := List(DescribeAll(chain[1..]))])
  }

  /** One entry per node, in order. */
  function DescribeAll(ns: seq<Node>): (r: seq<Value>)
    ensures |r| == |ns| && forall i :: 0 <= i < |ns| ==> r[i] == Map(Describe(ns[i]))
  {
    seq(|ns|, i requires 0 <= i < |ns| => Map(Describe(ns[i])))
  }

  /** `d[k]` on a dict-like value: a missing key is a `KeyError`; a value
      without item access is a `TypeError`. */
  function Get(d: Value, k: string): (r: Result<Value>)
    ensures r.Ok? <==> (d.Map? && k in d.entries) || (d.Obj? && k in d.keyed)
    ensures r.Err? && (d.Map? || d.Obj?) ==> r.error == KeyError(k, false)
    ensures r.Err? && !d.Map? && !d.Obj? ==> r.error.TypeError?
  {
    match d
    case Map(m) => if k in m then Ok(m[k]) else Err(KeyError(k, false))
    case Obj(keyed, _) => if k in keyed then Ok(keyed[k]) else Err(KeyError(k, false))
    case _ => Err(TypeError("object is not subscriptable"))
  }

  /** The spec classes a module defines. */
  function ClassesOf(moduleName: string): set<string> {
    if moduleName == PathModule then {"Path", "Paths", "Glob"}
    else if moduleName == FileModule then {"JSON", "YAML", "Mat"}
    else {}
  }

  /** `importlib.import_module`: only the two spec modules are known here;
      a non-string name fails on `name.startswith`. */
  function Import(m: Value): (r: Result<string>)
    ensures r.Ok? <==> m.Scalar? && m.atom.Str? && (m.atom.s == PathModule || m.atom.s == FileModule)
    ensures r.Ok? ==> r.value == m.atom.s
  {
    if !(m.Scalar? && m.atom.Str?) then Err(AttributeError("startswith"))
    else if m.atom.s == PathModule || m.atom.s == FileModule then Ok(m.atom.s)
    else Err(ImportError(m.atom.s, ""))
  }

  /** `getattr(module, name)` for a spec class of the module. */
  function Lookup(moduleName: string, c: Value): (r: Result<string>)
    ensures r.Ok? <==> c.Scalar? && c.atom.Str? && c.atom.s in ClassesOf(moduleName)
    ensures r.Ok? ==> r.value == c.atom.s
  {
    if !(c.Scalar? && c.atom.Str?) then Err(TypeError("attribute name must be string"))
    else if c.atom.s in ClassesOf(moduleName) then Ok(c.atom.s)
    else Err(AttributeError(c.atom.s))
  }

  /** A keyword argument the constructor requires. */
  function Required(kw: map<string, Value>, name: string): (r: Result<Value>)
    ensures r.Ok? <==> name in kw
    ensures r.Ok? ==> r.value == kw[name]
    ensures r.Err? ==> r.error.TypeError?
  {
    if name in kw then Ok(kw[name]) else Err(TypeError("missing a required argument: " + name))
  }

  function AsString(v: Value): (r: Result<string>)
    ensures r.Ok? <==> v.Scalar? && v.atom.Str?
    ensures r.Ok? ==> v == Text(r.value)
  {
    if v.Scalar? && v.atom.Str? then Ok(v.atom.s) else Err(TypeError("expected str"))
  }

  /** A flag with a default, used when the argument is absent. */
  function Flag(kw: map<string, Value>, name: string, default: bool): (r: Result<bool>)
    ensures name !in kw ==> r == Ok(default)
    ensures name in kw ==> (r.Ok? <==> kw[name].Scalar? && kw[name].atom.Bool?)
    ensures name in kw && r.Ok? ==> kw[name] == Scalar(Bool(r.value))
  {
    if name !in kw then Ok(default)
    else if kw[name].Scalar? && kw[name].atom.Bool? then Ok(kw[name].atom.b)
    else Err(TypeError("expected bool: " + name))
  }

  function DecodeItem(v: Value): (r: Result<Item>)
    ensures r.Ok? ==> EncodeItem(r.value) == v
  {
    if v.Scalar? && v.atom.Str? then Ok(Key(v.atom.s))
    else if v.Scalar? && v.atom.Int? then Ok(Index(v.atom.i))
    else Err(TypeError("field items must be str or int"))
  }

  function DecodeItems(vs: seq<Value>): (r: Result<seq<Item>>)
    ensures r.Ok? ==> |r.value| == |vs| && forall i :: 0 <= i < |vs| ==> EncodeItem(r.value[i]) == vs[i]
  {
    if |vs| == 0 then Ok([])
    else
      var first :- DecodeItem(vs[0]);
      var rest :- DecodeItems(vs[1..]);
      Ok([first] + rest)
  }

  function DecodeField(v: Value): (r: Result<FieldPath>)
    ensures r.Ok? ==> EncodeField(r.value) == v
  {
    if v.List? then
      var items :- DecodeItems(v.items);
      Ok(Steps(items))
    else
      var item :- DecodeItem(v);
      Ok(Single(item))
  }

  /** `spec_class(**kwargs)`. Arguments the class does not name are passed
      up to `BaseSpec.__init__`, whose `**kwargs` swallows them. */
  function Construct(cls: string, kwargs: Value): (r: Result<Node>)
    ensures r.Ok? ==> ClassOf(r.value) == cls
    ensures r.Ok? && (cls == "Path" || cls == "Paths") ==> Valid(r.value)
  {
    if !kwargs.Map? then Err(TypeError("argument after ** must be a mapping"))
    else
      var kw := kwargs.entries;
      if cls == "Path" || cls == "Paths" then
        var f :- Required(kw, "format");
        var format :- AsString(f);
        MakePathNode(format, cls == "Paths")
      else if cls == "Glob" then
        var k :- Required(kw, "key");
        var f :- Required(kw, "format");
        var key :- AsString(k);
        var format :- AsString(f);
        var dirs :- Flag(kw, "only_dirs", false);
        Ok(GlobNode(key, format, dirs))
      else if cls == "JSON" || cls == "YAML" || cls == "Mat" then
        var p :- Required(kw, "path");
        var k :- Required(kw, "key");
        var fv :- Required(kw, "field");
        var path :- AsString(p);
        var key :- AsString(k);
        var field :- DecodeField(fv);
        var cache :- Flag(kw, "cache", true);
        if cls == "JSON" then
          if "hook" in kw && kw["hook"] != Scalar(Null) then Err(TypeError("hook is not modelled"))
          else Ok(FileNode(Json, path, key, field, cache))
        else if cls == "YAML" then Ok(FileNode(Yaml, path, key, field, cache))
        else
          var s :- Flag(kw, "simplified", true);
          Ok(FileNode(Mat(s), path, key, field, cache))
      else Err(TypeError("not a spec class"))
  }

  /** One entry: import the module, look the class up, call it with the
      entry's `kwargs`, in that order. */
  function Instantiate(d: Value): (r: Result<Node>)
    ensures r.Ok? ==> Get(d, "module").Ok? && Get(d, "class").Ok? && Get(d, "kwargs").Ok?
    ensures r.Ok? ==> Get(d, "module").value == Text(ModuleOf(r.value))
    ensures r.Ok? ==> Get(d, "class").value == Text(ClassOf(r.value))
  {
    var m :- Get(d, "module");
    var moduleName :- Import(m);
    var c :- Get(d, "class");
    var cls :- Lookup(moduleName, c);
    var kwargs :- Get(d, "kwargs");
    var n :- Construct(cls, kwargs);
    assert ModuleOf(n) == moduleName by {
      if moduleName == PathModule {
        assert cls in {"Path", "Paths", "Glob"};
      } else {
        assert cls in {"JSON", "YAML", "Mat"};
      }
    }
    Ok(n)
  }

  /** The child entries, each instantiated and added in order; the first
      failure stops the rebuild. */
  function InstantiateAll(ds: seq<Value>): (r: Result<seq<Node>>)
    ensures r.Ok? ==> |r.value| == |ds|
    ensures r.Ok? ==> forall i :: 0 <= i < |ds| ==> Instantiate(ds[i]) == Ok(r.value[i])
    ensures r.Err? ==> exists i :: 0 <= i < |ds| && Instantiate(ds[i]) == Err(r.error)
  {
    if |ds| == 0 then Ok([])
    else
      var first :- Instantiate(ds[0]);
      var rest :- InstantiateAll(ds[1..]);
      Ok([first] + rest)
  }

  /** `len(v)`: dicts, lists, strings, sets and arrays with at least one
      axis have a length; anything else is a `TypeError`. */
  function Len(v: Value): (r: Result<nat>)
    ensures r.Ok? <==> v.Map? || v.List? || v.StrSet? || (v.Array? && |v.dims| > 0) || (v.Scalar? && v.atom.Str?)
    ensures r.Err? ==> r.error.TypeError?
    ensures r.Ok? && (v.List? || v.Array?) ==> r.value == |Items(v)|
    ensures r.Ok? && v.Map? ==> r.value == |v.entries|
    ensures r.Ok? && v.Scalar? ==> r.value == |v.atom.s|
    ensures r.Ok? && v.StrSet? ==> r.value == |v.strs|
  {
    match v
    case Map(m) => Ok(|m|)
    case List(items) => Ok(|items|)
    case StrSet(strs) => Ok(|strs|)
    case Array(dims, elems) => if |dims| > 0 then Ok(|elems|) else Err(TypeError("len() of unsized object"))
    case Scalar(Str(s)) => Ok(|s|)
    case _ => Err(TypeError("object has no len()"))
  }

  /** What iterating over a list or an array yields: its items, or its
      sub-arrays along the first axis. */
  function Items(v: Value): seq<Value>
    requires v.List? || v.Array?
  {
    if v.List? then v.items else v.elems
  }

  /** `from_dict`: the head from the top-level entry; then, when `children`
      is not empty, each of its entries appended with `+=`, which puts it at
      the tail. Iterating over a non-empty dict, string or set yields
      strings, and indexing a string by `'module'` is a `TypeError`. */
  function FromDict(d: Value): (r: Result<seq<Node>>)
    ensures r.Ok? ==> |r.value| > 0 && Instantiate(d) == Ok(r.value[0])
    ensures r.Ok? ==> Get(d, "children").Ok? && Len(Get(d, "children").value).Ok?
    ensures r.Ok? && Len(Get(d, "children").value).value == 0 ==> r.value == [r.value[0]]
    ensures r.Ok? && Len(Get(d, "children").value).value > 0 ==>
      var cs := Get(d, "children").value;
      (cs.List? || cs.Array?) && InstantiateAll(Items(cs)) == Ok(r.value[1..])
    ensures Instantiate(d).Err? ==> r == Err(Instantiate(d).error)
    ensures Instantiate(d).Ok? && Get(d, "children").Err? ==> r == Err(Get(d, "children").error)
    ensures r.Err? && Instantiate(d).Ok? && Get(d, "children").Ok? ==>
      var cs := Get(d, "children").value;
      Len(cs).Err? || ((cs.List? || cs.Array?) && InstantiateAll(Items(cs)).Err?) || r.error.TypeError?
  {
    var head :- Instantiate(d);
    var children :- Get(d, "children");
    var count :- Len(children);
    if count == 0 then Ok([head])
    else if children.List? || children.Array? then
      var rest :- InstantiateAll(Items(children));
      assert ([head] + rest)[1..] == rest;
      Ok([head] + rest)
    else Err(TypeError("string indices must be integers"))
  }

  /** An empty `children` of any sized kind (`[]`, `{}`, `""`, an empty set
      or array) leaves the head alone. */
  lemma EmptyChildrenHeadOnly(d: Value, head: Node, cs: Value)
    requires Instantiate(d) == Ok(head) && Get(d, "children") == Ok(cs) && Len(cs) == Ok(0)
    ensures FromDict(d) == Ok([head])
  {
  }

  /** A non-empty dict, string or set as `children` fails with `TypeError`. */
  lemma NonListChildrenRejected(d: Value, cs: Value)
    requires Instantiate(d).Ok? && Get(d, "children") == Ok(cs)
    requires cs.Map? || cs.StrSet? || (cs.Scalar? && cs.atom.Str?)
    requires Len(cs).Ok? && Len(cs).value > 0
    ensures FromDict(d).Err? && FromDict(d).error.TypeError?
  {
  }

  /** The configurations construction accepts: a path template with a named
      field. */
  ghost predicate AllValid(chain: seq<Node>) {
    forall i :: 0 <= i < |chain| ==> Valid(chain[i])
  }

  lemma DecodeEncodeField(f: FieldPath)
    ensures DecodeField(EncodeField(f)) == Ok(f)
  {
    match f
    case Single(i) =>
    case Steps(items) =>
      DecodeEncodeItems(items);
  }

  lemma {:induction false} DecodeEncodeItems(items: seq<Item>)
    ensures DecodeItems(seq(|items|, k requires 0 <= k < |items| => EncodeItem(items[k]))) == Ok(items)
    decreases |items|
  {
    var vs := seq(|items|, k requires 0 <= k < |items| => EncodeItem(items[k]));
    if |items| > 0 {
      var tail := items[1..];
      DecodeEncodeItems(tail);
      assert vs[1..] == seq(|tail|, k requires 0 <= k < |tail| => EncodeItem(tail[k]));
      assert [items[0]] + tail == items;
    }
  }

  /** A file node's constructor arguments rebuild it. */
  lemma ConstructFile(n: Node)
    requires n.FileNode?
    ensures Construct(ClassOf(n), Map(InitArgs(n))) == Ok(n)
  {
    DecodeEncodeField(n.field);
    var kw := InitArgs(n);
    assert Required(kw, "path") == Ok(Text(n.path));
    assert Required(kw, "key") == Ok(Text(n.key));
    assert Required(kw, "field") == Ok(EncodeField(n.field));
    assert Flag(kw, "cache", true) == Ok(n.cache);
    if n.loader.Mat? {
      assert Flag(kw, "simplified", true) == Ok(n.loader.simplified);
    }
  }

  /** A path-token node's constructor arguments rebuild it. */
  lemma ConstructPathToken(n: Node)
    requires !n.FileNode? && Valid(n)
    ensures Construct(ClassOf(n), Map(InitArgs(n))) == Ok(n)
  {
    if n.PathNode? || n.PathsNode? {
      assert Template.HasNamedGroup(Template.Segments(n.format));
    } else {
      var kw := InitArgs(n);
      assert Flag(kw, "only_dirs", false) == Ok(n.onlyDirs);
    }
  }

  /** Every node rebuilds from an entry holding its own `module`, `class`
      and `kwargs`, whatever else the entry holds. */
  lemma InstantiateDescribe(n: Node, m: map<string, Value>)
    requires Valid(n)
    requires "module" in m && m["module"] == Text(ModuleOf(n))
    requires "class" in m && m["class"] == Text(ClassOf(n))
    requires "kwargs" in m && m["kwargs"] == Map(InitArgs(n))
    ensures Instantiate(Map(m)) == Ok(n)
  {
    if n.FileNode? {
      ConstructFile(n);
    } else {
      ConstructPathToken(n);
    }
    assert Import(Text(ModuleOf(n))) == Ok(ModuleOf(n));
    assert Lookup(ModuleOf(n), Text(ClassOf(n))) == Ok(ClassOf(n));
  }

  /** `from_dict` on an entry whose head and children rebuild. */
  lemma FromDictParts(d: Value, head: Node, items: seq<Value>, rest: seq<Node>)
    requires Instantiate(d) == Ok(head) && Get(d, "children") == Ok(List(items))
    requires InstantiateAll(items) == Ok(rest)
    ensures FromDict(d) == Ok([head] + rest)
  {
    if |items| == 0 {
      assert rest == [] && [head] + rest == [head];
    }
  }

  /** `from_dict(spec.to_dict())` rebuilds a chain with the same nodes in
      the same order. */
  lemma RoundTrip(chain: seq<Node>)
    requires |chain| > 0 && AllValid(chain)
    ensures FromDict(ToDict(chain)) == Ok(chain)
  {
    var d := ToDict(chain);
    var items := d.entries["children"].items;
    InstantiateDescribe(chain[0], d.entries);
    forall i | 0 <= i < |items|
      ensures Instantiate(items[i]) == Ok(chain[i + 1])
    {
      InstantiateDescribe(chain[i + 1], items[i].entries);
    }
    InstantiateAllOk(items, chain[1..]);
    FromDictParts(d, chain[0], items, chain[1..]);
    assert [chain[0]] + chain[1..] == chain;
  }

  lemma {:induction false} InstantiateAllOk(ds: seq<Value>, ns: seq<Node>)
    requires |ds| == |ns| && forall i :: 0 <= i < |ds| ==> Instantiate(ds[i]) == Ok(ns[i])
    ensures InstantiateAll(ds) == Ok(ns)
    decreases |ds|
  {
    if |ds| > 0 {
      InstantiateAllOk(ds[1..], ns[1..]);
      assert [ns[0]] + ns[1..] == ns;
    }
  }

  /** A description naming a class its module does not define fails with
      `AttributeError`; an unknown module fails with `ImportError`. */
  lemma UnknownClassRejected(kwargs: Value)
    ensures Instantiate(Map(map["module" := Text(PathModule), "class" := Text("JSON"), "kwargs" := kwargs]))
         == Err(AttributeError("JSON"))
    ensures Instantiate(Map(map["module" := Text("os"), "class" := Text("Path"), "kwargs" := kwargs]))
         == Err(ImportError("os", ""))
  {
  }
}
