/** External-file nodes (`JSON`, `YAML`, `Mat`): choosing the file, the
    shared load cache, and selecting a value from the loaded tree by a field
    path with a key-then-attribute fallback. */
module ExternalFile {
  import opened Wrappers
  import opened Values
  import opened Files
  import opened Nodes
  import Seqs
  import MatFile

  /** `loaded_files`: loaded trees by absolute path, one dict shared by every
      file node whatever its loader. */
  type Cache = map<string, Value>

  /** What `x[item]` does: give a value, raise `KeyError`/`IndexError` (the
      two exceptions the attribute fallback catches), or raise anything else
      (which propagates). */
  datatype ItemLookup = Found(v: Value) | Missing | Raised(e: Error)

  /** Python's reading of an integer index into a sequence of length `n`:
      negative indices count from the end. */
  function NormIndex(i: int, n: nat): (r: Option<nat>)
    ensures r.Some? <==> i < n && n + i >= 0
    ensures r.Some? ==> r.value < n && (r.value == i || r.value == n + i)
  {
    if 0 <= i < n then Some(i) else if i < 0 && n + i >= 0 then Some(n + i) else None
  }

  function At(xs: seq<Value>, i: int): ItemLookup {
    match NormIndex(i, |xs|)
    case Some(j) => Found(xs[j])
    case None => Missing
  }

  /** `x[item]`. A dict (or hook object) misses a key it lacks and every
      integer, since its keys are strings; lists and arrays miss an index out
      of range; an array also misses a string index, while a list or string
      rejects one with `TypeError`; structs, sets and other scalars are not
      subscriptable. */
  function GetItem(v: Value, item: Item): ItemLookup {
    match v
    case Map(m) => if item.Key? && item.name in m then Found(m[item.name]) else Missing
    case Obj(keyed, _) => if item.Key? && item.name in keyed then Found(keyed[item.name]) else Missing
    case List(xs) =>
      if item.Key? then Raised(TypeError("list indices must be integers or slices")) else At(xs, item.i)
    case Array(_, xs) => if item.Key? then Missing else At(xs, item.i)
    case Scalar(Str(s)) =>
      if item.Key? then Raised(TypeError("string indices must be integers"))
      else (match NormIndex(item.i, |s|) case Some(j) => Found(Text([s[j]])) case None => Missing)
    case _ => Raised(TypeError("object is not subscriptable"))
  }

  /** `getattr(x, item)`: an integer is not an attribute name; a hook object
      and a struct have their attributes; nothing else has the attribute. */
  function GetAttr(v: Value, item: Item): Result<Value> {
    if item.Index? then Err(TypeError("attribute name must be string"))
    else match v
      case Obj(_, attrs) => if item.name in attrs then Ok(attrs[item.name]) else Err(AttributeError(item.name))
      case Struct(ms) =>
        if MatFile.HasMember(ms, item.name) then Ok(MatFile.MemberValue(ms, item.name))
        else Err(AttributeError(item.name))
      case _ => Err(AttributeError(item.name))
  }

  /** One step of `_sub_select`: item access, falling back to attribute
      access only when item access raised `KeyError` or `IndexError`. */
  function Step(v: Value, item: Item): (r: Result<Value>)
    ensures v.Map? && item.Key? && item.name in v.entries ==> r == Ok(v.entries[item.name])
    ensures v.Map? && !(item.Key? && item.name in v.entries) ==> r.Err?
    ensures (v.List? || (v.Array? && item.Index?)) ==>
      (r.Ok? <==> item.Index? && NormIndex(item.i, |if v.List? then v.items else v.elems|).Some?)
    ensures v.Obj? && item.Key? ==>
      (r.Ok? <==> item.name in v.keyed || item.name in v.attrs) &&
      (item.name in v.keyed ==> r == Ok(v.keyed[item.name]))
    ensures r.Err? ==> r.error.TypeError? || r.error.AttributeError?
  {
    match GetItem(v, item)
    case Found(x) => Ok(x)
    case Missing => GetAttr(v, item)
    case Raised(e) => Err(e)
  }

  /** The loop of `_sub_select` over a non-empty tuple of items, starting
      from the loaded file. */
  function Walk(v: Value, items: seq<Item>): (r: Result<Value>)
    ensures r.Err? ==> r.error.TypeError? || r.error.AttributeError?
    decreases |items|
  {
    if |items| == 0 then Ok(v)
    else
      var w :- Step(v, items[0]);
      Walk(w, items[1..])
  }

  lemma WalkOne(v: Value, items: seq<Item>)
    ensures |items| == 1 ==> Walk(v, items) == Step(v, items[0])
  {
    if |items| == 1 && Step(v, items[0]).Ok? {
      assert items[1..] == [];
      assert Walk(Step(v, items[0]).value, []) == Step(v, items[0]);
    }
  }

  /** `BaseExternalFileSpec._sub_select`: a single item is one step; a
      tuple or list descends one level per item; an empty tuple leaves the
      initial `{}`. */
  function SubSelect(v: Value, field: FieldPath): (r: Result<Value>)
    ensures field.Steps? && |field.items| == 0 ==> r == Ok(Map(map[]))
    ensures field.Steps? && |field.items| == 1 ==> r == Step(v, field.items[0])
    ensures r.Err? ==> r.error.TypeError? || r.error.AttributeError?
  {
    match field
    case Single(item) => Step(v, item)
    case Steps(items) =>
      if |items| == 0 then Ok(Map(map[]))
      else
        WalkOne(v, items);
        Walk(v, items)
  }

  /** Descending along `p + q` is descending along `p`, then along `q` from
      where `p` ended; an error along `p` stops the descent. */
  lemma {:induction false} WalkConcat(v: Value, p: seq<Item>, q: seq<Item>)
    ensures Walk(v, p + q) == (match Walk(v, p) case Ok(w) => Walk(w, q) case Err(e) => Err(e))
    decreases |p|
  {
    if |p| == 0 {
      assert p + q == q;
    } else {
      assert (p + q)[0] == p[0];
      assert (p + q)[1..] == p[1..] + q;
      match Step(v, p[0])
      case Ok(w) => WalkConcat(w, p[1..], q);
      case Err(_) =>
    }
  }

  /** Plain dictionary descent, the reference for a field path of keys. */
  function KeyPath(v: Value, ks: seq<string>): Option<Value>
    decreases |ks|
  {
    if |ks| == 0 then Some(v)
    else if v.Map? && ks[0] in v.entries then KeyPath(v.entries[ks[0]], ks[1..])
    else None
  }

  /** The field path made of the keys `ks`. */
  function Keys(ks: seq<string>): (r: seq<Item>)
    ensures |r| == |ks| && forall i :: 0 <= i < |ks| ==> r[i] == Key(ks[i])
  {
    seq(|ks|, i requires 0 <= i < |ks| => Key(ks[i]))
  }

  /** Where nested dicts hold every key of the path, the selection is the
      nested value. */
  lemma {:induction false} WalkFollowsKeys(v: Value, ks: seq<string>)
    requires KeyPath(v, ks).Some?
    ensures Walk(v, Keys(ks)) == Ok(KeyPath(v, ks).value)
    decreases |ks|
  {
    if |ks| > 0 {
      assert Keys(ks)[1..] == Keys(ks[1..]);
      WalkFollowsKeys(v.entries[ks[0]], ks[1..]);
    }
  }

  /** `Mat._sub_select`: the plain selection, then unwrapping of singleton
      arrays. */
  function MatSelect(v: Value, field: FieldPath): (r: Result<Value>)
    ensures r.Ok? ==> !MatFile.Wrapped(r.value)
    ensures SubSelect(v, field).Err? ==> r == SubSelect(v, field)
  {
    var w :- SubSelect(v, field);
    MatFile.Unwrap(w)
  }

  /** The selection a node of loader `l` makes. */
  function Selection(l: Loader, v: Value, field: FieldPath): Result<Value> {
    if l.Mat? then MatSelect(v, field) else SubSelect(v, field)
  }

  /** `_load_file` at relative path `rel`: a missing path and a directory
      fail to open; a simplified `Mat` node converts what it loads. */
  function LoadFile(d: Dir, l: Loader, rel: string): (r: Result<Value>)
    ensures r.Ok? ==> exists e :: e in d.listing && e.path == rel && !e.isDir
    ensures (forall e :: e in d.listing ==> e.path != rel) ==> r == Err(FileNotFoundError(Join(d.root, rel)))
    ensures r.Err? ==> r.error.FileNotFoundError? || r.error.IsADirectoryError? || r.error.TypeError?
  {
    match Lookup(d.listing, rel)
    case None => Err(FileNotFoundError(Join(d.root, rel)))
    case Some(e) =>
      if e.isDir then Err(IsADirectoryError(Join(d.root, rel)))
      else if l == Mat(true) then MatFile.LoadClean(e.content)
      else Ok(e.content)
  }

  /** The entry `e` is the only entry of the listing the pattern matches. */
  ghost predicate OnlyMatch(d: Dir, pattern: string, e: Entry) {
    e in d.listing && d.globMatch(pattern, e.path) &&
    forall e2 :: e2 in d.listing && d.globMatch(pattern, e2.path) ==> e2 == e
  }

  /** The file a node reads, relative to the base: a path with `*` must glob
      to exactly one entry, otherwise `AmbiguityError` (also for no match);
      a path without `*` is taken as it is, unchecked. */
  function ResolveFile(d: Dir, path: string): (r: Result<string>)
    ensures '*' !in path ==> r == Ok(path)
    ensures '*' in path && r.Ok? ==> exists e :: OnlyMatch(d, path, e) && e.path == r.value
    ensures r.Err? ==> '*' in path && r.error == AmbiguityError(path, false)
  {
    if '*' in path then
      var ms := GlobRel(d, path);
      if |ms| == 1 then
        assert OnlyMatch(d, path, ms[0]) by {
          assert ms[0] in ms;
        }
        Ok(ms[0].path)
      else Err(AmbiguityError(path, false))
    else Ok(path)
  }

  lemma {:induction false} DistinctFilter(es: seq<Entry>, pattern: string, m: (string, string) -> bool)
    requires Seqs.Distinct(es)
    ensures Seqs.Distinct(GlobRelFrom(es, pattern, m))
    decreases |es|
  {
    if |es| > 0 {
      var rest := GlobRelFrom(es[1..], pattern, m);
      DistinctFilter(es[1..], pattern, m);
      var head: seq<Entry> := if m(pattern, es[0].path) then [es[0]] else [];
      assert es[0] !in es[1..];
      assert es[0] !in rest;
      var r := head + rest;
      forall i, j | 0 <= i < j < |r|
        ensures r[i] != r[j]
      {
        if |head| == 1 && i == 0 {
          assert r[j] == rest[j - 1];
        } else {
          assert r[i] == rest[i - |head|] && r[j] == rest[j - |head|];
        }
      }
    }
  }

  /** With a listing free of repeats, a wildcard path that globs to exactly
      one entry resolves to it. */
  lemma ResolveFileFindsOnlyMatch(d: Dir, path: string, e: Entry)
    requires Seqs.Distinct(d.listing) && '*' in path && OnlyMatch(d, path, e)
    ensures ResolveFile(d, path) == Ok(e.path)
  {
    var ms := GlobRel(d, path);
    DistinctFilter(d.listing, path, d.globMatch);
    assert e in ms;
    forall i | 0 <= i < |ms|
      ensures ms[i] == e
    {
      assert ms[i] in ms;
    }
    Seqs.DistinctHasOther(ms, e);
  }

  /** One run of a node against the base and the cache: the node's result and
      the cache it leaves. */
  datatype Outcome = Outcome(result: Result<Metadata>, cache: Cache)

  /** `{key: selected}`. */
  function Select(n: Node, v: Value): (r: Result<Metadata>)
    requires n.FileNode?
    ensures r.Ok? ==> r.value.Keys == {n.key}
    ensures r.Ok? <==> Selection(n.loader, v, n.field).Ok?
    ensures r.Ok? ==> r.value[n.key] == Selection(n.loader, v, n.field).value
    ensures r.Err? ==> r.error == Selection(n.loader, v, n.field).error
  {
    var x :- Selection(n.loader, v, n.field);
    Ok(map[n.key := x])
  }

  /** What the node yields from reading `rel` afresh: the load error, or the
      selection from the loaded tree. */
  function Fresh(n: Node, d: Dir, rel: string): Result<Metadata>
    requires n.FileNode?
  {
    match LoadFile(d, n.loader, rel)
    case Err(e) => Err(e)
    case Ok(v) => Select(n, v)
  }

  /** `BaseExternalFileSpec._parse`. With the cache on, a path already
      cached is not loaded again and a freshly loaded tree is stored (even
      when the selection from it then fails); with the cache off the cache
      is neither read nor written. */
  function FileParse(n: Node, d: Dir, cache: Cache): (o: Outcome)
    requires n.FileNode?
    ensures o.result.Ok? ==> o.result.value.Keys == {n.key}
    ensures !n.cache ==> o.cache == cache
    ensures forall p :: p in cache ==> p in o.cache && o.cache[p] == cache[p]
    ensures forall p :: p in o.cache && p !in cache ==>
      exists rel :: p == Join(d.root, rel) && LoadFile(d, n.loader, rel) == Ok(o.cache[p])
    ensures ResolveFile(d, n.path).Err? ==> o == Outcome(Err(ResolveFile(d, n.path).error), cache)
    ensures ResolveFile(d, n.path).Ok? ==>
      var rel := ResolveFile(d, n.path).value;
      var p := Join(d.root, rel);
      && (n.cache && p in cache ==> o == Outcome(Select(n, cache[p]), cache))
      && (!(n.cache && p in cache) ==> o.result == Fresh(n, d, rel))
      && (n.cache && p !in cache && LoadFile(d, n.loader, rel).Ok? ==>
            o.cache == cache[p := LoadFile(d, n.loader, rel).value])
      && (LoadFile(d, n.loader, rel).Err? ==> o.cache == cache)
  {
    match ResolveFile(d, n.path)
    case Err(e) => Outcome(Err(e), cache)
    case Ok(rel) =>
      var p := Join(d.root, rel);
      if n.cache && p in cache then Outcome(Select(n, cache[p]), cache)
      else
        match LoadFile(d, n.loader, rel)
        case Err(e) => Outcome(Err(e), cache)
        case Ok(v) => Outcome(Select(n, v), if n.cache then cache[p := v] else cache)
  }

  /** With the cache off, the cache given has no influence on the result. */
  lemma CacheOffIgnoresCache(n: Node, d: Dir, c1: Cache, c2: Cache)
    requires n.FileNode? && !n.cache
    ensures FileParse(n, d, c1).result == FileParse(n, d, c2).result
  {
  }

  /** Whether two loaders produce the same tree from the same file (only
      the simplified `Mat` loader converts). */
  predicate SameLoad(l1: Loader, l2: Loader) {
    (l1 == Mat(true)) == (l2 == Mat(true))
  }

  /** Every cached tree under the base is what a loader like `l` would load. */
  ghost predicate Coherent(cache: Cache, d: Dir, l: Loader) {
    forall rel :: Join(d.root, rel) in cache ==> LoadFile(d, l, rel) == Ok(cache[Join(d.root, rel)])
  }

  /** A cache filled only by loaders like the node's own changes nothing: the
      result is what a cold run gives, and the cache stays coherent. */
  lemma CoherentCacheTransparent(n: Node, d: Dir, cache: Cache)
    requires n.FileNode? && Coherent(cache, d, n.loader)
    ensures FileParse(n, d, cache).result == FileParse(n, d, map[]).result
    ensures Coherent(FileParse(n, d, cache).cache, d, n.loader)
  {
    var o := FileParse(n, d, cache);
    forall rel | Join(d.root, rel) in o.cache
      ensures LoadFile(d, n.loader, rel) == Ok(o.cache[Join(d.root, rel)])
    {
      var p := Join(d.root, rel);
      if p !in cache {
        var rel2 :| p == Join(d.root, rel2) && LoadFile(d, n.loader, rel2) == Ok(o.cache[p]);
        JoinInjective(d.root, rel, rel2);
      }
    }
  }

  /** Loaders that load alike keep each other's caches coherent. */
  lemma CoherentAcrossLoaders(cache: Cache, d: Dir, l1: Loader, l2: Loader)
    requires SameLoad(l1, l2) && Coherent(cache, d, l1)
    ensures Coherent(cache, d, l2)
  {
    forall rel | Join(d.root, rel) in cache
      ensures LoadFile(d, l2, rel) == Ok(cache[Join(d.root, rel)])
    {
      assert LoadFile(d, l1, rel) == LoadFile(d, l2, rel);
    }
  }

  /** The cache is keyed by path alone: once a simplified `Mat` node has
      cached a file, a `JSON` node reading the same path with the cache on
      selects from the converted tree, not from what it would load itself. */
  lemma CacheSharedAcrossLoaders()
    ensures var d := Dir("/data", [Entry("f", false, Map(map["s" := Struct([Member("a", Scalar(Int(1)))])]))],
                         (p, s) => false);
            var mat := FileNode(Mat(true), "f", "x", Single(Key("s")), true);
            var json := FileNode(Json, "f", "x", Single(Key("s")), true);
            var warm := FileParse(mat, d, map[]).cache;
            FileParse(json, d, warm).result != FileParse(json, d, map[]).result
  {
    var st := Struct([Member("a", Scalar(Int(1)))]);
    var content := Map(map["s" := st]);
    var d := Dir("/data", [Entry("f", false, content)], (p, s) => false);
    var mat := FileNode(Mat(true), "f", "x", Single(Key("s")), true);
    var json := FileNode(Json, "f", "x", Single(Key("s")), true);
    assert Lookup(d.listing, "f") == Some(Entry("f", false, content));
    assert "s" in content.entries;
    var cleaned := MatFile.Clean(st);
    assert cleaned.Map?;
    var loaded := Map(map["s" := cleaned]);
    var lc := MatFile.LoadClean(content);
    assert lc.Ok? && lc.value.entries.Keys == {"s"};
    assert lc.value.entries["s"] == cleaned;
    assert lc.value == loaded;
    assert FileParse(mat, d, map[]).cache == map[Join("/data", "f") := loaded];
    assert FileParse(json, d, map[]).result == Ok(map["x" := st]);
    assert FileParse(json, d, map[Join("/data", "f") := loaded]).result == Ok(map["x" := cleaned]);
  }

  /** `_specifies` as the node declares it: the single key. */
  function FileSpecifies(key: string): (r: seq<string>)
    ensures |r| == 1 && r[0] == key
  {
    [key]
  }

  /** `_specifies` as written, `tuple(self.key)`: one entry per character of
      the key. */
  function FileSpecifiesAsWritten(key: string): (r: seq<string>)
    ensures |r| == |key| && forall i :: 0 <= i < |key| ==> r[i] == [key[i]]
  {
    seq(|key|, i requires 0 <= i < |key| => [key[i]])
  }

  /** The declared keys agree with the keys the node produces only for a
      one-character key; for `subject_id` the written version lists ten
      one-letter names, none of them the key. */
  lemma FileSpecifiesAsWrittenSplitsKey(key: string)
    ensures FileSpecifiesAsWritten(key) == FileSpecifies(key) <==> |key| == 1
    ensures key == "subject_id" ==> |FileSpecifiesAsWritten(key)| == 10 && key !in FileSpecifiesAsWritten(key)
  {
    if FileSpecifiesAsWritten(key) == FileSpecifies(key) {
      assert |key| == 1;
    }
    if |key| == 1 {
      assert FileSpecifiesAsWritten(key)[0] == [key[0]] == key;
    }
    if key == "subject_id" {
      forall i | 0 <= i < 10
        ensures FileSpecifiesAsWritten(key)[i] != key
      {
        assert |FileSpecifiesAsWritten(key)[i]| == 1;
      }
    }
  }
}
