/** A chain as `BaseSpec` runs it: the head followed by `children()` in link
    order, as a sequence of node configurations. `specifies` concatenates
    what each node declares; `parse` deep-merges what each node finds. */
module Chain {
  import opened Wrappers
  import opened Values
  import opened Files
  import opened Nodes
  import PathSpec
  import ExternalFile
  import Seqs

  type Cache = ExternalFile.Cache
  type Outcome = ExternalFile.Outcome

  /** A node's own `_specifies`. */
  function NodeSpecifies(n: Node): seq<string> {
    match n
    case PathNode(f) => PathSpec.PathSpecifies(f)
    case PathsNode(f) => PathSpec.PathSpecifies(f)
    case GlobNode(k, _, _) => PathSpec.GlobSpecifies(k)
    case FileNode(_, _, k, _, _) => ExternalFile.FileSpecifies(k)
  }

  /** A node's own `_parse(base_path, metadata)`. Only file nodes touch the
      cache. */
  function NodeParse(n: Node, d: Dir, md: Option<Metadata>, cache: Cache): (o: Outcome)
    ensures o.result.Ok? ==> o.result.value.Keys == set k | k in NodeSpecifies(n)
    ensures !n.FileNode? ==> o.cache == cache
  {
    match n
    case PathNode(f) => ExternalFile.Outcome(PathSpec.PathParse(f, d), cache)
    case PathsNode(f) => ExternalFile.Outcome(PathSpec.PathsParse(f, d), cache)
    case GlobNode(k, f, dirs) => ExternalFile.Outcome(PathSpec.GlobParse(k, f, dirs, d, md), cache)
    case FileNode(_, _, _, _, _) => ExternalFile.FileParse(n, d, cache)
  }

  /** Each node's own `_specifies`, in chain order. */
  function Declared(chain: seq<Node>): (r: seq<seq<string>>)
    ensures |r| == |chain| && forall i :: 0 <= i < |chain| ==> r[i] == NodeSpecifies(chain[i])
  {
    Seqs.Map(NodeSpecifies, chain)
  }

  /** `specifies`: the head's keys, then each child's, duplicates kept. */
  function Specifies(chain: seq<Node>): seq<string> {
    Seqs.Flatten(Declared(chain))
  }

  /** A key is declared by the chain exactly when some node declares it. */
  lemma SpecifiesMembers(chain: seq<Node>, k: string)
    ensures k in Specifies(chain) <==> exists i :: 0 <= i < |chain| && k in NodeSpecifies(chain[i])
  {
    Seqs.FlattenMembers(Declared(chain), k);
  }

  /** Chaining two chains concatenates what they declare. */
  lemma SpecifiesConcat(a: seq<Node>, b: seq<Node>)
    ensures Specifies(a + b) == Specifies(a) + Specifies(b)
  {
    DeclaredConcat(a, b);
    Seqs.FlattenConcat(Declared(a), Declared(b));
  }

  lemma DeclaredConcat(a: seq<Node>, b: seq<Node>)
    ensures Declared(a + b) == Declared(a) + Declared(b)
  {
    Seqs.MapConcat(NodeSpecifies, a, b);
  }

  /** The chain's last node declares its keys after all the others. */
  lemma SpecifiesSnoc(chain: seq<Node>)
    requires |chain| > 0
    ensures Specifies(chain) == Specifies(chain[..|chain| - 1]) + NodeSpecifies(chain[|chain| - 1])
  {
    assert chain == chain[..|chain| - 1] + [chain[|chain| - 1]];
    SpecifiesConcat(chain[..|chain| - 1], [chain[|chain| - 1]]);
    assert Declared([chain[|chain| - 1]]) == [NodeSpecifies(chain[|chain| - 1])];
    assert Seqs.Flatten([NodeSpecifies(chain[|chain| - 1])]) == Seqs.Flatten([]) + NodeSpecifies(chain[|chain| - 1]);
  }

  /** How each node is run: its result and the cache it leaves. */
  type Eval = (Node, Cache) -> Outcome

  /** Every node's run, against base `d` with metadata `md`. */
  function NodeEval(d: Dir, md: Metadata): Eval {
    (n, c) => NodeParse(n, d, Some(md), c)
  }

  /** A successful run of a node produces the keys it declares. */
  ghost predicate KeysDeclared(eval: Eval) {
    forall n, c :: eval(n, c).result.Ok? ==> eval(n, c).result.value.Keys == set k | k in NodeSpecifies(n)
  }

  lemma NodeEvalKeysDeclared(d: Dir, md: Metadata)
    ensures KeysDeclared(NodeEval(d, md))
  {
    forall n, c | NodeEval(d, md)(n, c).result.Ok?
      ensures NodeEval(d, md)(n, c).result.value.Keys == set k | k in NodeSpecifies(n)
    {
      var o := NodeParse(n, d, Some(md), c);
    }
  }

  /** The fold of `BaseSpec.parse`: the head's result, then each child's
      result merged in as the update. Every node is run the same way (same
      base, same metadata); no node sees what earlier nodes returned. An
      exception stops the fold; the cache keeps what was stored before it. */
  function Run(chain: seq<Node>, eval: Eval, cache: Cache): (o: Outcome)
    requires |chain| > 0
    decreases |chain|
  {
    if |chain| == 1 then eval(chain[0], cache)
    else
      var o := Run(chain[..|chain| - 1], eval, cache);
      match o.result
      case Err(_) => o
      case Ok(out) =>
        var c := eval(chain[|chain| - 1], o.cache);
        match c.result
        case Err(e) => ExternalFile.Outcome(Err(e), c.cache)
        case Ok(u) => ExternalFile.Outcome(Ok(DeepUpdate(out, u)), c.cache)
  }

  /** A successful run produces exactly the keys the chain declares. */
  lemma {:induction false} RunKeys(chain: seq<Node>, eval: Eval, cache: Cache)
    requires |chain| > 0 && KeysDeclared(eval)
    ensures Run(chain, eval, cache).result.Ok? ==> Run(chain, eval, cache).result.value.Keys == set k | k in Specifies(chain)
    decreases |chain|
  {
    SpecifiesSnoc(chain);
    if |chain| == 1 {
      assert chain[..0] == [];
    } else {
      RunKeys(chain[..|chain| - 1], eval, cache);
    }
  }

  /** `BaseSpec.parse(base_path, metadata)`: `metadata` defaults to `{}`,
      and the result holds exactly the keys `specifies` lists. */
  function Parse(chain: seq<Node>, d: Dir, md: Option<Metadata>, cache: Cache): (o: Outcome)
    requires |chain| > 0
    ensures o.result.Ok? ==> forall k :: k in o.result.value <==> k in Specifies(chain)
  {
    var m := if md.None? then map[] else md.value;
    NodeEvalKeysDeclared(d, m);
    RunKeys(chain, NodeEval(d, m), cache);
    Run(chain, NodeEval(d, m), cache)
  }

  /** What node `j` of the chain returns in the run: it sees the cache the
      nodes before it left. */
  function NodeResult(chain: seq<Node>, eval: Eval, cache: Cache, j: nat): Result<Metadata>
    requires j < |chain|
  {
    eval(chain[j], if j == 0 then cache else Run(chain[..j], eval, cache).cache).result
  }

  /** Once a prefix of the chain raises, the run ends with that error and
      that cache: later nodes are not run. */
  lemma {:induction false} FirstErrorAborts(chain: seq<Node>, eval: Eval, cache: Cache, n: nat)
    requires 0 < n <= |chain| && Run(chain[..n], eval, cache).result.Err?
    ensures Run(chain, eval, cache) == Run(chain[..n], eval, cache)
    decreases |chain|
  {
    if n < |chain| {
      var init := chain[..|chain| - 1];
      assert init[..n] == chain[..n];
      FirstErrorAborts(init, eval, cache, n);
    } else {
      assert chain[..n] == chain;
    }
  }

  /** In a successful run every node succeeded, and a leaf value a node
      returns survives unless a later node returns the same key: the last
      writer of a leaf key wins. */
  lemma {:induction false} LastWriterWins(chain: seq<Node>, eval: Eval, cache: Cache, j: nat, k: string)
    requires j < |chain| && Run(chain, eval, cache).result.Ok?
    ensures NodeResult(chain, eval, cache, j).Ok?
    ensures var u := NodeResult(chain, eval, cache, j).value;
      k in u && !u[k].Map? && (forall i :: j < i < |chain| ==> NodeResult(chain, eval, cache, i).Ok? && k !in NodeResult(chain, eval, cache, i).value)
      ==> k in Run(chain, eval, cache).result.value && Run(chain, eval, cache).result.value[k] == u[k]
    decreases |chain|
  {
    if |chain| > 1 {
      var init := chain[..|chain| - 1];
      var prev := Run(init, eval, cache);
      assert NodeResult(chain, eval, cache, |chain| - 1) == eval(chain[|chain| - 1], prev.cache).result;
      if j < |chain| - 1 {
        assert init[j] == chain[j];
        assert j > 0 ==> init[..j] == chain[..j];
        assert NodeResult(init, eval, cache, j) == NodeResult(chain, eval, cache, j);
        forall i | j < i < |init|
          ensures NodeResult(init, eval, cache, i) == NodeResult(chain, eval, cache, i)
        {
          assert init[i] == chain[i];
          assert init[..i] == chain[..i];
        }
        LastWriterWins(init, eval, cache, j, k);
      }
    }
  }

  /** The file nodes of the chain load like `l`. */
  ghost predicate LoadsAlike(chain: seq<Node>, l: Loader) {
    forall i :: 0 <= i < |chain| && chain[i].FileNode? ==> ExternalFile.SameLoad(chain[i].loader, l)
  }

  /** Running a node that loads like `l` with either of two caches that
      agree with what `l` loads gives the same result and leaves a cache
      that still agrees. */
  ghost predicate CacheTransparent(eval: Eval, d: Dir, l: Loader) {
    forall n: Node, c1: Cache, c2: Cache ::
      (n.FileNode? ==> ExternalFile.SameLoad(n.loader, l)) &&
      ExternalFile.Coherent(c1, d, l) && ExternalFile.Coherent(c2, d, l) ==>
      eval(n, c1).result == eval(n, c2).result && ExternalFile.Coherent(eval(n, c1).cache, d, l)
  }

  lemma NodeEvalCacheTransparent(d: Dir, md: Metadata, l: Loader)
    ensures CacheTransparent(NodeEval(d, md), d, l)
  {
    forall n: Node, c1: Cache, c2: Cache |
      (n.FileNode? ==> ExternalFile.SameLoad(n.loader, l)) &&
      ExternalFile.Coherent(c1, d, l) && ExternalFile.Coherent(c2, d, l)
      ensures NodeParse(n, d, Some(md), c1).result == NodeParse(n, d, Some(md), c2).result
      ensures ExternalFile.Coherent(NodeParse(n, d, Some(md), c1).cache, d, l)
    {
      if n.FileNode? {
        ExternalFile.CoherentAcrossLoaders(c1, d, l, n.loader);
        ExternalFile.CoherentAcrossLoaders(c2, d, l, n.loader);
        ExternalFile.CoherentCacheTransparent(n, d, c1);
        ExternalFile.CoherentCacheTransparent(n, d, c2);
        ExternalFile.CoherentAcrossLoaders(NodeParse(n, d, Some(md), c1).cache, d, n.loader, l);
      }
    }
  }

  /** Two caches that agree with what the chain's loaders load give the
      same result, and leave a cache that still agrees. */
  lemma {:induction false} RunCacheTransparent(chain: seq<Node>, eval: Eval, d: Dir, c1: Cache, c2: Cache, l: Loader)
    requires |chain| > 0 && LoadsAlike(chain, l) && CacheTransparent(eval, d, l)
    requires ExternalFile.Coherent(c1, d, l) && ExternalFile.Coherent(c2, d, l)
    ensures Run(chain, eval, c1).result == Run(chain, eval, c2).result
    ensures ExternalFile.Coherent(Run(chain, eval, c1).cache, d, l)
    decreases |chain|
  {
    var last := chain[|chain| - 1];
    if |chain| > 1 {
      var init := chain[..|chain| - 1];
      assert LoadsAlike(init, l) by {
        forall i | 0 <= i < |init| ensures init[i] == chain[i] { }
      }
      RunCacheTransparent(init, eval, d, c1, c2, l);
      RunCacheTransparent(init, eval, d, c2, c1, l);
    }
  }

  /** Parsing again with the cache the first parse left gives the same
      result, when the chain's file nodes load alike. */
  lemma ParseAgainSameResult(chain: seq<Node>, d: Dir, md: Option<Metadata>, l: Loader)
    requires |chain| > 0 && LoadsAlike(chain, l)
    ensures Parse(chain, d, md, Parse(chain, d, md, map[]).cache).result == Parse(chain, d, md, map[]).result
  {
    var m := if md.None? then map[] else md.value;
    NodeEvalCacheTransparent(d, m, l);
    RunCacheTransparent(chain, NodeEval(d, m), d, map[], map[], l);
    RunCacheTransparent(chain, NodeEval(d, m), d, Run(chain, NodeEval(d, m), map[]).cache, map[], l);
  }

  /** The nodes as the source writes them. `NodeSpecifies` and `NodeParse`
      above use the corrected `external_file._specifies`, `Paths._parse` and
      `Glob._parse`; these use the versions the source contains. */
  function NodeSpecifiesAsWritten(n: Node): (r: seq<string>)
    ensures !n.FileNode? ==> r == NodeSpecifies(n)
    ensures n.FileNode? ==> (r == NodeSpecifies(n) <==> |n.key| == 1)
    ensures n.FileNode? && |n.key| != 1 ==> n.key !in r
  {
    match n
    case FileNode(_, _, k, _, _) =>
      ExternalFile.FileSpecifiesAsWrittenSplitsKey(k);
      assert forall i :: 0 <= i < |k| ==> |ExternalFile.FileSpecifiesAsWritten(k)[i]| == 1;
      ExternalFile.FileSpecifiesAsWritten(k)
    case _ => NodeSpecifies(n)
  }

  /** `specifies` over the as-written nodes. */
  function SpecifiesAsWritten(chain: seq<Node>): seq<string> {
    Seqs.Flatten(Seqs.Map(NodeSpecifiesAsWritten, chain))
  }

  /** With every file key a single character, the as-written `specifies`
      is the corrected one. */
  lemma SpecifiesAsWrittenAgrees(chain: seq<Node>)
    requires forall i :: 0 <= i < |chain| && chain[i].FileNode? ==> |chain[i].key| == 1
    ensures SpecifiesAsWritten(chain) == Specifies(chain)
  {
    assert Seqs.Map(NodeSpecifiesAsWritten, chain) == Declared(chain);
  }

  /** A node's `_parse(base_path, metadata)` as written: `Paths` raises
      `TypeError` on the extra argument, `Glob` turns zero matches into an
      `IndexError`; the other nodes are unchanged. */
  function NodeParseAsWritten(n: Node, d: Dir, md: Option<Metadata>, cache: Cache): (o: Outcome)
    ensures n.PathsNode? && md.Some? ==> o.result.Err? && o.result.error.TypeError?
    ensures n.PathsNode? ==> o.result.Err?
    ensures n.GlobNode? && o.result != NodeParse(n, d, md, cache).result ==>
      o.result.Err? && o.result.error.IndexError? && NodeParse(n, d, md, cache).result.Err?
    ensures !n.PathsNode? && !n.GlobNode? ==> o == NodeParse(n, d, md, cache)
    ensures o.cache == NodeParse(n, d, md, cache).cache
  {
    match n
    case PathsNode(f) => ExternalFile.Outcome(PathSpec.PathsParseAsWritten(f, d, md), cache)
    case GlobNode(k, f, dirs) => ExternalFile.Outcome(PathSpec.GlobParseAsWritten(k, f, dirs, d, md), cache)
    case _ => NodeParse(n, d, md, cache)
  }

  function NodeEvalAsWritten(d: Dir, md: Metadata): Eval {
    (n, c) => NodeParseAsWritten(n, d, Some(md), c)
  }

  /** `BaseSpec.parse` over the as-written nodes. */
  function ParseAsWritten(chain: seq<Node>, d: Dir, md: Option<Metadata>, cache: Cache): Outcome
    requires |chain| > 0
  {
    Run(chain, NodeEvalAsWritten(d, if md.None? then map[] else md.value), cache)
  }

  /** A run succeeds only if every node in it succeeded. */
  lemma RunOkAllOk(chain: seq<Node>, eval: Eval, cache: Cache, j: nat)
    requires j < |chain|
    ensures Run(chain, eval, cache).result.Ok? ==> NodeResult(chain, eval, cache, j).Ok?
  {
    if Run(chain, eval, cache).result.Ok? {
      LastWriterWins(chain, eval, cache, j, "");
    }
  }

  /** As written, any chain holding a `Paths` node fails to parse. */
  lemma PathsBreaksParse(chain: seq<Node>, d: Dir, md: Option<Metadata>, cache: Cache, j: nat)
    requires j < |chain| && chain[j].PathsNode?
    ensures ParseAsWritten(chain, d, md, cache).result.Err?
  {
    var eval := NodeEvalAsWritten(d, if md.None? then map[] else md.value);
    RunOkAllOk(chain, eval, cache, j);
  }

  /** As written, a single file node whose key is not one character returns
      its key although `specifies` does not list it. */
  lemma SpecifiesAsWrittenMismatch(n: Node, d: Dir, md: Option<Metadata>, cache: Cache)
    requires n.FileNode? && |n.key| != 1
    ensures ParseAsWritten([n], d, md, cache).result.Ok? ==>
      n.key in ParseAsWritten([n], d, md, cache).result.value && n.key !in SpecifiesAsWritten([n])
  {
    assert Seqs.Map(NodeSpecifiesAsWritten, [n]) == [NodeSpecifiesAsWritten(n)];
    assert Seqs.Flatten([NodeSpecifiesAsWritten(n)]) == Seqs.Flatten([]) + NodeSpecifiesAsWritten(n);
  }
}
