/** The path-token nodes: `Path` and `Paths` read metadata out of the names
    of matching files and directories; `Glob` finds one path from a
    template filled with metadata. */
module PathSpec {
  import opened Wrappers
  import opened Values
  import opened Template
  import opened Files
  import opened Gather

  /** `Path._specifies` (shared by `Paths`): the template's named fields. */
  function PathSpecifies(format: string): (r: seq<string>)
    ensures forall n :: n in r <==> n in GroupNames(Segments(format))
  {
    NamedFields(format)
  }

  /** The captures of every entry whose path the template parses, in
      enumeration order. */
  function Candidates(t: string, es: seq<Entry>): (r: seq<Candidate>)
    ensures forall c :: c in r <==> exists e :: e in es && Match(t, e.path) == Some(c)
    ensures Covers(NamedFields(t), r)
  {
    if |es| == 0 then []
    else
      var m := Match(t, es[0].path);
      var rest := Candidates(t, es[1..]);
      assert forall e :: e in es <==> e == es[0] || e in es[1..];
      if m.Some? then [m.value] + rest else rest
  }

  /** An entry that both the glob pattern and the template accept. */
  ghost predicate Parsed(t: string, d: Dir, e: Entry, c: Candidate) {
    e in d.listing && d.globMatch(Globify(t), e.path) && Match(t, e.path) == Some(c)
  }

  /** `Path._parse_dir`: globs the template with every group turned into `*`,
      keeps the matches the template parses, and raises `ValueError` when
      none remains. */
  function ParseDir(t: string, d: Dir): (r: Result<seq<Candidate>>)
    ensures r.Ok? ==> |r.value| > 0 && Covers(NamedFields(t), r.value)
    ensures r.Ok? ==> forall c :: c in r.value <==> exists e :: Parsed(t, d, e, c)
    ensures r.Err? <==> forall e, c :: !Parsed(t, d, e, c)
    ensures r.Err? ==> r.error.ValueError?
  {
    var found := Candidates(t, GlobRel(d, Globify(t)));
    if |found| == 0 then
      assert forall e, c :: Parsed(t, d, e, c) ==> c in found;
      Err(ValueError("no matches were found"))
    else
      assert forall c :: c in found <==> exists e :: Parsed(t, d, e, c) by {
        forall c ensures c in found <==> exists e :: Parsed(t, d, e, c) {
          if c in found {
            var e :| e in GlobRel(d, Globify(t)) && Match(t, e.path) == Some(c);
            assert Parsed(t, d, e, c);
          }
        }
      }
      assert found[0] in found;
      Ok(found)
  }

  /** Every two parsed matches agree on every named field they capture. */
  ghost predicate Agree(t: string, d: Dir) {
    forall n, e1, c1, e2, c2 ::
      n in NamedFields(t) && Parsed(t, d, e1, c1) && Parsed(t, d, e2, c2) && n in c1 && n in c2 ==>
      c1[n] == c2[n]
  }

  /** Over the captures of the parsed matches, agreement leaves no key whose
      gathered captures differ. */
  lemma AgreeUnambiguous(t: string, d: Dir, results: seq<Candidate>, k: string)
    requires Covers(NamedFields(t), results) && k in NamedFields(t)
    requires forall c :: c in results ==> exists e :: Parsed(t, d, e, c)
    requires Agree(t, d)
    ensures !Ambiguous(Gathered(results, k))
  {
    var g := Gathered(results, k);
    forall i, j | 0 <= i < |g| && 0 <= j < |g|
      ensures g[i] == g[j]
    {
      assert results[i] in results && results[j] in results;
      var e1 :| Parsed(t, d, e1, results[i]);
      var e2 :| Parsed(t, d, e2, results[j]);
      assert k in results[i] && k in results[j];
    }
  }

  /** Over the captures of exactly the parsed matches, a disagreement shows
      up as a key whose gathered captures differ. */
  lemma DisagreeAmbiguous(t: string, d: Dir, results: seq<Candidate>)
    requires Covers(NamedFields(t), results)
    requires forall c :: (exists e :: Parsed(t, d, e, c)) ==> c in results
    requires !Agree(t, d)
    ensures exists k :: k in NamedFields(t) && Ambiguous(Gathered(results, k))
  {
    var n, e1, c1, e2, c2 :|
      n in NamedFields(t) && Parsed(t, d, e1, c1) && Parsed(t, d, e2, c2) && n in c1 && n in c2 &&
      c1[n] != c2[n];
    assert c1 in results by {
      assert exists e :: Parsed(t, d, e, c1);
    }
    assert c2 in results by {
      assert exists e :: Parsed(t, d, e, c2);
    }
    var i :| 0 <= i < |results| && results[i] == c1;
    var j :| 0 <= j < |results| && results[j] == c2;
    var g := Gathered(results, n);
    assert g[i] != g[j];
    assert Ambiguous(g);
  }

  /** Both directions: agreement is the absence of an ambiguous key. */
  lemma AgreeIffUnambiguous(t: string, d: Dir, results: seq<Candidate>)
    requires Covers(NamedFields(t), results)
    requires forall c :: c in results <==> exists e :: Parsed(t, d, e, c)
    ensures Agree(t, d) <==> forall k :: k in NamedFields(t) ==> !Ambiguous(Gathered(results, k))
  {
    if Agree(t, d) {
      forall k | k in NamedFields(t)
        ensures !Ambiguous(Gathered(results, k))
      {
        AgreeUnambiguous(t, d, results, k);
      }
    } else {
      DisagreeAmbiguous(t, d, results);
    }
  }

  /** `Path._parse`: each named field collapses to the one value every
      parsed match agrees on; a field with two values raises
      `AmbiguityError`, re-raised with the hint to use `Paths`. */
  function PathParse(t: string, d: Dir): (r: Result<Metadata>)
    ensures r.Ok? ==> r.value.Keys == set n | n in NamedFields(t)
    ensures r.Ok? ==> forall n, e, c :: n in r.value && Parsed(t, d, e, c) ==> r.value[n] == Text(c[n])
    ensures r.Err? ==> r.error.ValueError? || (r.error.AmbiguityError? && r.error.suggestsPaths)
    ensures r.Err? && r.error.AmbiguityError? ==> exists e1, c1, e2, c2 ::
      && Parsed(t, d, e1, c1) && Parsed(t, d, e2, c2)
      && r.error.subject in c1 && r.error.subject in c2 && c1[r.error.subject] != c2[r.error.subject]
    ensures r.Ok? <==> (exists e, c :: Parsed(t, d, e, c)) && Agree(t, d)
    ensures (r.Err? && r.error.ValueError?) <==> forall e, c :: !Parsed(t, d, e, c)
  {
    var results :- ParseDir(t, d);
    AgreeIffUnambiguous(t, d, results);
    match Collapse(NamedFields(t), results)
    case Ok(m) =>
      assert forall e, c :: Parsed(t, d, e, c) ==> c in results;
      Ok(m)
    case Err(err) =>
      var k := err.subject;
      var g := Gathered(results, k);
      var i, j :| 0 <= i < |g| && 0 <= j < |g| && g[i] != g[j];
      assert results[i] in results && results[j] in results;
      Err(err.(suggestsPaths := true))
  }

  /** The corrected `Paths._parse`: every named field maps to the set of
      values the parsed matches hold for it; disagreement is not an error. */
  function PathsParse(t: string, d: Dir): (r: Result<Metadata>)
    ensures r.Ok? <==> exists e, c :: Parsed(t, d, e, c)
    ensures r.Ok? ==> r.value.Keys == set n | n in NamedFields(t)
    ensures r.Ok? ==> forall n, v :: n in r.value ==>
      r.value[n].StrSet? && (v in r.value[n].strs <==> exists e, c :: Parsed(t, d, e, c) && c[n] == v)
    ensures r.Err? ==> r.error.ValueError?
  {
    var results :- ParseDir(t, d);
    CollectSetsParsed(t, d, results);
    Ok(CollectSets(NamedFields(t), results))
  }

  lemma CollectSetsParsed(t: string, d: Dir, results: seq<Candidate>)
    requires Covers(NamedFields(t), results)
    requires forall c :: c in results <==> exists e :: Parsed(t, d, e, c)
    ensures forall n, v :: n in CollectSets(NamedFields(t), results) ==>
      (v in CollectSets(NamedFields(t), results)[n].strs <==> exists e, c :: Parsed(t, d, e, c) && c[n] == v)
  {
    var sets := CollectSets(NamedFields(t), results);
    forall n, v | n in sets
      ensures v in sets[n].strs <==> exists e, c :: Parsed(t, d, e, c) && c[n] == v
    {
      if v in sets[n].strs {
        var i :| 0 <= i < |results| && results[i][n] == v;
        assert results[i] in results;
        var e :| Parsed(t, d, e, results[i]);
      }
      if exists e, c :: Parsed(t, d, e, c) && c[n] == v {
        var e, c :| Parsed(t, d, e, c) && c[n] == v;
        assert c in results;
        var i :| 0 <= i < |results| && results[i] == c;
      }
    }
  }

  /** `Paths._parse` as written: it takes no `metadata` argument, so the
      chain's call `_parse(base_path, metadata)` is a `TypeError`; called with
      the base path alone it gathers from the undefined name `a_list`, a
      `NameError`, once the directory scan has succeeded. */
  function PathsParseAsWritten(t: string, d: Dir, md: Option<Metadata>): (r: Result<Metadata>)
    ensures r.Err?
    ensures md.Some? ==> r.error.TypeError?
    ensures md.None? ==> (r.error == NameError("a_list") <==> exists e, c :: Parsed(t, d, e, c))
  {
    if md.Some? then Err(TypeError("_parse() takes 2 positional arguments but 3 were given"))
    else
      var results :- ParseDir(t, d);
      Err(NameError("a_list"))
  }

  /** Listing the directory in another order changes neither the `Path` nor
      the `Paths` result. */
  lemma PathParseOrderIndependent(t: string, d: Dir, listing: seq<Entry>)
    requires forall e :: e in listing <==> e in d.listing
    ensures PathParse(t, d) == PathParse(t, Dir(d.root, listing, d.globMatch))
    ensures PathsParse(t, d) == PathsParse(t, Dir(d.root, listing, d.globMatch))
  {
    var d2 := Dir(d.root, listing, d.globMatch);
    var r1 := ParseDir(t, d);
    var r2 := ParseDir(t, d2);
    assert forall e, c :: Parsed(t, d, e, c) <==> Parsed(t, d2, e, c);
    if r1.Ok? {
      assert r2.Ok?;
      assert forall c :: c in r1.value <==> c in r2.value;
      CollapseOrderIndependent(NamedFields(t), r1.value, r2.value);
      CollectSetsOrderIndependent(NamedFields(t), r1.value, r2.value);
    }
  }

  /** `Glob._specifies`: exactly the output key. */
  function GlobSpecifies(key: string): (r: seq<string>)
    ensures |r| == 1 && r[0] == key
  {
    [key]
  }

  /** The substitution step of `Glob._parse`: `format.format(**metadata)`,
      a missing key re-raised as `KeyError` with a hint. Without a metadata
      mapping (`None`), `**None` is a `TypeError`. */
  function GlobFormat(format: string, md: Option<Metadata>): (r: Result<string>)
    ensures md.None? ==> r.Err? && r.error.TypeError?
    ensures md.Some? ==> (r.Ok? <==> Formattable(Segments(format), md.value))
    ensures md.Some? && r.Ok? ==> r.value == Fill(Segments(format), Rendered(md.value))
    ensures r.Err? && r.error.KeyError? ==> md.Some? && r.error.key !in md.value && r.error.hinted
    ensures r.Err? ==> r.error.TypeError? || r.error.ValueError? || r.error.IndexError? || r.error.KeyError?
  {
    match md
    case None => Err(TypeError("argument after ** must be a mapping"))
    case Some(m) =>
      match Substitute(Segments(format), m)
      case Ok(s) => Ok(s)
      case Err(KeyError(k, _)) => Err(KeyError(k, true))
      case Err(e) => Err(e)
  }

  /** The glob matches of the filled-in absolute path, directories only when
      `onlyDirs`. */
  function GlobCandidates(d: Dir, full: string, onlyDirs: bool): (r: seq<Entry>)
    ensures forall e :: e in r <==>
      e in d.listing && d.globMatch(full, Join(d.root, e.path)) && (onlyDirs ==> e.isDir)
  {
    var ps := GlobAbs(d, full);
    if onlyDirs then OnlyDirs(ps) else ps
  }

  /** `Glob._parse`, with the zero-match case corrected to the
      `FileNotFoundError` the code evidently intends. A path without `*` is
      returned as is, with no filesystem check; with `*`, exactly one match
      is required. */
  function GlobParse(key: string, format: string, onlyDirs: bool, d: Dir, md: Option<Metadata>): (r: Result<Metadata>)
    ensures r.Ok? ==> r.value.Keys == {key} && GlobFormat(format, md).Ok?
    ensures GlobFormat(format, md).Err? ==> r == Err(GlobFormat(format, md).error)
    ensures GlobFormat(format, md).Ok? && '*' !in Join(d.root, GlobFormat(format, md).value) ==>
      r == Ok(map[key := Text(Join(d.root, GlobFormat(format, md).value))])
    ensures GlobFormat(format, md).Ok? && '*' in Join(d.root, GlobFormat(format, md).value) ==>
      var cs := GlobCandidates(d, Join(d.root, GlobFormat(format, md).value), onlyDirs);
      && (|cs| == 1 ==> r == Ok(map[key := Text(Join(d.root, cs[0].path))]))
      && (|cs| > 1 ==> r.Err? && r.error.AmbiguityError?)
      && (|cs| == 0 ==> r.Err? && r.error.FileNotFoundError?)
  {
    var formatted :- GlobFormat(format, md);
    var full := Join(d.root, formatted);
    if '*' in full then
      var paths := GlobCandidates(d, full, onlyDirs);
      if |paths| > 1 then Err(AmbiguityError(full, false))
      else if |paths| == 0 then Err(FileNotFoundError(full))
      else Ok(map[key := Text(Join(d.root, paths[0].path))])
    else Ok(map[key := Text(full)])
  }

  /** `Glob._parse` as written: the zero-match test is `len(paths) < 0`, which
      never holds, so zero matches fall through to `paths[0]`, an
      `IndexError`. */
  function GlobParseAsWritten(key: string, format: string, onlyDirs: bool, d: Dir, md: Option<Metadata>): (r: Result<Metadata>)
    ensures !(r.Err? && r.error.FileNotFoundError?)
    ensures r != GlobParse(key, format, onlyDirs, d, md) ==>
      r.Err? && r.error.IndexError? &&
      GlobParse(key, format, onlyDirs, d, md).Err? && GlobParse(key, format, onlyDirs, d, md).error.FileNotFoundError?
  {
    var formatted :- GlobFormat(format, md);
    var full := Join(d.root, formatted);
    if '*' in full then
      var paths := GlobCandidates(d, full, onlyDirs);
      if |paths| > 1 then Err(AmbiguityError(full, false))
      else if |paths| < 0 then Err(FileNotFoundError(full))
      else if |paths| == 0 then Err(IndexError("list index out of range"))
      else Ok(map[key := Text(Join(d.root, paths[0].path))])
    else Ok(map[key := Text(full)])
  }

  /** A directory with nothing in it: the as-written `Glob` fails with an
      `IndexError` where the corrected one reports the missing file. */
  lemma GlobZeroMatchCounterexample()
    ensures var d := Dir("/data", [], (p: string, s: string) => true);
      && GlobParseAsWritten("raw", "*", false, d, Some(map[])) == Err(IndexError("list index out of range"))
      && GlobParse("raw", "*", false, d, Some(map[])) == Err(FileNotFoundError("/data/*"))
  {
    var d := Dir("/data", [], (p: string, s: string) => true);
    assert Segments("*") == [Char('*')];
    assert [Char('*')][1..] == [];
    assert Formattable([Char('*')], map[]);
    assert Fill([Char('*')], Rendered(map[])) == "*";
    assert Join("/data", "*") == "/data/*";
    assert '*' in "/data/*";
    assert GlobCandidates(d, "/data/*", false) == [];
  }
}
