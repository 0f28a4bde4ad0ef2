/** The directory a chain is resolved against, as an abstract input: the base
    path, the entries below it with their directory flags and (for files)
    the value tree their loader produces, and the glob matcher. */
module Files {
  import opened Wrappers
  import opened Values

  /** One file or directory below the base, by its path relative to it. */
  datatype Entry = Entry(path: string, isDir: bool, content: Value)

  /** `listing` is in the platform's enumeration order, which the engine
      must not depend on. `globMatch(pattern, path)` is the filesystem glob
      matcher, left uninterpreted. */
  datatype Dir = Dir(root: string, listing: seq<Entry>, globMatch: (string, string) -> bool)

  /** `base / rel` as an absolute path string. */
  function Join(root: string, rel: string): string {
    root + "/" + rel
  }

  lemma JoinInjective(root: string, a: string, b: string)
    requires Join(root, a) == Join(root, b)
    ensures a == b
  {
    assert a == Join(root, a)[|root| + 1..];
    assert b == Join(root, b)[|root| + 1..];
  }

  /** The entry at relative path `rel`, if there is one. */
  function Lookup(listing: seq<Entry>, rel: string): (r: Option<Entry>)
    ensures r.Some? ==> r.value in listing && r.value.path == rel
    ensures r.None? ==> forall e :: e in listing ==> e.path != rel
  {
    if |listing| == 0 then None
    else if listing[0].path == rel then Some(listing[0])
    else Lookup(listing[1..], rel)
  }

  /** `base.glob(pattern)` (pathlib): the entries whose relative path
      matches, in enumeration order. */
  function GlobRel(d: Dir, pattern: string): (r: seq<Entry>)
    ensures forall e :: e in r <==> e in d.listing && d.globMatch(pattern, e.path)
  {
    GlobRelFrom(d.listing, pattern, d.globMatch)
  }

  function GlobRelFrom(es: seq<Entry>, pattern: string, m: (string, string) -> bool): (r: seq<Entry>)
    ensures forall e :: e in r <==> e in es && m(pattern, e.path)
  {
    if |es| == 0 then []
    else (if m(pattern, es[0].path) then [es[0]] else []) + GlobRelFrom(es[1..], pattern, m)
  }

  /** `glob.glob(pattern)` for an absolute pattern below the base: the
      entries whose absolute path matches, in enumeration order. */
  function GlobAbs(d: Dir, pattern: string): (r: seq<Entry>)
    ensures forall e :: e in r <==> e in d.listing && d.globMatch(pattern, Join(d.root, e.path))
  {
    GlobAbsFrom(d.listing, d.root, pattern, d.globMatch)
  }

  function GlobAbsFrom(es: seq<Entry>, root: string, pattern: string, m: (string, string) -> bool): (r: seq<Entry>)
    ensures forall e :: e in r <==> e in es && m(pattern, Join(root, e.path))
  {
    if |es| == 0 then []
    else (if m(pattern, Join(root, es[0].path)) then [es[0]] else []) + GlobAbsFrom(es[1..], root, pattern, m)
  }

  /** `[p for p in paths if Path(p).is_dir()]`. */
  function OnlyDirs(es: seq<Entry>): (r: seq<Entry>)
    ensures forall e :: e in r <==> e in es && e.isDir
    ensures |r| <= |es|
  {
    if |es| == 0 then []
    else (if es[0].isDir then [es[0]] else []) + OnlyDirs(es[1..])
  }
}
