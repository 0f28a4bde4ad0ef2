/** Format templates with `{name}` placeholders, as used by the path-token
    nodes: splitting a template into groups, turning it into a glob pattern,
    matching a path against it (the `parse` library's behaviour, simplified),
    and substituting metadata into it (`str.format`, simplified). */
module Template {
  import opened Wrappers
  import opened Values
  import Seqs

  /** A template read as a sequence of literal characters and `{...}` groups.
      A group runs from a `{` to the first `}` after it; a `{` with no `}`
      after it is a literal character. */
  datatype Seg = Char(c: char) | Group(body: string)

  type Bindings = map<string, string>

  /** Index of the first `}` at or after position `i`. */
  function CloseFrom(t: string, i: nat): (r: Option<nat>)
    requires i <= |t|
    ensures r.Some? ==> i <= r.value < |t| && t[r.value] == '}'
    ensures r.Some? ==> forall j :: i <= j < r.value ==> t[j] != '}'
    ensures r.None? ==> forall j :: i <= j < |t| ==> t[j] != '}'
    decreases |t| - i
  {
    if i == |t| then None
    else if t[i] == '}' then Some(i)
    else CloseFrom(t, i + 1)
  }

  function Segments(t: string): (r: seq<Seg>)
    ensures forall k :: 0 <= k < |r| && r[k].Group? ==> '}' !in r[k].body
    decreases |t|
  {
    if |t| == 0 then []
    else if t[0] == '{' && CloseFrom(t, 1).Some? then
      var j := CloseFrom(t, 1).value;
      assert forall x :: x in t[1..j] ==> x != '}';
      [Group(t[1..j])] + Segments(t[j + 1..])
    else [Char(t[0])] + Segments(t[1..])
  }

  /** The text a segment sequence was read from. */
  function Source(segs: seq<Seg>): string {
    if |segs| == 0 then ""
    else
      match segs[0]
      case Char(c) => [c] + Source(segs[1..])
      case Group(body) => "{" + body + "}" + Source(segs[1..])
  }

  /** Reading a template into segments loses nothing: writing the segments
      back gives the template. */
  lemma {:induction false} SegmentsLossless(t: string)
    ensures Source(Segments(t)) == t
    decreases |t|
  {
    if |t| == 0 {
    } else if t[0] == '{' && CloseFrom(t, 1).Some? {
      var j := CloseFrom(t, 1).value;
      SegmentsLossless(t[j + 1..]);
      assert t == "{" + t[1..j] + "}" + t[j + 1..];
    } else {
      SegmentsLossless(t[1..]);
      assert t == [t[0]] + t[1..];
    }
  }

  /** Each group replaced by a single `*`, every literal character kept. */
  function GlobOf(segs: seq<Seg>): string {
    if |segs| == 0 then ""
    else
      match segs[0]
      case Char(c) => [c] + GlobOf(segs[1..])
      case Group(_) => "*" + GlobOf(segs[1..])
  }

  /** `re.sub(r'\{.*?\}', '*', format)`: scans left to right, replacing each
      `{` up to the first `}` after it by `*`. */
  function Globify(t: string): (r: string)
    ensures |r| <= |t|
    decreases |t|
  {
    if |t| == 0 then ""
    else if t[0] == '{' && CloseFrom(t, 1).Some? then "*" + Globify(t[CloseFrom(t, 1).value + 1..])
    else [t[0]] + Globify(t[1..])
  }

  /** The glob pattern is the template with every group replaced by one `*`
      and all text outside the groups unchanged. */
  lemma {:induction false} GlobifyReplacesGroups(t: string)
    ensures Globify(t) == GlobOf(Segments(t))
    decreases |t|
  {
    if |t| == 0 {
    } else if t[0] == '{' && CloseFrom(t, 1).Some? {
      GlobifyReplacesGroups(t[CloseFrom(t, 1).value + 1..]);
    } else {
      GlobifyReplacesGroups(t[1..]);
    }
  }

  predicate IsLetter(c: char) {
    ('a' <= c <= 'z') || ('A' <= c <= 'Z')
  }

  predicate IsDigit(c: char) {
    '0' <= c <= '9'
  }

  /** The field name of a group: its body up to the first `:`. */
  function FieldName(body: string): (r: string)
    ensures |r| <= |body| && r == body[..|r|]
    ensures ':' !in r
  {
    if |body| == 0 || body[0] == ':' then "" else [body[0]] + FieldName(body[1..])
  }

  /** The `parse` library captures a group under its name when the name
      starts with a letter; other groups (`{}`, `{0}`) are anonymous. */
  predicate IsNamed(name: string) {
    |name| > 0 && IsLetter(name[0])
  }

  /** Names of the named groups, in template order, repeats included. */
  function GroupNames(segs: seq<Seg>): (r: seq<string>)
    ensures forall n :: n in r ==> IsNamed(n)
  {
    if |segs| == 0 then []
    else if segs[0].Group? && IsNamed(FieldName(segs[0].body)) then [FieldName(segs[0].body)] + GroupNames(segs[1..])
    else GroupNames(segs[1..])
  }

  /** `parser.named_fields`: the distinct names of the named groups, in the
      order of their first occurrence. */
  function NamedFields(t: string): (r: seq<string>)
    ensures Seqs.Distinct(r)
    ensures forall n :: n in r <==> n in GroupNames(Segments(t))
  {
    Seqs.Dedupe(GroupNames(Segments(t)))
  }

  /** Every group of the template is named. */
  ghost predicate AllNamed(segs: seq<Seg>) {
    forall k :: 0 <= k < |segs| && segs[k].Group? ==> IsNamed(FieldName(segs[k].body))
  }

  /** `b2` keeps every binding of `b1`. */
  ghost predicate Extends(b2: Bindings, b1: Bindings) {
    forall k :: k in b1 ==> k in b2 && b2[k] == b1[k]
  }

  /** The template with every group replaced by the value its name is bound
      to: the inverse of matching. */
  function Fill(segs: seq<Seg>, b: Bindings): string
    requires forall k :: 0 <= k < |segs| && segs[k].Group? ==> FieldName(segs[k].body) in b
  {
    if |segs| == 0 then ""
    else
      match segs[0]
      case Char(c) => [c] + Fill(segs[1..], b)
      case Group(body) => b[FieldName(body)] + Fill(segs[1..], b)
  }

  /** Full match of `s` against `segs`, given the bindings `b` so far. Every
      group matches one or more characters, shortest first, and backtracks
      by growing; a name seen before must match the same text again. */
  function MatchFrom(segs: seq<Seg>, s: string, b: Bindings): (r: Option<Bindings>)
    ensures r.Some? ==> Extends(r.value, b)
    ensures r.Some? ==> r.value.Keys == b.Keys + set n | n in GroupNames(segs)
    decreases |segs|, 1, 0
  {
    if |segs| == 0 then
      if |s| == 0 then Some(b) else None
    else
      match segs[0]
      case Char(c) =>
        if |s| > 0 && s[0] == c then MatchFrom(segs[1..], s[1..], b) else None
      case Group(_) =>
        TryWidth(segs, s, b, 1)
  }

  /** Tries the first group of `segs` with widths `n`, `n + 1`, ... */
  function TryWidth(segs: seq<Seg>, s: string, b: Bindings, n: nat): (r: Option<Bindings>)
    requires |segs| > 0 && segs[0].Group? && 1 <= n
    ensures r.Some? ==> Extends(r.value, b)
    ensures r.Some? ==> r.value.Keys == b.Keys + set n | n in GroupNames(segs)
    decreases |segs|, 0, |s| + 1 - n
  {
    if n > |s| then None
    else
      var name := FieldName(segs[0].body);
      var piece := s[..n];
      if IsNamed(name) && name in b && b[name] != piece then TryWidth(segs, s, b, n + 1)
      else
        var b' := if IsNamed(name) then b[name := piece] else b;
        var m := MatchFrom(segs[1..], s[n..], b');
        if m.Some? then m else TryWidth(segs, s, b, n + 1)
  }

  /** `parser.parse(s)`: the named captures, or `None` when `s` does not
      match the template. */
  function Match(t: string, s: string): (r: Option<Bindings>)
    ensures r.Some? ==> r.value.Keys == set n | n in NamedFields(t)
  {
    MatchFrom(Segments(t), s, map[])
  }

  /** A successful match is exact: filling the template with the captured
      values gives back the matched text. */
  lemma {:induction false} MatchSound(segs: seq<Seg>, s: string, b: Bindings)
    requires AllNamed(segs)
    requires MatchFrom(segs, s, b).Some?
    ensures forall k :: 0 <= k < |segs| && segs[k].Group? ==> FieldName(segs[k].body) in MatchFrom(segs, s, b).value
    ensures Fill(segs, MatchFrom(segs, s, b).value) == s
    decreases |segs|, 1, 0
  {
    if |segs| > 0 {
      match segs[0]
      case Char(c) =>
        MatchSound(segs[1..], s[1..], b);
      case Group(_) =>
        TryWidthSound(segs, s, b, 1);
    }
  }

  lemma {:induction false} TryWidthSound(segs: seq<Seg>, s: string, b: Bindings, n: nat)
    requires AllNamed(segs) && |segs| > 0 && segs[0].Group? && 1 <= n
    requires TryWidth(segs, s, b, n).Some?
    ensures forall k :: 0 <= k < |segs| && segs[k].Group? ==> FieldName(segs[k].body) in TryWidth(segs, s, b, n).value
    ensures Fill(segs, TryWidth(segs, s, b, n).value) == s
    decreases |segs|, 0, |s| + 1 - n
  {
    var name := FieldName(segs[0].body);
    var piece := s[..n];
    if name in b && b[name] != piece {
      TryWidthSound(segs, s, b, n + 1);
    } else {
      var b' := b[name := piece];
      var m := MatchFrom(segs[1..], s[n..], b');
      if m.Some? {
        MatchSound(segs[1..], s[n..], b');
        assert TryWidth(segs, s, b, n) == m;
        FillGroupHead(segs, m.value, s, n);
      } else {
        TryWidthSound(segs, s, b, n + 1);
      }
    }
  }

  /** A template starting with a group bound to the first `n` characters of
      `s`, whose rest fills to the rest of `s`, fills to `s`. */
  lemma FillGroupHead(segs: seq<Seg>, r: Bindings, s: string, n: nat)
    requires |segs| > 0 && segs[0].Group? && n <= |s|
    requires FieldName(segs[0].body) in r && r[FieldName(segs[0].body)] == s[..n]
    requires forall k :: 0 <= k < |segs| - 1 && segs[1..][k].Group? ==> FieldName(segs[1..][k].body) in r
    requires Fill(segs[1..], r) == s[n..]
    ensures forall k :: 0 <= k < |segs| && segs[k].Group? ==> FieldName(segs[k].body) in r
    ensures Fill(segs, r) == s
  {
    forall k | 1 <= k < |segs| && segs[k].Group?
      ensures FieldName(segs[k].body) in r
    {
      assert segs[k] == segs[1..][k - 1];
    }
    assert s == s[..n] + s[n..];
  }

  /** Every named group's name is listed by `GroupNames`. */
  lemma {:induction false} GroupNamesCover(segs: seq<Seg>)
    ensures forall k :: 0 <= k < |segs| && segs[k].Group? && IsNamed(FieldName(segs[k].body)) ==>
      FieldName(segs[k].body) in GroupNames(segs)
  {
    if |segs| > 0 {
      GroupNamesCover(segs[1..]);
      forall k | 1 <= k < |segs|
        ensures segs[k] == segs[1..][k - 1]
      {
      }
    }
  }

  /** Every name `GroupNames` lists is the name of a named group. */
  lemma {:induction false} GroupNamesSound(segs: seq<Seg>, n: string)
    requires n in GroupNames(segs)
    ensures exists k :: 0 <= k < |segs| && segs[k].Group? && IsNamed(FieldName(segs[k].body)) && FieldName(segs[k].body) == n
  {
    if segs[0].Group? && IsNamed(FieldName(segs[0].body)) && FieldName(segs[0].body) == n {
    } else {
      GroupNamesSound(segs[1..], n);
      var k :| 0 <= k < |segs[1..]| && segs[1..][k].Group? && IsNamed(FieldName(segs[1..][k].body)) && FieldName(segs[1..][k].body) == n;
      assert segs[k + 1] == segs[1..][k];
    }
  }

  /** A template has a named field exactly when one of its groups is named. */
  lemma NamedFieldsNonEmpty(t: string)
    ensures |NamedFields(t)| > 0 <==> HasNamedGroup(Segments(t))
  {
    var segs := Segments(t);
    if |NamedFields(t)| > 0 {
      assert NamedFields(t)[0] in GroupNames(segs);
      GroupNamesSound(segs, NamedFields(t)[0]);
    }
    if HasNamedGroup(segs) {
      var k :| 0 <= k < |segs| && segs[k].Group? && IsNamed(FieldName(segs[k].body));
      GroupNamesCover(segs);
      assert FieldName(segs[k].body) in NamedFields(t);
    }
  }

  /** Some group is a named field. */
  ghost predicate HasNamedGroup(segs: seq<Seg>) {
    exists k :: 0 <= k < |segs| && segs[k].Group? && IsNamed(FieldName(segs[k].body))
  }

  /** Every text built by filling an all-named template with non-empty values
      is recognised by the matcher (perhaps with other captures, since a
      group takes the shortest text that lets the rest match). */
  lemma {:induction false} MatchComplete(segs: seq<Seg>, b0: Bindings, b: Bindings)
    requires AllNamed(segs)
    requires forall k :: 0 <= k < |segs| && segs[k].Group? ==> FieldName(segs[k].body) in b
    requires forall k :: k in b ==> |b[k]| > 0
    requires Extends(b, b0)
    ensures MatchFrom(segs, Fill(segs, b), b0).Some?
    decreases |segs|
  {
    if |segs| > 0 {
      var s := Fill(segs, b);
      assert forall k :: 1 <= k < |segs| ==> segs[k] == segs[1..][k - 1];
      match segs[0]
      case Char(c) =>
        MatchComplete(segs[1..], b0, b);
        assert s[1..] == Fill(segs[1..], b);
      case Group(body) =>
        var name := FieldName(body);
        var n0 := |b[name]|;
        assert s[..n0] == b[name] && s[n0..] == Fill(segs[1..], b);
        MatchComplete(segs[1..], b0[name := b[name]], b);
        TryWidthFinds(segs, s, b0, 1, n0);
    }
  }

  /** The width search succeeds if some width at or after `n` does. */
  lemma {:induction false} TryWidthFinds(segs: seq<Seg>, s: string, b: Bindings, n: nat, n0: nat)
    requires |segs| > 0 && segs[0].Group? && IsNamed(FieldName(segs[0].body))
    requires 1 <= n <= n0 <= |s|
    requires FieldName(segs[0].body) in b ==> b[FieldName(segs[0].body)] == s[..n0]
    requires MatchFrom(segs[1..], s[n0..], b[FieldName(segs[0].body) := s[..n0]]).Some?
    ensures TryWidth(segs, s, b, n).Some?
    decreases n0 - n
  {
    var name := FieldName(segs[0].body);
    if n < n0 {
      if !(name in b && b[name] != s[..n]) && MatchFrom(segs[1..], s[n..], b[name := s[..n]]).Some? {
      } else {
        TryWidthFinds(segs, s, b, n + 1, n0);
      }
    }
  }

  predicate IsPositional(name: string) {
    forall k :: 0 <= k < |name| ==> IsDigit(name[k])
  }

  function DigitChar(d: nat): char
    requires d < 10
  {
    "0123456789"[d]
  }

  function NatToString(n: nat): (r: string)
    ensures |r| > 0
  {
    if n < 10 then [DigitChar(n)] else NatToString(n / 10) + [DigitChar(n % 10)]
  }

  /** `str(v)` for the values a template can receive. Non-scalar values
      render as a fixed marker (Python's `repr` is not modelled). */
  function Render(v: Value): string {
    match v
    case Scalar(Str(s)) => s
    case Scalar(Int(i)) => if i < 0 then "-" + NatToString(-i) else NatToString(i)
    case Scalar(Bool(b)) => if b then "True" else "False"
    case Scalar(Null) => "None"
    case _ => "<object>"
  }

  function Rendered(md: Metadata): Bindings {
    map k | k in md :: Render(md[k])
  }

  /** The template can be formatted with `md`: no stray brace, every group
      names a keyword (not a position) and every keyword is present. */
  ghost predicate Formattable(segs: seq<Seg>, md: Metadata) {
    forall k :: 0 <= k < |segs| ==>
      match segs[k]
      case Char(c) => c != '{' && c != '}'
      case Group(body) => !IsPositional(FieldName(body)) && FieldName(body) in md
  }

  /** `template.format(**md)`, left to right: a stray brace is a `ValueError`,
      a positional field (`{}`, `{0}`) an `IndexError` (no positional
      arguments are passed) and a missing keyword a `KeyError` naming it. */
  function Substitute(segs: seq<Seg>, md: Metadata): (r: Result<string>)
    ensures r.Ok? <==> Formattable(segs, md)
    ensures r.Ok? ==> r.value == Fill(segs, Rendered(md))
    ensures r.Err? && r.error.KeyError? ==> r.error.key !in md && !r.error.hinted
    ensures r.Err? ==> r.error.ValueError? || r.error.IndexError? || r.error.KeyError?
  {
    if |segs| == 0 then Ok("")
    else
      match segs[0]
      case Char(c) =>
        if c == '{' || c == '}' then Err(ValueError("single brace in format string"))
        else
          var rest :- Substitute(segs[1..], md);
          assert forall k :: 1 <= k < |segs| ==> segs[k] == segs[1..][k - 1];
          Ok([c] + rest)
      case Group(body) =>
        var name := FieldName(body);
        if IsPositional(name) then Err(IndexError("replacement index out of range"))
        else if name !in md then Err(KeyError(name, false))
        else
          var rest :- Substitute(segs[1..], md);
          assert forall k :: 1 <= k < |segs| ==> segs[k] == segs[1..][k - 1];
          Ok(Render(md[name]) + rest)
  }
}
