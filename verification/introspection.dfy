/** `IntrospectionMixin`: the constructor parameter names of a class and its
    bases, the arguments collected for them from the call frames, and the
    dotted full name. The method resolution order, the signatures and the
    frames' locals are inputs. */
module Introspection {
  import Seqs

  /** The names `_full_sig_names` skips. */
  predicate Excluded(p: string) {
    p == "self" || p == "args" || p == "kwargs"
  }

  /** The names of `xs` that are not skipped, in order. */
  function Keep(xs: seq<string>): (r: seq<string>)
    ensures forall p :: p in r <==> p in xs && !Excluded(p)
  {
    if |xs| == 0 then []
    else
      var init := Keep(xs[..|xs| - 1]);
      assert forall p :: p in xs <==> p in xs[..|xs| - 1] || p == xs[|xs| - 1] by {
        assert xs == xs[..|xs| - 1] + [xs[|xs| - 1]];
      }
      if Excluded(xs[|xs| - 1]) then init else init + [xs[|xs| - 1]]
  }

  /** Every parameter name met when walking the signatures from the most
      basic class (the end of the MRO) to the class itself. */
  function Walk(mro: seq<seq<string>>): seq<string> {
    Seqs.Flatten(Seqs.Reverse(mro))
  }

  /** The reference result: the walk's names without skipped ones, each kept
      at its first occurrence. */
  function SigNames(mro: seq<seq<string>>): seq<string> {
    Seqs.Dedupe(Keep(Walk(mro)))
  }

  lemma SliceSnoc(done: seq<string>, params: seq<string>, j: nat)
    requires j < |params|
    ensures done + params[..j + 1] == (done + params[..j]) + [params[j]]
  {
    assert params[..j + 1] == params[..j] + [params[j]];
  }

  lemma KeepDedupeSnoc(xs: seq<string>, p: string)
    ensures Seqs.Dedupe(Keep(xs + [p])) ==
      if Excluded(p) || p in Seqs.Dedupe(Keep(xs)) then Seqs.Dedupe(Keep(xs)) else Seqs.Dedupe(Keep(xs)) + [p]
  {
    assert (xs + [p])[..|xs + [p]| - 1] == xs;
    if !Excluded(p) {
      Seqs.DedupeSnoc(Keep(xs), p);
    }
  }

  lemma WalkSnoc(mro: seq<seq<string>>, k: nat)
    requires k < |mro|
    ensures Seqs.Flatten(Seqs.Reverse(mro)[..k + 1]) == Seqs.Flatten(Seqs.Reverse(mro)[..k]) + mro[|mro| - 1 - k]
  {
    var rs := Seqs.Reverse(mro);
    var pre := rs[..k + 1];
    assert |pre| == k + 1;
    assert pre[..k] == rs[..k];
    assert pre[k] == rs[k] == mro[|mro| - 1 - k];
    assert Seqs.Flatten(pre) == Seqs.Flatten(pre[..k]) + pre[k];
  }

  /** The inner loop of `_full_sig_names` over one signature's parameters:
      skipped names and names already collected are passed over. */
  method AddParams(names: seq<string>, ghost done: seq<string>, params: seq<string>) returns (names': seq<string>)
    requires names == Seqs.Dedupe(Keep(done))
    ensures names' == Seqs.Dedupe(Keep(done + params))
  {
    names' := names;
    var j := 0;
    assert done + params[..0] == done;
    while j < |params|
      invariant j <= |params|
      invariant names' == Seqs.Dedupe(Keep(done + params[..j]))
    {
      var p := params[j];
      KeepDedupeSnoc(done + params[..j], p);
      SliceSnoc(done, params, j);
      if !Excluded(p) && p !in names' {
        names' := names' + [p];
      }
      j := j + 1;
    }
    assert params[..|params|] == params;
  }

  /** `_full_sig_names`: for each class from the most basic to the class
      itself, each parameter of its signature in order, skipping `self`,
      `args` and `kwargs` and names already collected. */
  method FullSigNames(mro: seq<seq<string>>) returns (names: seq<string>)
    ensures names == SigNames(mro)
    ensures Seqs.Distinct(names)
    ensures forall i :: 0 <= i < |names| ==> !Excluded(names[i])
    ensures forall p :: p in names <==> !Excluded(p) && exists c :: 0 <= c < |mro| && p in mro[c]
  {
    names := [];
    ghost var done: seq<string> := [];
    var k := 0;
    while k < |mro|
      invariant k <= |mro|
      invariant done == Seqs.Flatten(Seqs.Reverse(mro)[..k])
      invariant names == Seqs.Dedupe(Keep(done))
    {
      names := AddParams(names, done, mro[|mro| - 1 - k]);
      WalkSnoc(mro, k);
      done := done + mro[|mro| - 1 - k];
      k := k + 1;
    }
    assert Seqs.Reverse(mro)[..|mro|] == Seqs.Reverse(mro);
    SigNamesMembers(mro);
  }

  /** The names collected are exactly the non-skipped parameter names of
      the classes of the MRO. */
  lemma SigNamesMembers(mro: seq<seq<string>>)
    ensures forall p :: p in SigNames(mro) <==> !Excluded(p) && exists c :: 0 <= c < |mro| && p in mro[c]
    ensures forall i :: 0 <= i < |SigNames(mro)| ==> !Excluded(SigNames(mro)[i])
  {
    assert forall i :: 0 <= i < |SigNames(mro)| ==> SigNames(mro)[i] in Keep(Walk(mro));
    var rs := Seqs.Reverse(mro);
    forall p
      ensures p in Walk(mro) <==> exists c :: 0 <= c < |mro| && p in mro[c]
    {
      Seqs.FlattenMembers(rs, p);
      if exists i :: 0 <= i < |rs| && p in rs[i] {
        var i :| 0 <= i < |rs| && p in rs[i];
        assert rs[i] == mro[|mro| - 1 - i];
      }
      if exists c :: 0 <= c < |mro| && p in mro[c] {
        var c :| 0 <= c < |mro| && p in mro[c];
        assert rs[|mro| - 1 - c] == mro[c];
      }
    }
  }

  /** Names appear in the order in which the walk from the most basic class
      first meets them. */
  lemma SigNamesFirstOccurrenceOrder(mro: seq<seq<string>>, i: nat, j: nat)
    requires i < j < |SigNames(mro)|
    ensures var names := SigNames(mro);
      names[i] in Walk(mro) && names[j] in Walk(mro) &&
      Seqs.IndexOf(Keep(Walk(mro)), names[i]) < Seqs.IndexOf(Keep(Walk(mro)), names[j])
  {
    Seqs.DedupeKeepsFirstOccurrenceOrder(Keep(Walk(mro)), i, j);
  }

  /** The loop of `_get_init_args`: the frames from the outermost to the
      innermost, each contributing its locals that are parameter names; a
      later (inner) frame overwrites an earlier one. */
  function InitArgs<V>(frames: seq<map<string, V>>, names: seq<string>): (r: map<string, V>)
    ensures forall k :: k in r <==> k in names && exists j :: 0 <= j < |frames| && k in frames[j]
  {
    if |frames| == 0 then map[]
    else
      var init := frames[..|frames| - 1];
      var last := frames[|frames| - 1];
      assert forall j :: 0 <= j < |init| ==> init[j] == frames[j];
      InitArgs(init, names) + map k | k in last && k in names :: last[k]
  }

  /** A collected argument has the value of the innermost frame holding it. */
  lemma {:induction false} InnermostFrameWins<V>(frames: seq<map<string, V>>, names: seq<string>, k: string, j: nat)
    requires j < |frames| && k in frames[j] && k in names
    requires forall m :: j < m < |frames| ==> k !in frames[m]
    ensures k in InitArgs(frames, names) && InitArgs(frames, names)[k] == frames[j][k]
    decreases |frames|
  {
    if j < |frames| - 1 {
      var init := frames[..|frames| - 1];
      assert init[j] == frames[j];
      InnermostFrameWins(init, names, k, j);
    }
  }

  /** `_full_name`: module and class joined by a single dot. */
  function FullName(moduleName: string, className: string): (r: string)
    ensures |r| == |moduleName| + 1 + |className|
    ensures r[..|moduleName|] == moduleName && r[|moduleName|] == '.' && r[|moduleName| + 1..] == className
  {
    moduleName + "." + className
  }

  /** A class name has no dot, so the full name determines both parts: the
      class is what follows the last dot. */
  lemma FullNameInjective(m1: string, c1: string, m2: string, c2: string)
    requires '.' !in c1 && '.' !in c2
    requires FullName(m1, c1) == FullName(m2, c2)
    ensures m1 == m2 && c1 == c2
  {
  }
}
