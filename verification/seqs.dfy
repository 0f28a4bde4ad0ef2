/** Small sequence helpers used by several modules. */
module Seqs {

  /** No element occurs twice. */
  ghost predicate Distinct<T>(xs: seq<T>) {
    forall i, j :: 0 <= i < j < |xs| ==> xs[i] != xs[j]
  }

  /** Position of the first occurrence of `x` in `xs`. */
  function IndexOf<T(==)>(xs: seq<T>, x: T): (i: nat)
    requires x in xs
    ensures i < |xs| && xs[i] == x
    ensures forall j :: 0 <= j < i ==> xs[j] != x
  {
    if xs[0] == x then 0 else 1 + IndexOf(xs[1..], x)
  }

  /** `f` applied to every element, in order. */
  function Map<T, U>(f: T -> U, xs: seq<T>): (r: seq<U>)
    ensures |r| == |xs| && forall i :: 0 <= i < |xs| ==> r[i] == f(xs[i])
  {
    seq(|xs|, i requires 0 <= i < |xs| => f(xs[i]))
  }

  /** Mapping distributes over concatenation. */
  lemma MapConcat<T, U>(f: T -> U, a: seq<T>, b: seq<T>)
    ensures Map(f, a + b) == Map(f, a) + Map(f, b)
  {
    var l, r := Map(f, a + b), Map(f, a) + Map(f, b);
    forall i | 0 <= i < |l|
      ensures l[i] == r[i]
    {
      if i < |a| {
        assert (a + b)[i] == a[i];
      } else {
        assert (a + b)[i] == b[i - |a|];
      }
    }
  }

  /** Concatenation of a sequence of sequences. */
  function Flatten<T>(xss: seq<seq<T>>): seq<T> {
    if |xss| == 0 then [] else Flatten(xss[..|xss| - 1]) + xss[|xss| - 1]
  }

  /** The sequence read backwards. */
  function Reverse<T>(xs: seq<T>): (r: seq<T>)
    ensures |r| == |xs|
    ensures forall i :: 0 <= i < |xs| ==> r[i] == xs[|xs| - 1 - i]
  {
    if |xs| == 0 then [] else [xs[|xs| - 1]] + Reverse(xs[..|xs| - 1])
  }

  /** Keeps the first occurrence of every element, in order. */
  function Dedupe<T(==,!new)>(xs: seq<T>): (r: seq<T>)
    ensures Distinct(r)
    ensures forall x :: x in r <==> x in xs
    ensures |r| <= |xs|
  {
    DedupeFrom(xs, [])
  }

  /** Appends to `acc` every element of `xs` not yet seen, in order. */
  function DedupeFrom<T(==,!new)>(xs: seq<T>, acc: seq<T>): (r: seq<T>)
    requires Distinct(acc)
    ensures Distinct(r)
    ensures forall x :: x in r <==> x in acc || x in xs
    ensures |r| <= |acc| + |xs|
    ensures |acc| <= |r| && r[..|acc|] == acc
    decreases |xs|
  {
    if |xs| == 0 then acc
    else if xs[0] in acc then DedupeFrom(xs[1..], acc)
    else DedupeFrom(xs[1..], acc + [xs[0]])
  }

  /** In a deduplicated sequence, elements keep the order of their first
      occurrence in the input. */
  lemma {:induction false} DedupeKeepsFirstOccurrenceOrder<T(!new)>(xs: seq<T>, i: nat, j: nat)
    requires i < j < |Dedupe(xs)|
    ensures IndexOf(xs, Dedupe(xs)[i]) < IndexOf(xs, Dedupe(xs)[j])
  {
    DedupeFromOrder(xs, [], i, j);
  }

  lemma {:induction false} DedupeFromOrder<T(!new)>(xs: seq<T>, acc: seq<T>, i: nat, j: nat)
    requires Distinct(acc)
    requires |acc| <= i < j < |DedupeFrom(xs, acc)|
    ensures DedupeFrom(xs, acc)[i] in xs && DedupeFrom(xs, acc)[j] in xs
    ensures IndexOf(xs, DedupeFrom(xs, acc)[i]) < IndexOf(xs, DedupeFrom(xs, acc)[j])
    decreases |xs|
  {
    var r := DedupeFrom(xs, acc);
    var acc' := if xs[0] in acc then acc else acc + [xs[0]];
    assert r == DedupeFrom(xs[1..], acc');
    assert r[..|acc'|] == acc';
    assert xs[0] in acc';
    PastPrefix(r, acc', xs[0], j);
    assert r[j] in xs[1..] by {
      PastPrefix(r, acc, r[j], j);
    }
    IndexOfTail(xs, r[j]);
    if i < |acc'| {
      assert r[i] == xs[0];
    } else {
      PastPrefix(r, acc', xs[0], i);
      DedupeFromOrder(xs[1..], acc', i, j);
      IndexOfTail(xs, r[i]);
    }
  }

  /** In a sequence without repeats, what follows a prefix is not in it. */
  lemma PastPrefix<T>(r: seq<T>, p: seq<T>, x: T, i: nat)
    requires Distinct(r) && |p| <= i < |r| && r[..|p|] == p
    ensures x in p ==> r[i] != x
  {
    if x in p {
      var k :| 0 <= k < |p| && p[k] == x;
      assert r[k] == x;
    }
  }

  /** Deduplicating one more element appends it when it is new. */
  lemma {:induction false} DedupeSnoc<T(!new)>(xs: seq<T>, x: T)
    ensures Dedupe(xs + [x]) == if x in Dedupe(xs) then Dedupe(xs) else Dedupe(xs) + [x]
  {
    DedupeFromSnoc(xs, [], x);
  }

  lemma {:induction false} DedupeFromSnoc<T(!new)>(xs: seq<T>, acc: seq<T>, x: T)
    requires Distinct(acc)
    ensures var r := DedupeFrom(xs, acc);
      DedupeFrom(xs + [x], acc) == if x in r then r else r + [x]
    decreases |xs|
  {
    if |xs| == 0 {
      assert xs + [x] == [x];
      assert [x][1..] == [];
    } else {
      assert (xs + [x])[0] == xs[0];
      assert (xs + [x])[1..] == xs[1..] + [x];
      if xs[0] in acc {
        DedupeFromSnoc(xs[1..], acc, x);
      } else {
        DedupeFromSnoc(xs[1..], acc + [xs[0]], x);
      }
    }
  }

  lemma IndexOfTail<T>(xs: seq<T>, x: T)
    requires |xs| > 0 && x in xs[1..] && xs[0] != x
    ensures IndexOf(xs, x) == 1 + IndexOf(xs[1..], x)
  {
  }

  /** A sequence without repeats that has two or more elements holds some
      element other than `x`. */
  lemma DistinctHasOther<T>(xs: seq<T>, x: T)
    requires Distinct(xs)
    ensures |xs| <= 1 || exists i :: 0 <= i < |xs| && xs[i] != x
  {
    if |xs| > 1 {
      if xs[0] == x {
        assert xs[1] != x;
      }
    }
  }

  /** Flattening distributes over concatenation. */
  lemma {:induction false} FlattenConcat<T>(xss: seq<seq<T>>, yss: seq<seq<T>>)
    ensures Flatten(xss + yss) == Flatten(xss) + Flatten(yss)
    decreases |yss|
  {
    if |yss| == 0 {
      assert xss + yss == xss;
    } else {
      var init := yss[..|yss| - 1];
      assert (xss + yss)[..|xss + yss| - 1] == xss + init;
      assert (xss + yss)[|xss + yss| - 1] == yss[|yss| - 1];
      FlattenConcat(xss, init);
    }
  }

  /** An element of the flattening is an element of one of the parts. */
  lemma {:induction false} FlattenMembers<T>(xss: seq<seq<T>>, x: T)
    ensures x in Flatten(xss) <==> exists i :: 0 <= i < |xss| && x in xss[i]
    decreases |xss|
  {
    if |xss| > 0 {
      var init := xss[..|xss| - 1];
      FlattenMembers(init, x);
      if x in Flatten(init) {
        var i :| 0 <= i < |init| && x in init[i];
        assert init[i] == xss[i];
      }
      if exists i :: 0 <= i < |xss| && x in xss[i] {
        var i :| 0 <= i < |xss| && x in xss[i];
        if i < |init| {
          assert init[i] == xss[i];
        }
      }
    }
  }
}
