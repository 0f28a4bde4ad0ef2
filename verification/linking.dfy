/** The object links behind a chain: every spec object has a `_child` and a
    `_parent` reference. `+` appends at the tail of the receiver's chain;
    `children()` walks the child links. Objects live in a heap of cells
    addressed by identity. */
module Linking {
  import opened Wrappers
  import opened Nodes
  import Seqs

  type Id = nat

  /** A spec object: its configuration and its two links. */
  datatype Cell = Cell(node: Node, child: Option<Id>, parent: Option<Id>)

  type Heap = map<Id, Cell>

  /** The right-hand side of `+`, or a value given to the `parent` setter:
      a spec object, or any object that is not a spec. */
  datatype Operand = Spec(id: Id) | Foreign

  /** The objects a cell links to. */
  function Links(c: Cell): set<Id> {
    (if c.child.Some? then {c.child.value} else {}) + (if c.parent.Some? then {c.parent.value} else {})
  }

  /** Every link points at an object of the heap. */
  ghost predicate Closed(h: Heap) {
    forall x :: x in h ==> Links(h[x]) <= h.Keys
  }

  lemma ChildInHeap(h: Heap, x: Id)
    requires Closed(h) && x in h && h[x].child.Some?
    ensures h[x].child.value in h
  {
    assert h[x].child.value in Links(h[x]);
  }

  /** The `parent` setter: anything but a spec object is rejected. */
  function SetParent(h: Heap, a: Id, p: Operand): (r: Result<Heap>)
    requires a in h
    ensures p.Foreign? <==> r.Err?
    ensures r.Err? ==> r.error.TypeError?
    ensures r.Ok? ==> r.value.Keys == h.Keys && r.value[a].parent == Some(p.id)
    ensures r.Ok? ==> r.value[a].node == h[a].node && r.value[a].child == h[a].child
    ensures r.Ok? ==> forall x :: x in h && x != a ==> r.value[x] == h[x]
  {
    match p
    case Foreign => Err(TypeError("parents must be subclasses of BaseSpec"))
    case Spec(id) => Ok(h[a := h[a].(parent := Some(id))])
  }

  /** `a + other`. A non-spec operand is rejected before anything changes.
      With no child yet, `a` claims `other` as its child and becomes its
      parent; otherwise the addition is passed down to the child, whose own
      reassignment keeps the same link. `fuel` stands for Python's recursion
      limit: a chain deeper than it (or one that loops) raises
      `RecursionError`. The expression's value is `a` itself. */
  function Add(h: Heap, a: Id, other: Operand, fuel: nat): (r: Result<Heap>)
    requires a in h && Closed(h) && (other.Spec? ==> other.id in h)
    ensures r.Ok? ==> r.value.Keys == h.Keys && Closed(r.value)
    ensures other.Foreign? ==> r == Err(TypeError("can only add subclasses of BaseSpec"))
    decreases fuel
  {
    if other.Foreign? then Err(TypeError("can only add subclasses of BaseSpec"))
    else if fuel == 0 then Err(RecursionError)
    else
      match h[a].child
      case None =>
        var h1 := h[a := h[a].(child := Some(other.id))];
        SetParent(h1, other.id, Spec(a))
      case Some(c) =>
        ChildInHeap(h, a);
        var h1 :- Add(h, c, other, fuel - 1);
        Ok(h1[a := h1[a].(child := Some(c))])
  }

  /** `x` followed by the objects reached from it by child links. */
  function Follow(h: Heap, x: Id, fuel: nat): Option<seq<Id>>
    requires x in h && Closed(h)
    decreases fuel
  {
    if fuel == 0 then None
    else
      match h[x].child
      case None => Some([x])
      case Some(c) =>
        ChildInHeap(h, x);
        match Follow(h, c, fuel - 1)
        case None => None
        case Some(rest) => Some([x] + rest)
  }

  /** `children()`: nothing without a child, otherwise every object from
      the child to the tail, in link order. On a looping chain the
      generator never ends, which `None` stands for. */
  function Children(h: Heap, a: Id, fuel: nat): Option<seq<Id>>
    requires a in h && Closed(h)
  {
    match h[a].child
    case None => Some([])
    case Some(c) => Follow(h, c, fuel)
  }

  /** The objects `xs` are linked one to the next, and the last has no child. */
  ghost predicate Linked(h: Heap, xs: seq<Id>)
    decreases |xs|
  {
    |xs| == 0 ||
    (xs[0] in h && if |xs| == 1 then h[xs[0]].child.None? else h[xs[0]].child == Some(xs[1]) && Linked(h, xs[1..]))
  }

  /** The children of `a` are exactly `cs`, in order. */
  ghost predicate ChainIs(h: Heap, a: Id, cs: seq<Id>) {
    a in h && Linked(h, cs) && h[a].child == (if |cs| == 0 then None else Some(cs[0]))
  }

  lemma {:induction false} FollowLinked(h: Heap, xs: seq<Id>, fuel: nat)
    requires Closed(h) && |xs| > 0 && Linked(h, xs) && fuel >= |xs|
    ensures Follow(h, xs[0], fuel) == Some(xs)
    decreases |xs|
  {
    if |xs| == 1 {
      assert xs == [xs[0]];
    } else {
      assert xs[1..][0] == xs[1];
      FollowLinked(h, xs[1..], fuel - 1);
      assert xs == [xs[0]] + xs[1..];
    }
  }

  lemma {:induction false} FollowIsLinked(h: Heap, x: Id, fuel: nat)
    requires x in h && Closed(h) && Follow(h, x, fuel).Some?
    ensures var xs := Follow(h, x, fuel).value; |xs| > 0 && xs[0] == x && Linked(h, xs) && |xs| <= fuel
    decreases fuel
  {
    if h[x].child.Some? {
      var c := h[x].child.value;
      ChildInHeap(h, x);
      FollowIsLinked(h, c, fuel - 1);
      var rest := Follow(h, c, fuel - 1).value;
      assert ([x] + rest)[1..] == rest;
    }
  }

  /** `children()` yields exactly the linked objects: what it yields is a
      linked chain from `a`'s child, and any linked chain from `a`'s child
      shorter than the recursion limit is what it yields. */
  lemma ChildrenExactly(h: Heap, a: Id, cs: seq<Id>, fuel: nat)
    requires a in h && Closed(h)
    ensures Children(h, a, fuel) == Some(cs) ==> ChainIs(h, a, cs)
    ensures ChainIs(h, a, cs) && fuel >= |cs| ==> Children(h, a, fuel) == Some(cs)
  {
    if h[a].child.Some? {
      var c := h[a].child.value;
      if Follow(h, c, fuel).Some? {
        FollowIsLinked(h, c, fuel);
      }
      if ChainIs(h, a, cs) && fuel >= |cs| {
        FollowLinked(h, cs, fuel);
      }
    }
  }

  /** A chain stays linked in a heap that keeps its objects' child links. */
  lemma {:induction false} LinkedFrame(h: Heap, h2: Heap, xs: seq<Id>)
    requires Linked(h, xs)
    requires forall i :: 0 <= i < |xs| ==> xs[i] in h && xs[i] in h2 && h2[xs[i]].child == h[xs[i]].child
    ensures Linked(h2, xs)
    decreases |xs|
  {
    if |xs| > 1 {
      forall i | 0 <= i < |xs| - 1
        ensures xs[1..][i] in h && xs[1..][i] in h2 && h2[xs[1..][i]].child == h[xs[1..][i]].child
      {
        assert xs[1..][i] == xs[i + 1];
      }
      LinkedFrame(h, h2, xs[1..]);
    }
  }

  lemma {:induction false} LinkedInHeap(h: Heap, xs: seq<Id>)
    requires Linked(h, xs)
    ensures forall i :: 0 <= i < |xs| ==> xs[i] in h
    decreases |xs|
  {
    if |xs| > 1 {
      LinkedInHeap(h, xs[1..]);
      assert forall i :: 1 <= i < |xs| ==> xs[i] == xs[1..][i - 1];
    }
  }

  /** At the tail, `a + b` links `a` to `b` and `b` back to `a`. */
  lemma AddAtTail(h: Heap, a: Id, b: Id, ds: seq<Id>, fuel: nat)
    requires Closed(h) && a in h && h[a].child.None? && ChainIs(h, b, ds)
    requires a != b && a !in ds && b !in ds && fuel > 0
    ensures var r := Add(h, a, Spec(b), fuel);
      && r.Ok?
      && ChainIs(r.value, a, [b] + ds)
      && r.value[b] == h[b].(parent := Some(a))
      && r.value[a] == h[a].(child := Some(b))
      && forall x :: x in h && x != a && x != b ==> r.value[x] == h[x]
  {
    var h2 := Add(h, a, Spec(b), fuel).value;
    assert h2 == h[a := h[a].(child := Some(b))][b := h[b].(parent := Some(a))];
    LinkedInHeap(h, ds);
    forall i | 0 <= i < |ds|
      ensures ds[i] in h && ds[i] in h2 && h2[ds[i]].child == h[ds[i]].child
    {
      assert ds[i] in ds;
    }
    LinkedFrame(h, h2, ds);
    var after := [b] + ds;
    assert after[1..] == ds;
    assert Linked(h2, after);
  }

  /** Below the tail, `a + b` is the child's addition: `a`'s own reassignment
      keeps the link it had. */
  lemma AddPassesDown(h: Heap, a: Id, b: Id, fuel: nat)
    requires Closed(h) && a in h && b in h && h[a].child.Some? && fuel > 0
    requires h[a].child.value in h
    requires var inner := Add(h, h[a].child.value, Spec(b), fuel - 1); inner.Ok? && inner.value[a] == h[a]
    ensures Add(h, a, Spec(b), fuel) == Add(h, h[a].child.value, Spec(b), fuel - 1)
  {
    var c := h[a].child.value;
    var h1 := Add(h, c, Spec(b), fuel - 1).value;
    assert h1[a].(child := Some(c)) == h1[a];
    assert h1[a := h1[a]] == h1;
  }

  /** `r` is `h` after appending `b` (with its own children `ds`) to `a`
      (with children `cs`): `a`'s children are `cs`, then `b`, then `ds`;
      `b`'s parent is the former tail; only the former tail's child link and
      `b`'s parent link differ from `h`. */
  ghost predicate Appended(h: Heap, r: Result<Heap>, a: Id, cs: seq<Id>, b: Id, ds: seq<Id>)
    requires b in h && (|cs| == 0 ==> a in h) && (forall i :: 0 <= i < |cs| ==> cs[i] in h)
  {
    var tail := if |cs| == 0 then a else cs[|cs| - 1];
    && r.Ok?
    && r.value.Keys == h.Keys
    && ChainIs(r.value, a, cs + [b] + ds)
    && r.value[b] == h[b].(parent := Some(tail))
    && r.value[tail] == h[tail].(child := Some(b))
    && forall x :: x in h && x != tail && x != b ==> r.value[x] == h[x]
  }

  /** The inductive step of `AddAppends`: when the child's addition gives
      `r` and leaves `a` as it was, `a`'s addition gives `r` too, and that is
      the append with `a` in front. */
  lemma AddAppendsStep(h: Heap, a: Id, cs: seq<Id>, b: Id, ds: seq<Id>, r: Result<Heap>)
    requires ChainIs(h, a, cs) && b in h && |cs| > 0
    requires a != b && a != cs[|cs| - 1]
    requires forall i :: 0 <= i < |cs| ==> cs[i] in h
    requires Appended(h, r, cs[0], cs[1..], b, ds)
    ensures Appended(h, r, a, cs, b, ds)
  {
    var c := cs[0];
    var rest := cs[1..] + [b] + ds;
    var tail := cs[|cs| - 1];
    assert tail == (if |cs[1..]| == 0 then c else cs[1..][|cs[1..]| - 1]);
    assert ChainIs(r.value, c, rest);
    assert r.value[a] == h[a];
    assert cs + [b] + ds == [c] + rest;
    LinkedCons(r.value, c, rest);
  }

  /** An object whose child heads a linked chain heads one itself. */
  lemma LinkedCons(h: Heap, c: Id, rest: seq<Id>)
    requires ChainIs(h, c, rest)
    ensures Linked(h, [c] + rest)
  {
    assert ([c] + rest)[1..] == rest;
  }

  /** Appending `b` (with its own children `ds`) to `a` (with children
      `cs`), all distinct and the chain within the recursion limit. */
  lemma {:induction false} AddAppends(h: Heap, a: Id, cs: seq<Id>, b: Id, ds: seq<Id>, fuel: nat)
    requires Closed(h) && ChainIs(h, a, cs) && ChainIs(h, b, ds)
    requires Seqs.Distinct([a] + cs + [b] + ds)
    requires fuel > |cs|
    ensures forall i :: 0 <= i < |cs| ==> cs[i] in h
    ensures Appended(h, Add(h, a, Spec(b), fuel), a, cs, b, ds)
    decreases |cs|
  {
    LinkedInHeap(h, cs);
    AppendOperandsApart(a, cs, b, ds);
    if |cs| == 0 {
      AddAtTail(h, a, b, ds, fuel);
      assert cs + [b] + ds == [b] + ds;
    } else {
      var c := cs[0];
      ChainTail(h, a, cs);
      AddAppends(h, c, cs[1..], b, ds, fuel - 1);
      AddAppendsStep(h, a, cs, b, ds, Add(h, c, Spec(b), fuel - 1));
      AddPassesDown(h, a, b, fuel);
    }
  }

  /** The facts `AddAppends` needs from the objects being distinct. */
  lemma AppendOperandsApart(a: Id, cs: seq<Id>, b: Id, ds: seq<Id>)
    requires Seqs.Distinct([a] + cs + [b] + ds)
    ensures a != b && a !in ds && b !in ds
    ensures |cs| > 0 ==> a != cs[|cs| - 1] && Seqs.Distinct([cs[0]] + cs[1..] + [b] + ds)
  {
    var all := [a] + cs + [b] + ds;
    assert all[0] == a && all[|cs| + 1] == b;
    forall i | 0 <= i < |ds| ensures ds[i] != a && ds[i] != b {
      assert ds[i] == all[|cs| + 2 + i];
    }
    if |cs| > 0 {
      assert all[|cs|] == cs[|cs| - 1];
      var all' := [cs[0]] + cs[1..] + [b] + ds;
      assert all' == all[1..];
      forall i, j | 0 <= i < j < |all'| ensures all'[i] != all'[j] {
        assert all'[i] == all[i + 1] && all'[j] == all[j + 1];
      }
    }
  }

  /** The child of `a` heads the rest of `a`'s children. */
  lemma ChainTail(h: Heap, a: Id, cs: seq<Id>)
    requires ChainIs(h, a, cs) && |cs| > 0
    ensures ChainIs(h, cs[0], cs[1..])
  {
    if |cs| > 1 {
      assert cs[1..][0] == cs[1];
    }
  }

  /** A chain deeper than the recursion limit cannot be extended. */
  lemma {:induction false} AddBeyondLimit(h: Heap, a: Id, cs: seq<Id>, b: Id, fuel: nat)
    requires Closed(h) && ChainIs(h, a, cs) && b in h && fuel <= |cs|
    ensures Add(h, a, Spec(b), fuel) == Err(RecursionError)
    decreases fuel
  {
    if fuel > 0 {
      assert ChainIs(h, cs[0], cs[1..]) by {
        forall i | 0 <= i < |cs| - 1 ensures cs[1..][i] == cs[i + 1] { }
      }
      AddBeyondLimit(h, cs[0], cs[1..], b, fuel - 1);
    }
  }

  /** Nothing stops `a + a`: on an object without children it makes the
      object its own child and parent, after which `children()` never ends
      and every further `+` hits the recursion limit. */
  lemma SelfAddLoops(h: Heap, a: Id, fuel: nat, other: Id)
    requires Closed(h) && a in h && h[a].child.None? && fuel > 0 && other in h
    ensures var r := Add(h, a, Spec(a), fuel);
      && r.Ok? && r.value[a].child == Some(a) && r.value[a].parent == Some(a)
      && (forall f: nat :: Children(r.value, a, f).None?)
      && (forall f: nat :: Add(r.value, a, Spec(other), f) == Err(RecursionError))
  {
    var h2 := Add(h, a, Spec(a), fuel).value;
    forall f: nat
      ensures Follow(h2, a, f).None?
    {
      FollowSelfLoop(h2, a, f);
    }
    forall f: nat
      ensures Add(h2, a, Spec(other), f) == Err(RecursionError)
    {
      AddSelfLoop(h2, a, other, f);
    }
  }

  lemma {:induction false} FollowSelfLoop(h: Heap, a: Id, f: nat)
    requires Closed(h) && a in h && h[a].child == Some(a)
    ensures Follow(h, a, f).None?
    decreases f
  {
    if f > 0 {
      FollowSelfLoop(h, a, f - 1);
    }
  }

  lemma {:induction false} AddSelfLoop(h: Heap, a: Id, other: Id, f: nat)
    requires Closed(h) && a in h && h[a].child == Some(a) && other in h
    ensures Add(h, a, Spec(other), f) == Err(RecursionError)
    decreases f
  {
    if f > 0 {
      AddSelfLoop(h, a, other, f - 1);
    }
  }
}
