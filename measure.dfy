/** Why the walk terminates. The pass recurses into a dict value after
    rewriting it, and the missing-schema fix grows the value by a schema
    inferred from an example that may be arbitrarily large. The walk is
    bounded first by the number of `application/json` entries still waiting
    for that fix (each fix removes one and its schema adds none), then by the
    size of the tree (the other fixes add at most two scalar entries, less
    than what the enclosing entry accounts for). */
module Measure {
  import opened Json
  import opened Infer

  /** An `application/json` entry that has examples but no schema: the one
      place where the pass adds a subtree and then walks it. */
  predicate IsSchemaSite(k: string, v: Node) {
    k == "application/json" && v.Obj? && HasKey(v.entries, "examples") && !HasKey(v.entries, "schema")
  }

  function SiteCount(k: string, v: Node): nat {
    if IsSchemaSite(k, v) then 1 else 0
  }

  /** The number of schema sites in a tree. */
  function Pending(n: Node): nat
    decreases n, 1
  {
    match n
    case Obj(_) => PendingEntries(n, 0)
    case Arr(_) => PendingItems(n, 0)
    case _ => 0
  }

  function PendingEntries(parent: Node, from: nat): nat
    requires parent.Obj? && from <= |parent.entries|
    decreases parent, 0, |parent.entries| - from
  {
    var es := parent.entries;
    if from == |es| then 0
    else SiteCount(es[from].0, es[from].1) + Pending(es[from].1) + PendingEntries(parent, from + 1)
  }

  function PendingItems(parent: Node, from: nat): nat
    requires parent.Arr? && from <= |parent.items|
    decreases parent, 0, |parent.items| - from
  {
    var xs := parent.items;
    if from == |xs| then 0 else Pending(xs[from]) + PendingItems(parent, from + 1)
  }

  /** The size of a tree: every container and every entry or element counts. */
  function Size(n: Node): nat
    decreases n, 1
  {
    match n
    case Obj(_) => 3 + SizeEntries(n, 0)
    case Arr(_) => 1 + SizeItems(n, 0)
    case _ => 0
  }

  function SizeEntries(parent: Node, from: nat): nat
    requires parent.Obj? && from <= |parent.entries|
    decreases parent, 0, |parent.entries| - from
  {
    var es := parent.entries;
    if from == |es| then 0 else 1 + Size(es[from].1) + SizeEntries(parent, from + 1)
  }

  function SizeItems(parent: Node, from: nat): nat
    requires parent.Arr? && from <= |parent.items|
    decreases parent, 0, |parent.items| - from
  {
    var xs := parent.items;
    if from == |xs| then 0 else 1 + Size(xs[from]) + SizeItems(parent, from + 1)
  }

  lemma {:induction false} EntriesShift(e: (string, Node), es: seq<(string, Node)>, j: nat)
    requires j <= |es|
    ensures PendingEntries(Obj([e] + es), j + 1) == PendingEntries(Obj(es), j)
    ensures SizeEntries(Obj([e] + es), j + 1) == SizeEntries(Obj(es), j)
    decreases |es| - j
  {
    if j < |es| {
      EntriesShift(e, es, j + 1);
      assert ([e] + es)[j + 1] == es[j];
    }
  }

  lemma {:induction false} ItemsShift(x: Node, xs: seq<Node>, j: nat)
    requires j <= |xs|
    ensures PendingItems(Arr([x] + xs), j + 1) == PendingItems(Arr(xs), j)
    ensures SizeItems(Arr([x] + xs), j + 1) == SizeItems(Arr(xs), j)
    decreases |xs| - j
  {
    if j < |xs| {
      ItemsShift(x, xs, j + 1);
      assert ([x] + xs)[j + 1] == xs[j];
    }
  }

  /** Both measures of an object are sums over its entries. */
  lemma ObjCons(e: (string, Node), es: seq<(string, Node)>)
    ensures Pending(Obj([e] + es)) == SiteCount(e.0, e.1) + Pending(e.1) + Pending(Obj(es))
    ensures Size(Obj([e] + es)) == Size(Obj(es)) + 1 + Size(e.1)
  {
    EntriesShift(e, es, 0);
    assert ([e] + es)[0] == e;
  }

  /** Both measures of a list are sums over its elements. */
  lemma ArrCons(x: Node, xs: seq<Node>)
    ensures Pending(Arr([x] + xs)) == Pending(x) + Pending(Arr(xs))
    ensures Size(Arr([x] + xs)) == Size(Arr(xs)) + 1 + Size(x)
  {
    ItemsShift(x, xs, 0);
    assert ([x] + xs)[0] == x;
  }

  /** An entry accounts for its own site and subtree, and for less than the
      size of its object minus four. */
  lemma {:induction false} EntryBound(es: seq<(string, Node)>, i: int)
    requires 0 <= i < |es|
    ensures Pending(Obj(es)) >= SiteCount(es[i].0, es[i].1) + Pending(es[i].1)
    ensures Size(Obj(es)) >= 4 + Size(es[i].1)
  {
    assert es == [es[0]] + es[1..];
    ObjCons(es[0], es[1..]);
    if i > 0 {
      EntryBound(es[1..], i - 1);
    }
  }

  /** An element accounts for its subtree, and for less than its list's size. */
  lemma {:induction false} ItemBound(xs: seq<Node>, i: int)
    requires 0 <= i < |xs|
    ensures Pending(Arr(xs)) >= Pending(xs[i])
    ensures Size(Arr(xs)) > Size(xs[i])
  {
    assert xs == [xs[0]] + xs[1..];
    ArrCons(xs[0], xs[1..]);
    if i > 0 {
      ItemBound(xs[1..], i - 1);
    }
  }

  /** Deleting entries adds no site and no size. */
  lemma {:induction false} WithoutBound(es: seq<(string, Node)>, gone: set<string>)
    ensures Pending(Obj(Without(es, gone))) <= Pending(Obj(es))
    ensures Size(Obj(Without(es, gone))) <= Size(Obj(es))
  {
    if es != [] {
      WithoutBound(es[1..], gone);
      assert es == [es[0]] + es[1..];
      ObjCons(es[0], es[1..]);
      if es[0].0 !in gone {
        assert Without(es, gone) == [es[0]] + Without(es[1..], gone);
        ObjCons(es[0], Without(es[1..], gone));
      } else {
        assert Without(es, gone) == Without(es[1..], gone);
      }
    }
  }

  /** Storing a value under any key but `application/json` adds at most that
      value's sites, and at most its size plus one. */
  lemma {:induction false} SetBound(es: seq<(string, Node)>, k: string, x: Node)
    requires k != "application/json"
    ensures Pending(Obj(Set(es, k, x))) <= Pending(Obj(es)) + Pending(x)
    ensures Size(Obj(Set(es, k, x))) <= Size(Obj(es)) + 1 + Size(x)
  {
    if es == [] {
      assert Set(es, k, x) == [(k, x)] + [];
      ObjCons((k, x), []);
    } else {
      assert es == [es[0]] + es[1..];
      ObjCons(es[0], es[1..]);
      if es[0].0 == k {
        ObjCons((k, x), es[1..]);
      } else {
        SetBound(es[1..], k, x);
        ObjCons(es[0], Set(es[1..], k, x));
      }
    }
  }

  /** An inferred schema holds no schema site, so walking it never triggers
      the missing-schema fix again. */
  lemma {:induction false} InferPendingFree(n: Node)
    requires InferSchema(n).Ok?
    ensures Pending(InferSchema(n).value) == 0
    decreases n, 1, 0
  {
    var s := InferSchema(n).value;
    var rest := s.entries[1..];
    assert s.entries == [s.entries[0]] + rest;
    ObjCons(s.entries[0], rest);
    assert rest == [s.entries[1]] + [];
    ObjCons(s.entries[1], []);
    match n
    case Arr(xs) =>
      InferPendingFree(xs[0]);
    case Obj(es) =>
      InferEntriesPendingFree(n, 0);
    case _ =>
  }

  lemma {:induction false} InferEntriesPendingFree(parent: Node, from: nat)
    requires parent.Obj? && from <= |parent.entries|
    requires InferEntries(parent, from).Ok?
    ensures Pending(Obj(InferEntries(parent, from).value)) == 0
    decreases parent, 0, |parent.entries| - from
  {
    var es := parent.entries;
    if from < |es| {
      var s := InferSchema(es[from].1).value;
      var ps := InferEntries(parent, from + 1).value;
      assert InferEntries(parent, from).value == [(es[from].0, s)] + ps;
      ObjCons((es[from].0, s), ps);
      assert !HasKey(s.entries, "examples");
      InferPendingFree(es[from].1);
      InferEntriesPendingFree(parent, from + 1);
    }
  }
}
