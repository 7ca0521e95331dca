/** What the walk of a dict guarantees about the dict it returns, entry by
    entry, and what the walk of a list guarantees about its elements. */
module WalkFacts {
  import opened Json
  import opened Text
  import opened Unescape
  import opened Dedup
  import opened Fixes
  import opened Walk

  /** Visiting entry `i` of `snap` sets key `m` of the dict to `true`: a
      `default` of `null` sets `nullable`, a `properties` dict that loses a
      duplicate sets `additionalProperties`. */
  predicate Writes(snap: Node, path: seq<string>, i: int, m: string)
    requires snap.Obj? && 0 <= i < |snap.entries|
  {
    var (k, v) := snap.entries[i];
    || (m == "nullable" && k == "default" && v.Null?)
    || (m == "additionalProperties" && k == "properties" && v.Obj?
        && DuplicateLog(v.entries, SortDescending(Keys(v.entries)), path + [k]) != [])
  }

  /** Some entry of `snap` sets key `m` to `true`. */
  predicate Overwritten(snap: Node, path: seq<string>, m: string)
    requires snap.Obj?
  {
    exists j :: 0 <= j < |snap.entries| && Writes(snap, path, j, m)
  }

  /** The value an entry's key ends up with when nothing overwrites it. */
  function EntryValue(v: Node, o: Outcome): Node {
    match o
    case Unchanged => v
    case Walked(child) => child
    case Replaced(x) => x
  }

  /** A visit of entry `i` that agrees with the source's rules: it sets
      exactly the mark they call for; a walked child comes from a dict or
      list value, an assigned value only under `value`. */
  ghost predicate Fits(snap: Node, path: seq<string>, i: int, vis: Visit)
    requires snap.Obj? && 0 <= i < |snap.entries|
  {
    && (forall m :: vis.mark == Some(m) <==> Writes(snap, path, i, m))
    && (vis.outcome.Walked? <==> !snap.entries[i].1.IsScalar())
    && (vis.outcome.Replaced? ==> snap.entries[i].0 == "value")
  }

  lemma VisitShape(parse: Parser, snap: Node, path: seq<string>, i: nat)
    requires snap.Obj? && i < |snap.entries| && VisitResult(parse, snap, path, i).Ok?
    ensures Fits(snap, path, i, VisitResult(parse, snap, path, i).value)
  {
  }

  /** What `Apply` does to the keys of the dict being walked. */
  lemma ApplyFacts(w: Walk, k: string, vis: Visit)
    requires HasKey(w.entries, k) && vis.mark != Some(k)
    ensures Apply(w, k, vis).written == w.written + (if vis.mark.Some? then {vis.mark.value} else {})
    ensures forall x :: HasKey(Apply(w, k, vis).entries, x) <==> HasKey(w.entries, x) || vis.mark == Some(x)
    ensures forall x :: x != k ==>
      Get(Apply(w, k, vis).entries, x) == if vis.mark == Some(x) then Some(Bool(true)) else Get(w.entries, x)
    ensures Get(Apply(w, k, vis).entries, k) == match vis.outcome
      case Unchanged => Get(w.entries, k)
      case Walked(c) => if k in w.written then Get(w.entries, k) else Some(c)
      case Replaced(x) => Some(x)
  {
    var e1 := if vis.mark.Some? then Set(w.entries, vis.mark.value, Bool(true)) else w.entries;
    if vis.mark.Some? {
      SetHasKey(w.entries, vis.mark.value, Bool(true));
    }
    match vis.outcome
    case Walked(c) => SetHasKey(e1, k, c);
    case Replaced(x) => SetHasKey(e1, k, x);
    case Unchanged =>
  }

  /** The loop invariant of the dict walk after the snapshot entries visited
      so far, `visits` being what each visit did. */
  ghost predicate Inv(snap: Node, path: seq<string>, w: Walk, visits: seq<Visit>)
    requires snap.Obj? && |visits| <= |snap.entries|
  {
    && WrittenByVisited(snap, path, w, |visits|)
    && MarksHold(w)
    && KeysKept(snap, w)
    && AheadIntact(snap, w, |visits|)
    && BehindDone(snap, w, visits)
  }

  /** The overwritten keys are those some visited entry wrote. */
  ghost predicate WrittenByVisited(snap: Node, path: seq<string>, w: Walk, i: nat)
    requires snap.Obj? && i <= |snap.entries|
  {
    forall m :: m in w.written <==> exists j :: 0 <= j < i && Writes(snap, path, j, m)
  }

  /** The overwritten keys hold `true`. */
  ghost predicate MarksHold(w: Walk) {
    forall m :: m in w.written ==> Get(w.entries, m) == Some(Bool(true))
  }

  /** No key is lost, and only overwritten ones are added. */
  ghost predicate KeysKept(snap: Node, w: Walk)
    requires snap.Obj?
  {
    forall x :: HasKey(w.entries, x) <==> HasKey(snap.entries, x) || x in w.written
  }

  /** The entries not yet visited still hold their snapshot values. */
  ghost predicate AheadIntact(snap: Node, w: Walk, i: nat)
    requires snap.Obj? && i <= |snap.entries|
  {
    var es := snap.entries;
    forall j :: i <= j < |es| && es[j].0 !in w.written ==> Get(w.entries, es[j].0) == Some(es[j].1)
  }

  /** The visited entries hold what their visit made of them. */
  ghost predicate BehindDone(snap: Node, w: Walk, visits: seq<Visit>)
    requires snap.Obj? && |visits| <= |snap.entries|
  {
    var es := snap.entries;
    forall j :: 0 <= j < |visits| && es[j].0 !in w.written ==>
      Get(w.entries, es[j].0) == Some(EntryValue(es[j].1, visits[j].outcome))
  }

  lemma InvStart(snap: Node, path: seq<string>)
    requires snap.Obj? && UniqueKeys(snap.entries)
    ensures Inv(snap, path, Walk(snap.entries, {}, []), [])
  {
  }

  lemma InvStep(snap: Node, path: seq<string>, w: Walk, visits: seq<Visit>, vis: Visit)
    requires snap.Obj? && UniqueKeys(snap.entries) && |visits| < |snap.entries|
    requires Inv(snap, path, w, visits) && Fits(snap, path, |visits|, vis)
    ensures Inv(snap, path, Apply(w, snap.entries[|visits|].0, vis), visits + [vis])
  {
    var i := |visits|;
    OwnKeyPresent(snap, w, i);
    MarkNotOwnKey(snap, path, i, vis);
    StepKeys(snap, w, i, vis);
    StepWritten(snap, path, w, i, vis);
    StepMarks(snap, path, w, i, vis);
    StepAhead(snap, w, i, vis);
    StepBehind(snap, path, w, visits, vis);
  }

  lemma OwnKeyPresent(snap: Node, w: Walk, i: nat)
    requires snap.Obj? && i < |snap.entries| && KeysKept(snap, w)
    ensures HasKey(w.entries, snap.entries[i].0)
  {
    assert Keys(snap.entries)[i] == snap.entries[i].0;
  }

  lemma MarkNotOwnKey(snap: Node, path: seq<string>, i: nat, vis: Visit)
    requires snap.Obj? && i < |snap.entries| && Fits(snap, path, i, vis)
    ensures vis.mark != Some(snap.entries[i].0)
  {
    if vis.mark.Some? {
      assert Writes(snap, path, i, vis.mark.value);
    }
  }

  lemma StepKeys(snap: Node, w: Walk, i: nat, vis: Visit)
    requires snap.Obj? && i < |snap.entries| && HasKey(w.entries, snap.entries[i].0)
    requires vis.mark != Some(snap.entries[i].0) && KeysKept(snap, w)
    ensures KeysKept(snap, Apply(w, snap.entries[i].0, vis))
  {
    ApplyFacts(w, snap.entries[i].0, vis);
  }

  lemma StepWritten(snap: Node, path: seq<string>, w: Walk, i: nat, vis: Visit)
    requires snap.Obj? && i < |snap.entries| && HasKey(w.entries, snap.entries[i].0)
    requires WrittenByVisited(snap, path, w, i) && Fits(snap, path, i, vis)
    ensures WrittenByVisited(snap, path, Apply(w, snap.entries[i].0, vis), i + 1)
  {
    var k := snap.entries[i].0;
    assert vis.mark != Some(k);
    ApplyFacts(w, k, vis);
    var w' := Apply(w, k, vis);
    forall m ensures m in w'.written <==> exists j :: 0 <= j < i + 1 && Writes(snap, path, j, m) {
      if Writes(snap, path, i, m) {
        assert vis.mark == Some(m);
      }
    }
  }

  lemma StepMarks(snap: Node, path: seq<string>, w: Walk, i: nat, vis: Visit)
    requires snap.Obj? && i < |snap.entries| && HasKey(w.entries, snap.entries[i].0)
    requires WrittenByVisited(snap, path, w, i) && MarksHold(w) && Fits(snap, path, i, vis)
    ensures MarksHold(Apply(w, snap.entries[i].0, vis))
  {
    var k := snap.entries[i].0;
    assert vis.mark != Some(k);
    ApplyFacts(w, k, vis);
    assert "value" !in w.written;
  }

  lemma StepAhead(snap: Node, w: Walk, i: nat, vis: Visit)
    requires snap.Obj? && UniqueKeys(snap.entries) && i < |snap.entries| && HasKey(w.entries, snap.entries[i].0)
    requires vis.mark != Some(snap.entries[i].0) && AheadIntact(snap, w, i)
    ensures AheadIntact(snap, Apply(w, snap.entries[i].0, vis), i + 1)
  {
    var es := snap.entries;
    var k := es[i].0;
    ApplyFacts(w, k, vis);
    var w' := Apply(w, k, vis);
    forall j | i + 1 <= j < |es| && es[j].0 !in w'.written
      ensures Get(w'.entries, es[j].0) == Some(es[j].1)
    {
      assert es[j].0 != k;
    }
  }

  lemma StepBehind(snap: Node, path: seq<string>, w: Walk, visits: seq<Visit>, vis: Visit)
    requires snap.Obj? && UniqueKeys(snap.entries) && |visits| < |snap.entries|
    requires HasKey(w.entries, snap.entries[|visits|].0)
    requires vis.mark != Some(snap.entries[|visits|].0)
    requires AheadIntact(snap, w, |visits|) && BehindDone(snap, w, visits)
    ensures BehindDone(snap, Apply(w, snap.entries[|visits|].0, vis), visits + [vis])
  {
    var es := snap.entries;
    var i := |visits|;
    var k := es[i].0;
    ApplyFacts(w, k, vis);
    var w' := Apply(w, k, vis);
    var vs := visits + [vis];
    forall j | 0 <= j < i + 1 && es[j].0 !in w'.written
      ensures Get(w'.entries, es[j].0) == Some(EntryValue(es[j].1, vs[j].outcome))
    {
      if j < i {
        assert es[j].0 != k;
        assert vs[j] == visits[j];
      } else {
        assert vs[j] == vis;
      }
    }
  }

  /** `visits` are the results of visiting the first `|visits|` entries of `snap`. */
  ghost predicate Matches(parse: Parser, snap: Node, path: seq<string>, visits: seq<Visit>)
    requires snap.Obj?
    decreases |visits|
  {
    && |visits| <= |snap.entries|
    && (visits != [] ==>
        && Matches(parse, snap, path, visits[..|visits| - 1])
        && VisitResult(parse, snap, path, |visits| - 1) == Ok(visits[|visits| - 1]))
  }

  lemma {:induction false} MatchesAt(parse: Parser, snap: Node, path: seq<string>, visits: seq<Visit>, j: int)
    requires snap.Obj? && Matches(parse, snap, path, visits) && 0 <= j < |visits|
    ensures VisitResult(parse, snap, path, j) == Ok(visits[j])
    decreases |visits|
  {
    if j < |visits| - 1 {
      var front := visits[..|visits| - 1];
      MatchesAt(parse, snap, path, front, j);
      assert front[j] == visits[j];
    }
  }

  lemma {:induction false} EntriesInv(parse: Parser, snap: Node, path: seq<string>, w: Walk, visits: seq<Visit>)
    returns (all: seq<Visit>)
    requires snap.Obj? && UniqueKeys(snap.entries) && |visits| <= |snap.entries|
    requires Inv(snap, path, w, visits) && Matches(parse, snap, path, visits)
    requires CleanEntries(parse, snap, path, |visits|, w).Ok?
    ensures |all| == |snap.entries|
    ensures Inv(snap, path, CleanEntries(parse, snap, path, |visits|, w).value, all)
    ensures Matches(parse, snap, path, all)
    decreases |snap.entries| - |visits|
  {
    var i := |visits|;
    if i == |snap.entries| {
      all := visits;
    } else {
      EntriesStep(parse, snap, path, i, w);
      var vis := VisitResult(parse, snap, path, i).value;
      VisitShape(parse, snap, path, i);
      InvStep(snap, path, w, visits, vis);
      assert (visits + [vis])[..i] == visits;
      all := EntriesInv(parse, snap, path, Apply(w, snap.entries[i].0, vis), visits + [vis]);
    }
  }

  /** The state a successful dict walk ends in, with the visit of every entry. */
  lemma WalkDictInv(parse: Parser, es: seq<(string, Node)>, path: seq<string>) returns (w: Walk, all: seq<Visit>)
    requires UniqueKeys(es) && CleanNode(parse, Obj(es), path).Ok?
    ensures CleanNode(parse, Obj(es), path) == Ok((Obj(w.entries), w.log))
    ensures |all| == |es| && Inv(Obj(es), path, w, all) && Matches(parse, Obj(es), path, all)
  {
    var snap := Obj(es);
    InvStart(snap, path);
    w := CleanEntries(parse, snap, path, 0, Walk(es, {}, [])).value;
    all := EntriesInv(parse, snap, path, Walk(es, {}, []), []);
  }

  /** Consequences of the invariant once every entry is visited. */
  lemma InvMark(snap: Node, path: seq<string>, w: Walk, all: seq<Visit>, j: int, m: string)
    requires snap.Obj? && |all| == |snap.entries| && Inv(snap, path, w, all)
    requires 0 <= j < |all| && Writes(snap, path, j, m)
    ensures Get(w.entries, m) == Some(Bool(true))
  {
    assert m in w.written;
  }

  lemma InvMarks(snap: Node, path: seq<string>, w: Walk, all: seq<Visit>)
    requires snap.Obj? && |all| == |snap.entries| && Inv(snap, path, w, all)
    ensures forall m :: Overwritten(snap, path, m) ==> Get(w.entries, m) == Some(Bool(true))
  {
    forall m | Overwritten(snap, path, m) ensures Get(w.entries, m) == Some(Bool(true)) {
      var j :| 0 <= j < |snap.entries| && Writes(snap, path, j, m);
      InvMark(snap, path, w, all, j, m);
    }
  }

  lemma InvKeys(snap: Node, path: seq<string>, w: Walk, all: seq<Visit>)
    requires snap.Obj? && |all| == |snap.entries| && Inv(snap, path, w, all)
    ensures forall x :: HasKey(w.entries, x) <==> HasKey(snap.entries, x) || Overwritten(snap, path, x)
  {
    assert WrittenByVisited(snap, path, w, |all|);
  }

  lemma InvEntry(snap: Node, path: seq<string>, w: Walk, all: seq<Visit>, j: int)
    requires snap.Obj? && |all| == |snap.entries| && Inv(snap, path, w, all)
    requires 0 <= j < |all| && !Overwritten(snap, path, snap.entries[j].0)
    ensures Get(w.entries, snap.entries[j].0) == Some(EntryValue(snap.entries[j].1, all[j].outcome))
  {
    assert snap.entries[j].0 !in w.written;
  }

  /** The walk of a dict, entry by entry: it returns a dict; the keys set to
      `true` by some entry's rule hold `true`; no key is lost and only those
      are added; every other key holds what its own entry's visit made of
      it, so one entry's rewrite never depends on the others. */
  lemma WalkDict(parse: Parser, es: seq<(string, Node)>, path: seq<string>)
    requires UniqueKeys(es) && CleanNode(parse, Obj(es), path).Ok?
    ensures CleanNode(parse, Obj(es), path).value.0.Obj?
    ensures var r := CleanNode(parse, Obj(es), path).value.0.entries;
      && (forall m :: Overwritten(Obj(es), path, m) ==> Get(r, m) == Some(Bool(true)))
      && (forall x :: HasKey(r, x) <==> HasKey(es, x) || Overwritten(Obj(es), path, x))
      && (forall j :: 0 <= j < |es| ==> VisitResult(parse, Obj(es), path, j).Ok?)
      && (forall j :: 0 <= j < |es| && !Overwritten(Obj(es), path, es[j].0) ==>
            Get(r, es[j].0) == Some(EntryValue(es[j].1, VisitResult(parse, Obj(es), path, j).value.outcome)))
  {
    var w, all := WalkDictInv(parse, es, path);
    InvMarks(Obj(es), path, w, all);
    InvKeys(Obj(es), path, w, all);
    forall j | 0 <= j < |es|
      ensures VisitResult(parse, Obj(es), path, j) == Ok(all[j])
      ensures !Overwritten(Obj(es), path, es[j].0) ==> Get(w.entries, es[j].0) == Some(EntryValue(es[j].1, all[j].outcome))
    {
      MatchesAt(parse, Obj(es), path, all, j);
      if !Overwritten(Obj(es), path, es[j].0) {
        InvEntry(Obj(es), path, w, all, j);
      }
    }
  }

  /** A visit that raises aborts the walk of the whole dict. */
  lemma VisitRaises(parse: Parser, es: seq<(string, Node)>, path: seq<string>, j: int)
    requires UniqueKeys(es) && 0 <= j < |es| && VisitResult(parse, Obj(es), path, j).Err?
    ensures CleanNode(parse, Obj(es), path).Err?
  {
    if CleanNode(parse, Obj(es), path).Ok? {
      WalkDict(parse, es, path);
    }
  }

  /** The list loop from index `i` on leaves the elements before `i` as they
      are, leaves scalars alone and replaces every dict or list by its walk. */
  lemma {:induction false} ItemsFacts(parse: Parser, arr: Node, path: seq<string>, i: nat, xs: seq<Node>, log: seq<Diag>)
    requires arr.Arr? && i <= |arr.items| && |xs| == |arr.items|
    requires forall j :: i <= j < |xs| ==> xs[j] == arr.items[j]
    requires CleanItems(parse, arr, path, i, xs, log).Ok?
    ensures var ys := CleanItems(parse, arr, path, i, xs, log).value.0;
      && |ys| == |xs|
      && (forall j :: 0 <= j < i ==> ys[j] == xs[j])
      && (forall j :: i <= j < |ys| && arr.items[j].IsScalar() ==> ys[j] == arr.items[j])
      && (forall j :: i <= j < |ys| && !arr.items[j].IsScalar() ==>
            && CleanNode(parse, arr.items[j], path + [NatToString(j)]).Ok?
            && ys[j] == CleanNode(parse, arr.items[j], path + [NatToString(j)]).value.0)
    decreases |arr.items| - i
  {
    if i < |arr.items| {
      var x := arr.items[i];
      if x.Obj? || x.Arr? {
        var sub := CleanNode(parse, x, path + [NatToString(i)]).value;
        ItemsFacts(parse, arr, path, i + 1, xs[i := sub.0], log + sub.1);
      } else {
        ItemsFacts(parse, arr, path, i + 1, xs, log);
      }
    }
  }

  /** The walk of a list keeps its length, leaves scalar elements untouched
      and replaces each dict or list element by its own walk, at the path
      extended by the element's index. */
  lemma WalkList(parse: Parser, xs: seq<Node>, path: seq<string>)
    requires CleanNode(parse, Arr(xs), path).Ok?
    ensures var r := CleanNode(parse, Arr(xs), path).value.0;
      && r.Arr? && |r.items| == |xs|
      && (forall j :: 0 <= j < |xs| && xs[j].IsScalar() ==> r.items[j] == xs[j])
      && (forall j :: 0 <= j < |xs| && !xs[j].IsScalar() ==>
            && CleanNode(parse, xs[j], path + [NatToString(j)]).Ok?
            && r.items[j] == CleanNode(parse, xs[j], path + [NatToString(j)]).value.0)
  {
    ItemsFacts(parse, Arr(xs), path, 0, xs, []);
  }
}
