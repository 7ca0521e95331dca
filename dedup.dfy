/** The duplicate-property fix of `clean_schema_tree`: in a `properties` dict,
    keys that agree once leading and trailing underscores are stripped are
    collapsed to one. The keys are visited in descending order and every key
    whose canonical name was already seen is deleted, so the survivor of each
    canonical name is its greatest raw key. */
module Dedup {
  import opened Json
  import opened Text

  /** `k` is kept: no other key of the dict with the same canonical name is
      greater than it. */
  predicate Survives(props: seq<(string, Node)>, k: string) {
    forall i :: 0 <= i < |props| && Strip(props[i].0) == Strip(k) ==> !LexLess(k, props[i].0)
  }

  /** The keys the pass deletes. */
  function Losers(props: seq<(string, Node)>): set<string> {
    set i | 0 <= i < |props| && !Survives(props, props[i].0) :: props[i].0
  }

  /** The `properties` dict once the duplicates are gone. */
  function Deduplicated(props: seq<(string, Node)>): seq<(string, Node)> {
    Without(props, Losers(props))
  }

  /** The diagnostics of the fix, one per deleted key, in the order the keys
      are visited (`ks` is that order). */
  function DuplicateLog(props: seq<(string, Node)>, ks: seq<string>, path: seq<string>): (log: seq<Diag>)
    ensures |log| <= |ks|
  {
    if ks == [] then []
    else
      (if Survives(props, ks[0]) then []
       else [Diag(DuplicateProperty(ks[0], Strip(ks[0])), path + [ks[0]])])
      + DuplicateLog(props, ks[1..], path)
  }

  /** The canonical names of the first `i` visited keys. */
  function SeenNames(ks: seq<string>, i: int): set<string>
    requires 0 <= i <= |ks|
  {
    set j | 0 <= j < i :: Strip(ks[j])
  }

  /** The first `i` visited keys that the loop has deleted. */
  function Deleted(props: seq<(string, Node)>, ks: seq<string>, i: int): set<string>
    requires 0 <= i <= |ks|
  {
    set j | 0 <= j < i && !Survives(props, ks[j]) :: ks[j]
  }

  /** The visiting order is the keys of the dict, greatest first. */
  predicate VisitOrder(props: seq<(string, Node)>, ks: seq<string>) {
    multiset(ks) == multiset(Keys(props)) && Descending(ks)
  }

  /** The loop's deletion test agrees with `Survives` at every step. */
  predicate LoserTest(props: seq<(string, Node)>, ks: seq<string>) {
    forall i {:trigger SeenNames(ks, i)} :: 0 <= i < |ks| ==>
      (Strip(ks[i]) in SeenNames(ks, i) <==> !Survives(props, ks[i]))
  }

  lemma LoserTestHolds(props: seq<(string, Node)>, ks: seq<string>)
    requires UniqueKeys(props) && VisitOrder(props, ks)
    ensures LoserTest(props, ks)
  {
    forall i | 0 <= i < |ks|
      ensures Strip(ks[i]) in SeenNames(ks, i) <==> !Survives(props, ks[i])
    {
      SeenIffLoser(props, ks, i);
    }
  }

  /** At step `i` of the descending walk, the canonical name of the current key
      has been seen exactly when the key does not survive. */
  lemma SeenIffLoser(props: seq<(string, Node)>, ks: seq<string>, i: int)
    requires UniqueKeys(props) && VisitOrder(props, ks) && 0 <= i < |ks|
    ensures Strip(ks[i]) in SeenNames(ks, i) <==> !Survives(props, ks[i])
  {
    var k := ks[i];
    assert k in multiset(Keys(props)) by { assert k in multiset(ks); }
    if Strip(k) in SeenNames(ks, i) {
      var j :| 0 <= j < i && Strip(ks[j]) == Strip(k);
      assert ks[j] in multiset(Keys(props)) by { assert ks[j] in multiset(ks); }
      var m :| 0 <= m < |props| && Keys(props)[m] == ks[j];
      DistinctVisit(props, ks, j, i);
      StrictlyDescending(ks, j, i);
      assert Strip(props[m].0) == Strip(k) && LexLess(k, props[m].0);
    }
    if !Survives(props, k) {
      var m :| 0 <= m < |props| && Strip(props[m].0) == Strip(k) && LexLess(k, props[m].0);
      assert props[m].0 in multiset(ks) by { assert Keys(props)[m] in multiset(Keys(props)); }
      var j :| 0 <= j < |ks| && ks[j] == props[m].0;
      LexLessAsymmetric(k, k);
      assert j < i;
      assert Strip(ks[j]) in SeenNames(ks, i);
    }
  }

  /** A dict's keys are distinct, so its visiting order has no repeats. */
  lemma DistinctVisit(props: seq<(string, Node)>, ks: seq<string>, i: int, j: int)
    requires UniqueKeys(props) && VisitOrder(props, ks) && 0 <= i < j < |ks|
    ensures ks[i] != ks[j]
  {
    if ks[i] == ks[j] {
      CountedTwice(ks, i, j);
      KeyCountAtMostOne(props, ks[i]);
    }
  }

  /** An element standing at two positions occurs twice. */
  lemma CountedTwice(s: seq<string>, i: int, j: int)
    requires 0 <= i < j < |s| && s[i] == s[j]
    ensures multiset(s)[s[i]] >= 2
  {
    var x := s[i];
    assert s == s[..j] + s[j..];
    assert multiset(s) == multiset(s[..j]) + multiset(s[j..]);
    assert s[..j][i] == x && s[j..][0] == x;
    assert x in multiset(s[..j]) && x in multiset(s[j..]);
  }

  /** A key occurs at most once in a dict's key list. */
  lemma {:induction false} KeyCountAtMostOne(props: seq<(string, Node)>, x: string)
    requires UniqueKeys(props)
    ensures multiset(Keys(props))[x] <= 1
  {
    if props != [] {
      KeyCountAtMostOne(props[1..], x);
      assert Keys(props) == [props[0].0] + Keys(props[1..]);
      if props[0].0 == x {
        assert x !in Keys(props[1..]);
      }
    }
  }

  /** The dedup loop: walk the keys greatest first, delete every key whose
      canonical name was seen before, and report each deletion at
      `path + [key]`. Returns the dict after the deletions and the diagnostics. */
  method RemoveDuplicates(props: seq<(string, Node)>, path: seq<string>)
    returns (kept: seq<(string, Node)>, log: seq<Diag>)
    requires UniqueKeys(props)
    ensures kept == Deduplicated(props)
    ensures log == DuplicateLog(props, SortDescending(Keys(props)), path)
  {
    var ks := SortDescending(Keys(props));
    var keys: set<string> := {};
    kept, log := props, [];
    var i := 0;
    LoserTestHolds(props, ks);
    Start(props, ks, path);
    while i < |ks|
      invariant DedupInvariant(props, ks, path, i, keys, kept, log)
    {
      var k1 := ks[i];
      var cleanKey := Strip(k1);
      Advance(props, ks, i, path, keys, kept, log);
      if cleanKey in keys {
        kept := Delete(kept, k1);
        log := log + [Diag(DuplicateProperty(k1, cleanKey), path + [k1])];
      }
      keys := keys + {cleanKey};
      i := i + 1;
    }
    Finish(props, ks, path, keys, kept, log);
  }

  lemma Start(props: seq<(string, Node)>, ks: seq<string>, path: seq<string>)
    ensures DedupInvariant(props, ks, path, 0, {}, props, [])
  {
    assert Deleted(props, ks, 0) == {};
    WithoutNothing(props);
    assert ks[0..] == ks;
    AppendAssoc([], [], DuplicateLog(props, ks, path));
  }

  lemma Finish(props: seq<(string, Node)>, ks: seq<string>, path: seq<string>,
               keys: set<string>, kept: seq<(string, Node)>, log: seq<Diag>)
    requires VisitOrder(props, ks)
    requires DedupInvariant(props, ks, path, |ks|, keys, kept, log)
    ensures kept == Deduplicated(props)
    ensures log == DuplicateLog(props, ks, path)
  {
    assert ks[|ks|..] == [];
    assert log + [] == log;
    DeletedAllIsLosers(props, ks);
  }

  /** The loop's invariant before visiting `ks[i]`. */
  predicate DedupInvariant(props: seq<(string, Node)>, ks: seq<string>, path: seq<string>, i: int,
                           keys: set<string>, kept: seq<(string, Node)>, log: seq<Diag>)
  {
    && 0 <= i <= |ks|
    && keys == SeenNames(ks, i)
    && kept == Without(props, Deleted(props, ks, i))
    && log + DuplicateLog(props, ks[i..], path) == DuplicateLog(props, ks, path)
  }

  /** Visiting `ks[i]` keeps the invariant. */
  lemma Advance(props: seq<(string, Node)>, ks: seq<string>, i: int, path: seq<string>,
                keys: set<string>, kept: seq<(string, Node)>, log: seq<Diag>)
    requires LoserTest(props, ks) && i < |ks|
    requires DedupInvariant(props, ks, path, i, keys, kept, log)
    ensures var k := ks[i];
      DedupInvariant(props, ks, path, i + 1, keys + {Strip(k)},
        if Strip(k) in keys then Delete(kept, k) else kept,
        if Strip(k) in keys then log + [Diag(DuplicateProperty(k, Strip(k)), path + [k])] else log)
  {
    SeenStep(ks, i);
    KeptAdvance(props, ks, i, keys, kept);
    LogAdvance(props, ks, i, path, keys, log);
  }

  lemma KeptAdvance(props: seq<(string, Node)>, ks: seq<string>, i: int,
                    keys: set<string>, kept: seq<(string, Node)>)
    requires LoserTest(props, ks) && 0 <= i < |ks|
    requires keys == SeenNames(ks, i)
    requires kept == Without(props, Deleted(props, ks, i))
    ensures var k := ks[i];
      (if Strip(k) in keys then Delete(kept, k) else kept) == Without(props, Deleted(props, ks, i + 1))
  {
    KeptStep(props, ks, i);
  }

  lemma LogAdvance(props: seq<(string, Node)>, ks: seq<string>, i: int, path: seq<string>,
                   keys: set<string>, log: seq<Diag>)
    requires LoserTest(props, ks) && 0 <= i < |ks|
    requires keys == SeenNames(ks, i)
    requires log + DuplicateLog(props, ks[i..], path) == DuplicateLog(props, ks, path)
    ensures var k := ks[i];
      (if Strip(k) in keys then log + [Diag(DuplicateProperty(k, Strip(k)), path + [k])] else log)
        + DuplicateLog(props, ks[i + 1..], path) == DuplicateLog(props, ks, path)
  {
    LogStep(props, ks, i, path);
    var k := ks[i];
    var rest := DuplicateLog(props, ks[i + 1..], path);
    assert Strip(k) in SeenNames(ks, i) <==> !Survives(props, k);
    if Strip(k) in keys {
      var d := Diag(DuplicateProperty(k, Strip(k)), path + [k]);
      assert !Survives(props, k);
      assert DuplicateLog(props, ks[i..], path) == [d] + rest;
      AppendAssoc(log, [d], rest);
    } else {
      assert Survives(props, k);
      assert DuplicateLog(props, ks[i..], path) == [] + rest;
      AppendAssoc([], [], rest);
    }
  }

  /** One step of the loop reports the current key when it is deleted. */
  lemma LogStep(props: seq<(string, Node)>, ks: seq<string>, i: int, path: seq<string>)
    requires 0 <= i < |ks|
    ensures DuplicateLog(props, ks[i..], path) ==
      (if Survives(props, ks[i]) then []
       else [Diag(DuplicateProperty(ks[i], Strip(ks[i])), path + [ks[i]])])
      + DuplicateLog(props, ks[i + 1..], path)
  {
    assert ks[i..][1..] == ks[i + 1..];
  }

  /** One step of the loop adds the current key's canonical name to the seen names. */
  lemma SeenStep(ks: seq<string>, i: int)
    requires 0 <= i < |ks|
    ensures SeenNames(ks, i + 1) == SeenNames(ks, i) + {Strip(ks[i])}
  {
  }

  /** One step of the loop adds the current key to the deleted ones if it loses. */
  lemma DeletedStep(props: seq<(string, Node)>, ks: seq<string>, i: int)
    requires 0 <= i < |ks|
    ensures Deleted(props, ks, i + 1) ==
      Deleted(props, ks, i) + (if Survives(props, ks[i]) then {} else {ks[i]})
  {
  }

  /** One step of the loop on the dict: a key is deleted exactly when the
      loop's test finds its canonical name already seen. */
  lemma KeptStep(props: seq<(string, Node)>, ks: seq<string>, i: int)
    requires LoserTest(props, ks) && 0 <= i < |ks|
    ensures Without(props, Deleted(props, ks, i + 1)) ==
      if Strip(ks[i]) in SeenNames(ks, i) then Delete(Without(props, Deleted(props, ks, i)), ks[i])
      else Without(props, Deleted(props, ks, i))
  {
    DeletedStep(props, ks, i);
    var gone := Deleted(props, ks, i);
    if Survives(props, ks[i]) {
      assert Deleted(props, ks, i + 1) == gone;
    } else {
      assert Deleted(props, ks, i + 1) == gone + {ks[i]};
      DeleteWithout(props, gone, ks[i]);
    }
  }

  /** Once every key is visited, the deleted keys are exactly the losers. */
  lemma DeletedAllIsLosers(props: seq<(string, Node)>, ks: seq<string>)
    requires VisitOrder(props, ks)
    ensures Deleted(props, ks, |ks|) == Losers(props)
  {
    forall k ensures k in Losers(props) <==> k in Deleted(props, ks, |ks|) {
      if k in Losers(props) {
        var m :| 0 <= m < |props| && !Survives(props, props[m].0) && props[m].0 == k;
        assert Keys(props)[m] in multiset(Keys(props));
        assert k in multiset(ks);
      }
      if k in Deleted(props, ks, |ks|) {
        assert k in multiset(ks);
        assert k in multiset(Keys(props));
        var m :| 0 <= m < |props| && Keys(props)[m] == k;
      }
    }
  }

  lemma {:induction false} WithoutNothing(es: seq<(string, Node)>)
    ensures Without(es, {}) == es
  {
    if es != [] {
      WithoutNothing(es[1..]);
    }
  }

  lemma AppendAssoc(a: seq<Diag>, b: seq<Diag>, c: seq<Diag>)
    ensures (a + b) + c == a + (b + c)
    ensures [] + c == c
  {
  }

  /** The dedup result keeps exactly the entries whose key is the greatest
      raw key of its canonical name, with their values, in their original
      relative order. */
  lemma DeduplicatedKeepsGreatest(props: seq<(string, Node)>)
    requires UniqueKeys(props)
    ensures forall e :: e in Deduplicated(props) <==> e in props && Survives(props, e.0)
    ensures forall e, i :: e in Deduplicated(props) && 0 <= i < |props| && Strip(props[i].0) == Strip(e.0) ==>
      props[i].0 == e.0 || LexLess(props[i].0, e.0)
    ensures UniqueKeys(Deduplicated(props))
    ensures forall a, b :: 0 <= a < b < |Deduplicated(props)| ==>
      Before(props, Deduplicated(props)[a].0, Deduplicated(props)[b].0)
  {
    WithoutMembers(props, Losers(props));
    WithoutKeepsOrder(props, Losers(props));
    forall e | e in props && e.0 !in Losers(props) ensures Survives(props, e.0) {
      var m :| 0 <= m < |props| && props[m] == e;
    }
    forall e, i | e in Deduplicated(props) && 0 <= i < |props| && Strip(props[i].0) == Strip(e.0)
      ensures props[i].0 == e.0 || LexLess(props[i].0, e.0)
    {
      LexLessTotal(props[i].0, e.0);
    }
  }

  /** No two surviving keys share a canonical name. */
  lemma DeduplicatedNamesUnique(props: seq<(string, Node)>)
    requires UniqueKeys(props)
    ensures forall a, b :: 0 <= a < b < |Deduplicated(props)| ==>
      Strip(Deduplicated(props)[a].0) != Strip(Deduplicated(props)[b].0)
  {
    var r := Deduplicated(props);
    DeduplicatedKeepsGreatest(props);
    forall a, b | 0 <= a < b < |r| ensures Strip(r[a].0) != Strip(r[b].0) {
      assert r[a] in r && r[b] in r;
      var ma :| 0 <= ma < |props| && props[ma] == r[a];
      var mb :| 0 <= mb < |props| && props[mb] == r[b];
      LexLessAsymmetric(r[a].0, r[b].0);
    }
  }

  /** Walking down the descending order, the first key of each canonical name
      survives, so every name occurring before index `i` has a survivor. */
  lemma {:induction false} HasSurvivor(props: seq<(string, Node)>, ks: seq<string>, i: int)
    requires UniqueKeys(props) && VisitOrder(props, ks) && 0 <= i < |ks|
    ensures exists j :: 0 <= j <= i && Strip(ks[j]) == Strip(ks[i]) && Survives(props, ks[j])
    decreases i
  {
    SeenIffLoser(props, ks, i);
    if !Survives(props, ks[i]) {
      var j :| 0 <= j < i && Strip(ks[j]) == Strip(ks[i]);
      HasSurvivor(props, ks, j);
    }
  }

  /** Every canonical name of the input is still present afterwards. */
  lemma DeduplicatedKeepsEveryName(props: seq<(string, Node)>)
    requires UniqueKeys(props)
    ensures forall i :: 0 <= i < |props| ==>
      exists e :: e in Deduplicated(props) && Strip(e.0) == Strip(props[i].0)
  {
    var ks := SortDescending(Keys(props));
    DeduplicatedKeepsGreatest(props);
    forall i | 0 <= i < |props|
      ensures exists e :: e in Deduplicated(props) && Strip(e.0) == Strip(props[i].0)
    {
      assert Keys(props)[i] in multiset(Keys(props));
      assert props[i].0 in multiset(ks);
      var n :| 0 <= n < |ks| && ks[n] == props[i].0;
      HasSurvivor(props, ks, n);
      var j :| 0 <= j <= n && Strip(ks[j]) == Strip(ks[n]) && Survives(props, ks[j]);
      assert ks[j] in multiset(ks);
      assert ks[j] in multiset(Keys(props));
      var m :| 0 <= m < |props| && Keys(props)[m] == ks[j];
      assert props[m] in Deduplicated(props);
    }
  }

  /** Two distinct properties share a canonical name. */
  predicate HasDuplicateNames(props: seq<(string, Node)>) {
    exists i, j :: 0 <= i < |props| && 0 <= j < |props| && i != j && Strip(props[i].0) == Strip(props[j].0)
  }

  /** Something is deleted, and reported, exactly when two keys share a
      canonical name; that is when the enclosing object is marked with
      `additionalProperties`. */
  lemma DuplicatesDetected(props: seq<(string, Node)>, path: seq<string>)
    requires UniqueKeys(props)
    ensures var log := DuplicateLog(props, SortDescending(Keys(props)), path);
      (log != []) <==> HasDuplicateNames(props)
  {
    var ks := SortDescending(Keys(props));
    if DuplicateLog(props, ks, path) != [] {
      LogMeansDuplicate(props, path);
    }
    if HasDuplicateNames(props) {
      DuplicateMeansLog(props, path);
    }
  }

  lemma LogMeansDuplicate(props: seq<(string, Node)>, path: seq<string>)
    requires DuplicateLog(props, SortDescending(Keys(props)), path) != []
    ensures HasDuplicateNames(props)
  {
    var ks := SortDescending(Keys(props));
    var n := LoggedLoser(props, ks, path);
    var x := ks[n];
    assert x in multiset(ks);
    assert x in multiset(Keys(props));
    var i :| 0 <= i < |props| && Keys(props)[i] == x;
    var j :| 0 <= j < |props| && Strip(props[j].0) == Strip(x) && LexLess(x, props[j].0);
    LexLessAsymmetric(x, x);
    assert props[i].0 == x && i != j;
  }

  lemma DuplicateMeansLog(props: seq<(string, Node)>, path: seq<string>)
    requires UniqueKeys(props) && HasDuplicateNames(props)
    ensures DuplicateLog(props, SortDescending(Keys(props)), path) != []
  {
    var ks := SortDescending(Keys(props));
    var i, j :| 0 <= i < |props| && 0 <= j < |props| && i != j && Strip(props[i].0) == Strip(props[j].0);
    LexLessTotal(props[i].0, props[j].0);
    var lo := if LexLess(props[i].0, props[j].0) then i else j;
    var x := props[lo].0;
    assert !Survives(props, x);
    assert Keys(props)[lo] == x;
    assert x in multiset(Keys(props));
    assert x in multiset(ks);
    var n :| 0 <= n < |ks| && ks[n] == x;
    LoserLogged(props, ks, path, n);
  }

  /** A non-empty log names a visited key that does not survive. */
  lemma {:induction false} LoggedLoser(props: seq<(string, Node)>, ks: seq<string>, path: seq<string>)
    returns (n: int)
    requires DuplicateLog(props, ks, path) != []
    ensures 0 <= n < |ks| && !Survives(props, ks[n])
  {
    if Survives(props, ks[0]) {
      assert DuplicateLog(props, ks, path) == DuplicateLog(props, ks[1..], path);
      var m := LoggedLoser(props, ks[1..], path);
      n := m + 1;
    } else {
      n := 0;
    }
  }

  /** A visited key that does not survive is reported. */
  lemma {:induction false} LoserLogged(props: seq<(string, Node)>, ks: seq<string>, path: seq<string>, n: int)
    requires 0 <= n < |ks| && !Survives(props, ks[n])
    ensures DuplicateLog(props, ks, path) != []
  {
    if n > 0 && Survives(props, ks[0]) {
      LoserLogged(props, ks[1..], path, n - 1);
    }
  }
}
