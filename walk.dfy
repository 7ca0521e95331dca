/** `clean_schema_tree`: a pre-order walk over the whole document that repairs
    it in place.

    A dict's entries are visited in the order of a snapshot taken on entry.
    Repairs of an entry's own value happen before that value is walked; the
    walk of a dict value sees the repaired value. Two repairs write into the
    dict being walked under another key (`additionalProperties`, `nullable`).
    When such a key still lies ahead in the snapshot, its old value is
    visited anyway; it is no longer part of the document, so whatever the
    walk changes in it is lost, while its errors and reports still happen. */
module Walk {
  import opened Json
  import opened Text
  import opened Infer
  import opened Unescape
  import opened Measure
  import opened Dedup
  import opened Fixes

  /** The state of a dict walk: the dict's current entries, the keys
      overwritten so far, and the lines reported so far. */
  datatype Walk = Walk(entries: seq<(string, Node)>, written: set<string>, log: seq<Diag>)

  /** The walk of a dict or list: the repaired tree and the lines reported,
      in order, or the exception that aborted it. */
  function CleanNode(parse: Parser, n: Node, path: seq<string>): Result<(Node, seq<Diag>)>
    requires n.Obj? || n.Arr?
    decreases Pending(n), Size(n), 1, 0, 0
  {
    if n.Obj? then
      match CleanEntries(parse, n, path, 0, Walk(n.entries, {}, []))
      case Ok(w) => Ok((Obj(w.entries), w.log))
      case Err(e) => Err(e)
    else
      match CleanItems(parse, n, path, 0, n.items, [])
      case Ok((xs, log)) => Ok((Arr(xs), log))
      case Err(e) => Err(e)
  }

  /** The snapshot entries of `snap` from index `i` on, starting in state `w`. */
  function CleanEntries(parse: Parser, snap: Node, path: seq<string>, i: nat, w: Walk): Result<Walk>
    requires snap.Obj? && i <= |snap.entries|
    decreases Pending(snap), Size(snap), 0, |snap.entries| - i, 3
  {
    if i == |snap.entries| then Ok(w)
    else
      match CleanEntry(parse, snap, path, i, w)
      case Err(e) => Err(e)
      case Ok(w') => CleanEntries(parse, snap, path, i + 1, w')
  }

  /** What happens to the entry's own key: nothing; the walked child is
      stored back, unless the key was overwritten earlier in this walk (then
      the child was detached and its changes are lost); or a new value is
      assigned outright. */
  datatype Outcome = Unchanged | Walked(child: Node) | Replaced(value: Node)

  /** The effect of visiting one snapshot entry: a key of the dict being
      walked that is set to `true`, the lines reported, and the outcome for
      the entry's own key. */
  datatype Visit = Visit(mark: Option<string>, log: seq<Diag>, outcome: Outcome)

  /** One snapshot entry `(k, v)` of `snap`, by the type of `v`:
      a dict is repaired, then walked;
      a list is walked;
      a `default` of `null` makes the dict nullable;
      a string of escaped JSON under `examples.<name>.value` is replaced by
      its parse. Looking two segments back along a path of fewer than three
      raises, as in the source. None of this depends on the state of the
      dict being walked. */
  function VisitResult(parse: Parser, snap: Node, path: seq<string>, i: nat): Result<Visit>
    requires snap.Obj? && i < |snap.entries|
    decreases Pending(snap), Size(snap), 0, |snap.entries| - i, 1
  {
    var v := snap.entries[i].1;
    if v.Obj? then VisitDict(parse, snap, path, i)
    else if v.Arr? then VisitList(parse, snap, path, i)
    else VisitScalar(parse, snap.entries[i].0, v, path + [snap.entries[i].0])
  }

  /** A dict value: repaired, then walked. */
  function VisitDict(parse: Parser, snap: Node, path: seq<string>, i: nat): Result<Visit>
    requires snap.Obj? && i < |snap.entries| && snap.entries[i].1.Obj?
    decreases Pending(snap), Size(snap), 0, |snap.entries| - i, 0
  {
    var (k, v) := snap.entries[i];
    var ip := path + [k];
    match Prepare(parse, k, v, ip)
    case Err(e) => Err(e)
    case Ok(p) =>
      EntryBound(snap.entries, i);
      PrepareShrinks(parse, k, v, ip);
      match CleanNode(parse, p.value, ip)
      case Err(e) => Err(e)
      case Ok((child, sub)) =>
        Ok(Visit(if p.markParent then Some("additionalProperties") else None, p.log + sub, Walked(child)))
  }

  /** A list value: walked. */
  function VisitList(parse: Parser, snap: Node, path: seq<string>, i: nat): Result<Visit>
    requires snap.Obj? && i < |snap.entries| && snap.entries[i].1.Arr?
    decreases Pending(snap), Size(snap), 0, |snap.entries| - i, 0
  {
    var (k, v) := snap.entries[i];
    EntryBound(snap.entries, i);
    match CleanNode(parse, v, path + [k])
    case Err(e) => Err(e)
    case Ok((child, sub)) => Ok(Visit(None, sub, Walked(child)))
  }

  /** Any other value `v` under `k`, at path `ip`. */
  function VisitScalar(parse: Parser, k: string, v: Node, ip: seq<string>): Result<Visit>
    requires ip != [] && ip[|ip| - 1] == k
  {
    if k == "default" && v.Null? then
      Ok(Visit(Some("nullable"), [Diag(NullDefault, ip)], Unchanged))
    else if k == "value" then
      if |ip| < 3 then Err(IndexError)
      else if ip[|ip| - 3] == "examples" && v.Str? && IsEscapedJson(v.s) then
        match UnescapeJson(parse, v.s, ip)
        case Err(e) => Err(e)
        case Ok((x, lg)) => Ok(Visit(None, lg + [Diag(EscapedExample, ip)], Replaced(x)))
      else Ok(Visit(None, [], Unchanged))
    else Ok(Visit(None, [], Unchanged))
  }

  /** The dict being walked after visiting its entry under `k`: the mark is
      set first, then the entry's own outcome is applied. */
  function Apply(w: Walk, k: string, vis: Visit): Walk {
    var w1 := match vis.mark
      case Some(m) => Walk(Set(w.entries, m, Bool(true)), w.written + {m}, w.log)
      case None => w;
    var entries := match vis.outcome
      case Unchanged => w1.entries
      case Walked(child) => if k in w1.written then w1.entries else Set(w1.entries, k, child)
      case Replaced(x) => Set(w1.entries, k, x);
    Walk(entries, w1.written, w.log + vis.log)
  }

  function CleanEntry(parse: Parser, snap: Node, path: seq<string>, i: nat, w: Walk): Result<Walk>
    requires snap.Obj? && i < |snap.entries|
    decreases Pending(snap), Size(snap), 0, |snap.entries| - i, 2
  {
    match VisitResult(parse, snap, path, i)
    case Err(e) => Err(e)
    case Ok(vis) => Ok(Apply(w, snap.entries[i].0, vis))
  }

  /** The elements of the list `arr` from index `i` on; `xs` holds the
      elements as repaired so far. Dicts and lists are walked in place with
      the index appended to the path; other elements are left alone. */
  function CleanItems(parse: Parser, arr: Node, path: seq<string>, i: nat, xs: seq<Node>, log: seq<Diag>)
    : Result<(seq<Node>, seq<Diag>)>
    requires arr.Arr? && i <= |arr.items| && |xs| == |arr.items|
    decreases Pending(arr), Size(arr), 0, |arr.items| - i, 0
  {
    if i == |arr.items| then Ok((xs, log))
    else
      var x := arr.items[i];
      if x.Obj? || x.Arr? then
        ItemBound(arr.items, i);
        match CleanNode(parse, x, path + [NatToString(i)])
        case Err(e) => Err(e)
        case Ok((y, sub)) => CleanItems(parse, arr, path, i + 1, xs[i := y], log + sub)
      else CleanItems(parse, arr, path, i + 1, xs, log)
  }

  /** `clean_schema_tree(node, path)`: walks a dict or list, repairing it. */
  method CleanSchemaTree(parse: Parser, node: Node, path: seq<string>) returns (r: Result<(Node, seq<Diag>)>)
    requires node.Obj? || node.Arr?
    requires WellFormed(node) && ParsesWellFormed(parse)
    ensures r == CleanNode(parse, node, path)
    decreases Pending(node), Size(node), 1, 0, 0
  {
    if node.Obj? {
      var w := CleanDict(parse, node, path);
      if w.Err? {
        return Err(w.error);
      }
      return Ok((Obj(w.value.entries), w.value.log));
    } else {
      var l := CleanList(parse, node, path);
      if l.Err? {
        return Err(l.error);
      }
      return Ok((Arr(l.value.0), l.value.1));
    }
  }

  /** The dict branch: the loop over the snapshot of the entries. */
  method CleanDict(parse: Parser, node: Node, path: seq<string>) returns (r: Result<Walk>)
    requires node.Obj? && WellFormed(node) && ParsesWellFormed(parse)
    ensures r == CleanEntries(parse, node, path, 0, Walk(node.entries, {}, []))
    decreases Pending(node), Size(node), 0, |node.entries| + 1, 0
  {
    var es := node.entries;
    var w := Walk(es, {}, []);
    var i := 0;
    while i < |es|
      invariant 0 <= i <= |es|
      invariant CleanEntries(parse, node, path, i, w) == CleanEntries(parse, node, path, 0, Walk(es, {}, []))
    {
      EntriesStep(parse, node, path, i, w);
      var visit := VisitEntry(parse, node, path, i);
      if visit.Err? {
        return Err(visit.error);
      }
      w := Write(w, es[i].0, visit.value);
      i := i + 1;
    }
    return Ok(w);
  }

  /** The writes into the dict being walked after visiting its entry under
      `k`: the mark first, then the entry's own key. */
  method Write(w: Walk, k: string, vis: Visit) returns (w': Walk)
    ensures w' == Apply(w, k, vis)
  {
    var entries, written := w.entries, w.written;
    if vis.mark.Some? {
      entries := Set(entries, vis.mark.value, Bool(true));
      written := written + {vis.mark.value};
    }
    match vis.outcome {
      case Unchanged =>
      case Walked(child) =>
        if k !in written {
          entries := Set(entries, k, child);
        }
      case Replaced(x) =>
        entries := Set(entries, k, x);
    }
    w' := Walk(entries, written, w.log + vis.log);
  }

  /** One turn of the dict loop. */
  lemma EntriesStep(parse: Parser, snap: Node, path: seq<string>, i: nat, w: Walk)
    requires snap.Obj? && i < |snap.entries|
    ensures VisitResult(parse, snap, path, i).Err? ==>
      CleanEntries(parse, snap, path, i, w) == Err(VisitResult(parse, snap, path, i).error)
    ensures VisitResult(parse, snap, path, i).Ok? ==>
      CleanEntries(parse, snap, path, i, w)
      == CleanEntries(parse, snap, path, i + 1, Apply(w, snap.entries[i].0, VisitResult(parse, snap, path, i).value))
  {
  }

  /** The list branch: the loop over the indices. */
  method CleanList(parse: Parser, node: Node, path: seq<string>) returns (r: Result<(seq<Node>, seq<Diag>)>)
    requires node.Arr? && WellFormed(node) && ParsesWellFormed(parse)
    ensures r == CleanItems(parse, node, path, 0, node.items, [])
    decreases Pending(node), Size(node), 0, |node.items| + 1, 0
  {
    var items, log := node.items, [];
    var i := 0;
    while i < |node.items|
      invariant 0 <= i <= |node.items| && |items| == |node.items|
      invariant CleanItems(parse, node, path, i, items, log)
             == CleanItems(parse, node, path, 0, node.items, [])
    {
      var x := node.items[i];
      if x.Obj? || x.Arr? {
        ItemBound(node.items, i);
        var sub := CleanSchemaTree(parse, x, path + [NatToString(i)]);
        if sub.Err? {
          return Err(sub.error);
        }
        items := items[i := sub.value.0];
        log := log + sub.value.1;
      }
      i := i + 1;
    }
    return Ok((items, log));
  }

  /** The body of the dict loop for the snapshot entry at index `i`, up to
      the writes into the dict being walked. */
  method VisitEntry(parse: Parser, snap: Node, path: seq<string>, i: nat) returns (r: Result<Visit>)
    requires snap.Obj? && i < |snap.entries|
    requires WellFormed(snap) && ParsesWellFormed(parse)
    ensures r == VisitResult(parse, snap, path, i)
    decreases Pending(snap), Size(snap), 0, |snap.entries| - i, 0
  {
    var (k, v) := snap.entries[i];
    var ip := path + [k];
    if v.Obj? {
      var child, lg, mark;
      if k == "properties" {
        var kept;
        kept, lg := RemoveDuplicates(v.entries, ip);
        child, mark := Obj(kept), lg != [];
      } else {
        var p := Prepare(parse, k, v, ip);
        if p.Err? {
          return Err(p.error);
        }
        child, lg, mark := p.value.value, p.value.log, p.value.markParent;
      }
      assert Prepare(parse, k, v, ip) == Ok(Prepared(child, lg, mark));
      EntryBound(snap.entries, i);
      PrepareShrinks(parse, k, v, ip);
      PrepareWellFormed(parse, k, v, ip);
      var sub := CleanSchemaTree(parse, child, ip);
      if sub.Err? {
        return Err(sub.error);
      }
      return Ok(Visit(if mark then Some("additionalProperties") else None, lg + sub.value.1, Walked(sub.value.0)));
    } else if v.Arr? {
      EntryBound(snap.entries, i);
      var sub := CleanSchemaTree(parse, v, ip);
      if sub.Err? {
        return Err(sub.error);
      }
      return Ok(Visit(None, sub.value.1, Walked(sub.value.0)));
    } else if k == "default" && v.Null? {
      return Ok(Visit(Some("nullable"), [Diag(NullDefault, ip)], Unchanged));
    } else if k == "value" {
      if |ip| < 3 {
        return Err(IndexError);
      }
      if ip[|ip| - 3] == "examples" && v.Str? && IsEscapedJson(v.s) {
        var u := UnescapeJson(parse, v.s, ip);
        if u.Err? {
          return Err(u.error);
        }
        return Ok(Visit(None, u.value.1 + [Diag(EscapedExample, ip)], Replaced(u.value.0)));
      }
    }
    return Ok(Visit(None, [], Unchanged));
  }
}
