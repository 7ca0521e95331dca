/** `infer_schema_type`: a JSON-Schema fragment built from an example value. */
module Infer {
  import opened Json

  /** The values `infer_schema_type` accepts: anything but `None`, a list only
      when it has a first element that is itself accepted (the other elements
      are never looked at), a dict only when all its values are accepted. */
  predicate Inferable(n: Node) {
    match n
    case Null => false
    case Arr(xs) => |xs| > 0 && Inferable(xs[0])
    case Obj(es) => forall i :: 0 <= i < |es| ==> Inferable(es[i].1)
    case _ => true
  }

  /** The `type` name a value is given. A bool is classified `integer`, since
      `isinstance(True, int)` holds in Python. */
  function KindName(n: Node): string
    requires !n.Null?
  {
    match n
    case Int(_) => "integer"
    case Bool(_) => "integer"
    case Str(_) => "string"
    case Float(_) => "number"
    case Arr(_) => "array"
    case Obj(_) => "object"
  }

  /** The key that carries the rest of a schema, beside `type`. */
  function DetailKey(n: Node): string {
    if n.Arr? then "items" else if n.Obj? then "properties" else "example"
  }

  /** The schema fragment for an example value. `None` raises the pass's own
      exception; an empty list fails on `node[0]`. */
  function InferSchema(n: Node): (r: Result<Node>)
    decreases n, 1, 0
    ensures r.Ok? <==> Inferable(n)
    ensures r.Err? && n.Null? ==> r.error == InferError
    ensures r.Err? && n == Arr([]) ==> r.error == IndexError
    ensures r.Ok? ==>
      && r.value.Obj? && Keys(r.value.entries) == ["type", DetailKey(n)]
      && r.value.entries[0] == ("type", Str(KindName(n)))
  {
    match n
    case Int(_) => Ok(Obj([("type", Str("integer")), ("example", n)]))
    case Bool(_) => Ok(Obj([("type", Str("integer")), ("example", n)]))
    case Str(_) => Ok(Obj([("type", Str("string")), ("example", n)]))
    case Float(_) => Ok(Obj([("type", Str("number")), ("example", n)]))
    case Arr(xs) =>
      if |xs| == 0 then Err(IndexError)
      else (match InferSchema(xs[0])
        case Ok(s) => Ok(Obj([("type", Str("array")), ("items", s)]))
        case Err(e) => Err(e))
    case Obj(es) =>
      (match InferEntries(n, 0)
        case Ok(ps) => Ok(Obj([("type", Str("object")), ("properties", Obj(ps))]))
        case Err(e) => Err(e))
    case Null => Err(InferError)
  }

  /** `{k: infer_schema_type(v) for k, v in node.items()}` over the entries
      from index `from` on. Evaluation is in order, so the first value whose
      inference raises decides the error. */
  function InferEntries(parent: Node, from: nat): (r: Result<seq<(string, Node)>>)
    requires parent.Obj? && from <= |parent.entries|
    decreases parent, 0, |parent.entries| - from
    ensures var es := parent.entries;
      r.Ok? <==> forall i :: from <= i < |es| ==> Inferable(es[i].1)
    ensures r.Ok? ==> var es := parent.entries;
      && |r.value| == |es| - from
      && forall i :: from <= i < |es| ==>
           InferSchema(es[i].1).Ok? && r.value[i - from] == (es[i].0, InferSchema(es[i].1).value)
  {
    var es := parent.entries;
    if from == |es| then Ok([])
    else match InferSchema(es[from].1)
      case Err(e) => Err(e)
      case Ok(s) =>
        match InferEntries(parent, from + 1)
        case Err(e) => Err(e)
        case Ok(ps) => Ok([(es[from].0, s)] + ps)
  }

  /** A scalar example: `{"type": <kind>, "example": <the value itself>}`. */
  lemma InferScalar(n: Node)
    requires n.IsScalar() && !n.Null?
    ensures InferSchema(n) == Ok(Obj([("type", Str(KindName(n))), ("example", n)]))
  {
  }

  /** A list example is described by its first element alone. */
  lemma {:induction false} InferArrayHead(x: Node, rest: seq<Node>)
    ensures InferSchema(Arr([x] + rest)) == InferSchema(Arr([x]))
    ensures InferSchema(x).Ok? ==>
      InferSchema(Arr([x] + rest)) == Ok(Obj([("type", Str("array")), ("items", InferSchema(x).value)]))
  {
    assert ([x] + rest)[0] == x;
  }

  /** A dict example: `properties` has the example's keys in the same order. */
  lemma InferObjectKeys(es: seq<(string, Node)>)
    requires InferSchema(Obj(es)).Ok?
    ensures InferSchema(Obj(es)).value.entries[1].1.Obj?
    ensures Keys(InferSchema(Obj(es)).value.entries[1].1.entries) == Keys(es)
  {
    var ps := InferEntries(Obj(es), 0).value;
    assert InferSchema(Obj(es)).value.entries[1].1 == Obj(ps);
    assert Keys(ps) == Keys(es) by {
      assert forall i :: 0 <= i < |es| ==> Keys(ps)[i] == es[i].0;
    }
  }

  /** A dict example: each property is the inferred schema of the example's
      value under that key. */
  lemma InferObjectValues(es: seq<(string, Node)>, i: int)
    requires InferSchema(Obj(es)).Ok? && 0 <= i < |es|
    ensures InferSchema(Obj(es)).value.entries[1].1.Obj?
    ensures |InferSchema(Obj(es)).value.entries[1].1.entries| == |es|
    ensures InferSchema(es[i].1).Ok?
    ensures InferSchema(Obj(es)).value.entries[1].1.entries[i] == (es[i].0, InferSchema(es[i].1).value)
  {
    var ps := InferEntries(Obj(es), 0).value;
    assert InferSchema(Obj(es)).value.entries[1].1 == Obj(ps);
  }

  /** A schema inferred from a well-formed example is well-formed: its
      `properties` carry the example's own distinct keys. */
  lemma {:induction false} InferWellFormed(n: Node)
    requires WellFormed(n) && InferSchema(n).Ok?
    ensures WellFormed(InferSchema(n).value)
    decreases n
  {
    var s := InferSchema(n).value.entries;
    assert s[0].0 == Keys(s)[0] && s[1].0 == Keys(s)[1];
    match n
    case Arr(xs) =>
      InferWellFormed(xs[0]);
    case Obj(es) =>
      InferObjectKeys(es);
      var ps := s[1].1.entries;
      forall i | 0 <= i < |ps| ensures WellFormed(ps[i].1) {
        InferObjectValues(es, i);
        InferWellFormed(es[i].1);
      }
      forall i, j | 0 <= i < j < |ps| ensures ps[i].0 != ps[j].0 {
        assert ps[i].0 == Keys(ps)[i] == es[i].0;
        assert ps[j].0 == Keys(ps)[j] == es[j].0;
      }
    case _ =>
  }
}
