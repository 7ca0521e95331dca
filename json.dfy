/** JSON values as the clean-up pass sees them after parsing, with the
    dictionary operations it performs on them.

    An object is an ordered list of key/value pairs, mirroring the insertion
    order of a Python dict; assigning to an existing key updates it where it
    stands, assigning to a new key appends it. */
module Json {

  /** A parsed JSON value. Floats only ever travel through the pass as a kind,
      so they carry an opaque textual token and no arithmetic. */
  datatype Node =
    | Obj(entries: seq<(string, Node)>)
    | Arr(items: seq<Node>)
    | Str(s: string)
    | Int(i: int)
    | Float(token: string)
    | Bool(b: bool)
    | Null
  {
    /** Neither a dict nor a list: the walk never descends into it. */
    predicate IsScalar() {
      !Obj? && !Arr?
    }
  }

  /** The Python exceptions the pass can raise; each one aborts the whole pass. */
  datatype Error =
    | KeyError       // a missing dict key
    | TypeError      // subscripting something that is not a dict by a string
    | IndexError     // a path or a list too short for the index taken
    | DecodeError    // the JSON parser rejected its input
    | InferError     // no schema kind for the value (null)

  datatype Result<T> = Ok(value: T) | Err(error: Error)

  /** `json.loads`, which is not part of this model: any function from text to
      an optional value, `None` standing for a rejected document. */
  type Parser = string -> Option<Node>

  /** The fixes the pass reports, one console line each. */
  datatype Fix =
    | DuplicateProperty(key: string, clean: string)
    | VoteType
    | NonNullType
    | MissingSchema
    | NullDefault
    | EscapedExample
    | MalformedJson

  /** A reported fix with the path, as segments, it was made at. */
  datatype Diag = Diag(fix: Fix, path: seq<string>)

  /** The keys of an object, in order. */
  function Keys(es: seq<(string, Node)>): (ks: seq<string>)
    ensures |ks| == |es|
    ensures forall i {:trigger ks[i]} :: 0 <= i < |es| ==> ks[i] == es[i].0
  {
    if es == [] then [] else [es[0].0] + Keys(es[1..])
  }

  predicate HasKey(es: seq<(string, Node)>, k: string) {
    k in Keys(es)
  }

  /** A dict never holds one key twice. */
  predicate UniqueKeys(es: seq<(string, Node)>) {
    forall i, j :: 0 <= i < j < |es| ==> es[i].0 != es[j].0
  }

  /** `d.get(k)`: the value stored under `k`, if any. */
  function Get(es: seq<(string, Node)>, k: string): (r: Option<Node>)
    ensures r.Some? <==> HasKey(es, k)
    ensures r.Some? ==> exists i :: 0 <= i < |es| && es[i] == (k, r.value)
    ensures forall i :: 0 <= i < |es| && UniqueKeys(es) && es[i].0 == k ==> r == Some(es[i].1)
  {
    if es == [] then None
    else if es[0].0 == k then Some(es[0].1)
    else
      var r := Get(es[1..], k);
      assert r.Some? ==> exists i :: 1 <= i < |es| && es[i] == (k, r.value) by {
        if r.Some? {
          var i :| 0 <= i < |es[1..]| && es[1..][i] == (k, r.value);
          assert es[i + 1] == (k, r.value);
        }
      }
      r
  }

  datatype Option<T> = None | Some(value: T)

  /** `d[k] = v`: updates the entry in place when `k` is present, appends it otherwise. */
  function Set(es: seq<(string, Node)>, k: string, v: Node): (r: seq<(string, Node)>)
    ensures Get(r, k) == Some(v)
    ensures forall k' :: k' != k ==> Get(r, k') == Get(es, k')
  {
    if es == [] then [(k, v)]
    else if es[0].0 == k then [(k, v)] + es[1..]
    else
      var t := Set(es[1..], k, v);
      var r := [es[0]] + t;
      assert r[0] == es[0] && r[1..] == t;
      r
  }

  /** The keys of an object with one more entry in front. */
  lemma KeysCons(e: (string, Node), es: seq<(string, Node)>)
    ensures Keys([e] + es) == [e.0] + Keys(es)
  {
    assert ([e] + es)[1..] == es;
  }

  /** Assigning keeps the keys and their order, adding `k` at the end when new. */
  lemma {:induction false} SetKeys(es: seq<(string, Node)>, k: string, v: Node)
    ensures Keys(Set(es, k, v)) == if HasKey(es, k) then Keys(es) else Keys(es) + [k]
  {
    if es == [] {
      KeysCons((k, v), []);
    } else {
      var rest := Keys(es[1..]);
      KeysCons(es[0], es[1..]);
      if es[0].0 != k {
        var t := Set(es[1..], k, v);
        SetKeys(es[1..], k, v);
        KeysCons(es[0], t);
        assert HasKey(es, k) == (k in rest);
        if k !in rest {
          assert [es[0].0] + (rest + [k]) == ([es[0].0] + rest) + [k];
        }
      } else {
        KeysCons((k, v), es[1..]);
      }
    }
  }

  /** Assigning adds `k` and keeps every other key. */
  lemma SetHasKey(es: seq<(string, Node)>, k: string, v: Node)
    ensures forall x :: HasKey(Set(es, k, v), x) <==> HasKey(es, x) || x == k
  {
    SetKeys(es, k, v);
  }

  /** The entries whose keys are not in `gone`, in their original order. */
  function Without(es: seq<(string, Node)>, gone: set<string>): (r: seq<(string, Node)>)
    ensures |r| <= |es|
  {
    if es == [] then []
    else if es[0].0 in gone then Without(es[1..], gone)
    else [es[0]] + Without(es[1..], gone)
  }

  /** `del d[k]`. */
  function Delete(es: seq<(string, Node)>, k: string): (r: seq<(string, Node)>)
    ensures |r| <= |es|
  {
    Without(es, {k})
  }

  /** Filtering keeps exactly the entries whose keys are not given. */
  lemma {:induction false} WithoutMembers(es: seq<(string, Node)>, gone: set<string>)
    ensures forall e :: e in Without(es, gone) <==> e in es && e.0 !in gone
  {
    if es != [] {
      WithoutMembers(es[1..], gone);
    }
  }

  /** `d[k]` where `d` may be any JSON value: a missing key is a KeyError, a
      non-dict a TypeError (lists, strings and scalars cannot be indexed by a
      string). */
  function Subscript(d: Node, k: string): (r: Result<Node>)
    ensures r.Ok? <==> d.Obj? && HasKey(d.entries, k)
    ensures r.Ok? ==> Get(d.entries, k) == Some(r.value)
    ensures r.Err? ==> r.error == (if d.Obj? then KeyError else TypeError)
  {
    if !d.Obj? then Err(TypeError)
    else match Get(d.entries, k)
      case Some(x) => Ok(x)
      case None => Err(KeyError)
  }

  /** Deleting a key from a filtered object is filtering by one more key. */
  lemma {:induction false} DeleteWithout(es: seq<(string, Node)>, gone: set<string>, k: string)
    ensures Without(Without(es, gone), {k}) == Without(es, gone + {k})
  {
    if es != [] {
      DeleteWithout(es[1..], gone, k);
    }
  }

  /** `k1` stands before `k2` in the object. */
  predicate Before(es: seq<(string, Node)>, k1: string, k2: string) {
    exists i, j :: 0 <= i < j < |es| && es[i].0 == k1 && es[j].0 == k2
  }

  /** Two survivors stand in the filtered object in the order they stood before. */
  lemma {:induction false} WithoutPair(es: seq<(string, Node)>, gone: set<string>, a: int, b: int)
    requires 0 <= a < b < |Without(es, gone)|
    ensures Before(es, Without(es, gone)[a].0, Without(es, gone)[b].0)
  {
    var t := Without(es[1..], gone);
    var r := Without(es, gone);
    if es[0].0 in gone {
      assert r == t;
      WithoutPair(es[1..], gone, a, b);
      var i, j :| 0 <= i < j < |es[1..]| && es[1..][i].0 == t[a].0 && es[1..][j].0 == t[b].0;
      assert es[i + 1].0 == r[a].0 && es[j + 1].0 == r[b].0;
    } else if a == 0 {
      assert r == [es[0]] + t && r[b] == t[b - 1];
      WithoutMembers(es[1..], gone);
      assert t[b - 1] in es[1..];
      var m :| 0 <= m < |es[1..]| && es[1..][m] == t[b - 1];
      assert es[0].0 == r[0].0 && es[m + 1].0 == r[b].0;
    } else {
      assert r == [es[0]] + t && r[a] == t[a - 1] && r[b] == t[b - 1];
      WithoutPair(es[1..], gone, a - 1, b - 1);
      var i, j :| 0 <= i < j < |es[1..]| && es[1..][i].0 == t[a - 1].0 && es[1..][j].0 == t[b - 1].0;
      assert es[i + 1].0 == r[a].0 && es[j + 1].0 == r[b].0;
    }
  }

  /** Filtering keeps the survivors' relative order. */
  lemma WithoutOrder(es: seq<(string, Node)>, gone: set<string>)
    ensures forall a, b :: 0 <= a < b < |Without(es, gone)| ==>
      Before(es, Without(es, gone)[a].0, Without(es, gone)[b].0)
  {
    forall a, b | 0 <= a < b < |Without(es, gone)|
      ensures Before(es, Without(es, gone)[a].0, Without(es, gone)[b].0)
    {
      WithoutPair(es, gone, a, b);
    }
  }

  /** Filtering keeps unique keys unique and keeps the survivors' relative order. */
  lemma WithoutKeepsOrder(es: seq<(string, Node)>, gone: set<string>)
    requires UniqueKeys(es)
    ensures UniqueKeys(Without(es, gone))
    ensures forall a, b :: 0 <= a < b < |Without(es, gone)| ==>
      Before(es, Without(es, gone)[a].0, Without(es, gone)[b].0)
  {
    WithoutOrder(es, gone);
    var t := Without(es, gone);
    forall a, b | 0 <= a < b < |t| ensures t[a].0 != t[b].0 {
      assert Before(es, t[a].0, t[b].0);
    }
  }

  /** Every dict in the tree has distinct keys, as a Python dict always does. */
  predicate WellFormed(n: Node) {
    match n
    case Obj(es) => UniqueKeys(es) && forall i :: 0 <= i < |es| ==> WellFormed(es[i].1)
    case Arr(xs) => forall i :: 0 <= i < |xs| ==> WellFormed(xs[i])
    case _ => true
  }

  /** Every entry after an assignment is the assigned one or was there before. */
  lemma {:induction false} SetEntries(es: seq<(string, Node)>, k: string, x: Node)
    ensures forall e :: e in Set(es, k, x) ==> e == (k, x) || e in es
  {
    if es != [] && es[0].0 != k {
      SetEntries(es[1..], k, x);
    }
  }

  lemma SetWellFormed(es: seq<(string, Node)>, k: string, x: Node)
    requires WellFormed(Obj(es)) && WellFormed(x)
    ensures WellFormed(Obj(Set(es, k, x)))
  {
    var r := Set(es, k, x);
    SetEntries(es, k, x);
    forall i | 0 <= i < |r| ensures WellFormed(r[i].1) {
      assert r[i] in r;
      if r[i] != (k, x) {
        var m :| 0 <= m < |es| && es[m] == r[i];
      }
    }
    SetKeysUnique(es, k, x);
  }

  lemma SetKeysUnique(es: seq<(string, Node)>, k: string, x: Node)
    requires UniqueKeys(es)
    ensures UniqueKeys(Set(es, k, x))
  {
    var r := Set(es, k, x);
    var ks := Keys(r);
    var ke := Keys(es);
    SetKeys(es, k, x);
    forall i, j | 0 <= i < j < |r| ensures r[i].0 != r[j].0 {
      assert ks[i] == r[i].0 && ks[j] == r[j].0;
      assert ks[i] == ke[i] && ke[i] == es[i].0;
      if j < |es| {
        assert ks[j] == ke[j] && ke[j] == es[j].0;
      } else {
        assert ks == ke + [k] && ks[j] == k;
        assert ke[i] in ke;
      }
    }
  }

  lemma WithoutWellFormed(es: seq<(string, Node)>, gone: set<string>)
    requires WellFormed(Obj(es))
    ensures WellFormed(Obj(Without(es, gone)))
  {
    var r := Without(es, gone);
    WithoutKeepsOrder(es, gone);
    WithoutMembers(es, gone);
    forall i | 0 <= i < |r| ensures WellFormed(r[i].1) {
      assert r[i] in r;
      var m :| 0 <= m < |es| && es[m] == r[i];
    }
  }

  lemma SubscriptWellFormed(d: Node, k: string)
    requires WellFormed(d) && Subscript(d, k).Ok?
    ensures WellFormed(Subscript(d, k).value)
  {
    var i :| 0 <= i < |d.entries| && d.entries[i] == (k, Subscript(d, k).value);
  }

  /** A parser returns only well-formed trees, as `json.loads` returns dicts. */
  ghost predicate ParsesWellFormed(parse: Parser) {
    forall s :: parse(s).Some? ==> WellFormed(parse(s).value)
  }
}
