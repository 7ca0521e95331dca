/** The repairs the pass applies to an entry whose value is a dict, before it
    walks that value, in the order in which `clean_schema_tree` tries them. */
module Fixes {
  import opened Json
  import opened Text
  import opened Infer
  import opened Unescape
  import opened Measure
  import opened Dedup

  /** A string that looks like embedded JSON: `{…}` or `[…]`. */
  predicate IsEscapedJson(s: string) {
    (StartsWith(s, "{") && EndsWith(s, "}")) || (StartsWith(s, "[") && EndsWith(s, "]"))
  }

  /** A vote or rating property declared as an integer, or without a type. */
  predicate IsVoteSite(k: string, v: Node) {
    (k == "vote_average" || k == "rating")
    && v.Obj? && (!HasKey(v.entries, "type") || Get(v.entries, "type") == Some(Str("integer")))
  }

  /** A property that the API sends as `null` although it is not declared
      nullable: image paths, language codes and the adult flag. */
  predicate IsNonNullSite(k: string) {
    EndsWith(k, "_path") || k == "iso_639_1" || k == "adult"
  }

  /** The vote fix: the type becomes `number` and the property nullable;
      every other key keeps its value and no key is lost. */
  function VoteFix(es: seq<(string, Node)>): (r: seq<(string, Node)>)
    ensures Get(r, "type") == Some(Str("number"))
    ensures Get(r, "nullable") == Some(Bool(true))
    ensures forall k :: k != "type" && k != "nullable" ==> Get(r, k) == Get(es, k)
    ensures forall k :: HasKey(es, k) ==> HasKey(r, k)
  {
    SetHasKey(es, "type", Str("number"));
    SetHasKey(Set(es, "type", Str("number")), "nullable", Bool(true));
    Set(Set(es, "type", Str("number")), "nullable", Bool(true))
  }

  /** The non-null fix: a missing type becomes `string`, a present one is
      kept; the property becomes nullable; every other key keeps its value. */
  function NonNullFix(es: seq<(string, Node)>): (r: seq<(string, Node)>)
    ensures Get(r, "type") == if HasKey(es, "type") then Get(es, "type") else Some(Str("string"))
    ensures Get(r, "nullable") == Some(Bool(true))
    ensures forall k :: k != "type" && k != "nullable" ==> Get(r, k) == Get(es, k)
    ensures forall k :: HasKey(es, k) ==> HasKey(r, k)
  {
    SetHasKey(es, "type", Str("string"));
    var typed := if HasKey(es, "type") then es else Set(es, "type", Str("string"));
    SetHasKey(typed, "nullable", Bool(true));
    Set(typed, "nullable", Bool(true))
  }

  /** `v["examples"]["Result"]["value"]`: a missing key or a non-dict on the
      way raises. */
  function ExampleValue(v: Node): (r: Result<Node>)
    ensures r.Ok? <==>
      && Subscript(v, "examples").Ok?
      && Subscript(Subscript(v, "examples").value, "Result").Ok?
      && Subscript(Subscript(Subscript(v, "examples").value, "Result").value, "value").Ok?
    ensures r.Ok? ==>
      r.value == Subscript(Subscript(Subscript(v, "examples").value, "Result").value, "value").value
    ensures r.Err? ==> r.error == KeyError || r.error == TypeError
    ensures r.Ok? && WellFormed(v) ==> WellFormed(r.value)
  {
    match Subscript(v, "examples")
    case Err(e) => Err(e)
    case Ok(ex) =>
      SubscriptWellFormedIf(v, "examples");
      match Subscript(ex, "Result")
      case Err(e) => Err(e)
      case Ok(res) =>
        SubscriptWellFormedIf(ex, "Result");
        SubscriptWellFormedIf(res, "value");
        Subscript(res, "value")
  }

  lemma SubscriptWellFormedIf(d: Node, k: string)
    ensures Subscript(d, k).Ok? && WellFormed(d) ==> WellFormed(Subscript(d, k).value)
  {
    if Subscript(d, k).Ok? && WellFormed(d) {
      SubscriptWellFormed(d, k);
    }
  }

  /** The value the missing schema is inferred from: the example, parsed
      (without a path, so a malformed prefix goes unreported) when it is a
      string of escaped JSON. */
  function SchemaExample(parse: Parser, v: Node): (r: Result<Node>)
    ensures ExampleValue(v).Err? ==> r == ExampleValue(v)
    ensures ExampleValue(v).Ok? && !(ExampleValue(v).value.Str? && IsEscapedJson(ExampleValue(v).value.s)) ==>
      r == ExampleValue(v)
    ensures ExampleValue(v).Ok? && ExampleValue(v).value.Str? && IsEscapedJson(ExampleValue(v).value.s) ==>
      var text := UnescapedText(ExampleValue(v).value.s);
      && (r.Ok? <==> parse(text).Some?)
      && (r.Ok? ==> r.value == parse(text).value)
      && (r.Err? ==> r.error == DecodeError)
  {
    match ExampleValue(v)
    case Err(e) => Err(e)
    case Ok(x) =>
      if x.Str? && IsEscapedJson(x.s) then
        match UnescapeJson(parse, x.s, [])
        case Ok((y, _)) => Ok(y)
        case Err(e) => Err(e)
      else Ok(x)
  }

  /** The missing-schema fix: `schema` is set to the schema inferred from the
      example; every other key keeps its value. Fails when the example cannot
      be reached, parsed or inferred. */
  function MissingSchemaFix(parse: Parser, v: Node): (r: Result<Node>)
    requires v.Obj?
    ensures r.Ok? <==> SchemaExample(parse, v).Ok? && InferSchema(SchemaExample(parse, v).value).Ok?
    ensures r.Err? && SchemaExample(parse, v).Err? ==> r.error == SchemaExample(parse, v).error
    ensures r.Ok? ==>
      && r.value.Obj?
      && Get(r.value.entries, "schema") == Some(InferSchema(SchemaExample(parse, v).value).value)
      && (forall k :: k != "schema" ==> Get(r.value.entries, k) == Get(v.entries, k))
      && (!HasKey(v.entries, "schema") ==> Keys(r.value.entries) == Keys(v.entries) + ["schema"])
  {
    match SchemaExample(parse, v)
    case Err(e) => Err(e)
    case Ok(x) =>
      match InferSchema(x)
      case Err(e) => Err(e)
      case Ok(s) =>
        SetKeys(v.entries, "schema", s);
        Ok(Obj(Set(v.entries, "schema", s)))
  }

  /** What the pass makes of a dict value before walking it. */
  datatype Prepared = Prepared(value: Node, log: seq<Diag>, markParent: bool)

  /** The `if`/`elif` chain on a dict value `v` under key `k`: duplicate
      properties are removed (and the enclosing dict marked when any was),
      else the vote fix, else the non-null fix, else the missing-schema fix.
      Each reports one line at the entry's path; deletions report one line
      each at the deleted property's path. */
  function Prepare(parse: Parser, k: string, v: Node, ip: seq<string>): (r: Result<Prepared>)
    requires v.Obj?
    ensures r.Err? ==> IsSchemaSite(k, v)
    ensures r.Ok? ==> r.value.value.Obj?
    ensures r.Ok? && k == "properties" ==>
      && r.value.value == Obj(Deduplicated(v.entries))
      && r.value.log == DuplicateLog(v.entries, SortDescending(Keys(v.entries)), ip)
      && (r.value.markParent <==> r.value.log != [])
    ensures r.Ok? && k != "properties" ==> !r.value.markParent && |r.value.log| <= 1
    ensures r.Ok? && k != "properties" && IsVoteSite(k, v) ==>
      r.value == Prepared(Obj(VoteFix(v.entries)), [Diag(VoteType, ip)], false)
    ensures r.Ok? && k != "properties" && !IsVoteSite(k, v) && IsNonNullSite(k) ==>
      r.value == Prepared(Obj(NonNullFix(v.entries)), [Diag(NonNullType, ip)], false)
    ensures k != "properties" && !IsVoteSite(k, v) && !IsNonNullSite(k) && IsSchemaSite(k, v) ==>
      && (r.Ok? <==> MissingSchemaFix(parse, v).Ok?)
      && (r.Ok? ==> r.value == Prepared(MissingSchemaFix(parse, v).value, [Diag(MissingSchema, ip)], false))
      && (r.Err? ==> r.error == MissingSchemaFix(parse, v).error)
    ensures k != "properties" && !IsVoteSite(k, v) && !IsNonNullSite(k) && !IsSchemaSite(k, v) ==>
      r == Ok(Prepared(v, [], false))
  {
    if k == "properties" then
      var log := DuplicateLog(v.entries, SortDescending(Keys(v.entries)), ip);
      Ok(Prepared(Obj(Deduplicated(v.entries)), log, log != []))
    else if IsVoteSite(k, v) then
      Ok(Prepared(Obj(VoteFix(v.entries)), [Diag(VoteType, ip)], false))
    else if IsNonNullSite(k) then
      Ok(Prepared(Obj(NonNullFix(v.entries)), [Diag(NonNullType, ip)], false))
    else if IsSchemaSite(k, v) then
      match MissingSchemaFix(parse, v)
      case Ok(fixed) => Ok(Prepared(fixed, [Diag(MissingSchema, ip)], false))
      case Err(e) => Err(e)
    else
      Ok(Prepared(v, [], false))
  }

  /** The repaired value never holds more schema sites than the original;
      unless the missing-schema fix ran, it is at most two entries larger. */
  lemma PrepareShrinks(parse: Parser, k: string, v: Node, ip: seq<string>)
    requires v.Obj? && Prepare(parse, k, v, ip).Ok?
    ensures Pending(Prepare(parse, k, v, ip).value.value) <= Pending(v)
    ensures IsSchemaSite(k, v) || Size(Prepare(parse, k, v, ip).value.value) <= Size(v) + 2
  {
    var es := v.entries;
    assert v == Obj(es);
    if k == "properties" {
      WithoutBound(es, Losers(es));
    } else if IsVoteSite(k, v) {
      VoteFixBound(es);
    } else if IsNonNullSite(k) {
      NonNullFixBound(es);
    } else if IsSchemaSite(k, v) {
      MissingSchemaFixBound(parse, v);
    }
  }

  lemma VoteFixBound(es: seq<(string, Node)>)
    ensures Pending(Obj(VoteFix(es))) <= Pending(Obj(es))
    ensures Size(Obj(VoteFix(es))) <= Size(Obj(es)) + 2
  {
    SetBound(es, "type", Str("number"));
    SetBound(Set(es, "type", Str("number")), "nullable", Bool(true));
  }

  lemma NonNullFixBound(es: seq<(string, Node)>)
    ensures Pending(Obj(NonNullFix(es))) <= Pending(Obj(es))
    ensures Size(Obj(NonNullFix(es))) <= Size(Obj(es)) + 2
  {
    if !HasKey(es, "type") {
      SetBound(es, "type", Str("string"));
      SetBound(Set(es, "type", Str("string")), "nullable", Bool(true));
    } else {
      SetBound(es, "nullable", Bool(true));
    }
  }

  lemma MissingSchemaFixBound(parse: Parser, v: Node)
    requires v.Obj? && MissingSchemaFix(parse, v).Ok?
    ensures Pending(MissingSchemaFix(parse, v).value) <= Pending(v)
  {
    var x := SchemaExample(parse, v).value;
    InferPendingFree(x);
    SetBound(v.entries, "schema", InferSchema(x).value);
  }

  /** Repairs keep every dict's keys distinct. */
  lemma PrepareWellFormed(parse: Parser, k: string, v: Node, ip: seq<string>)
    requires v.Obj? && WellFormed(v) && ParsesWellFormed(parse) && Prepare(parse, k, v, ip).Ok?
    ensures WellFormed(Prepare(parse, k, v, ip).value.value)
  {
    var es := v.entries;
    assert v == Obj(es);
    if k == "properties" {
      WithoutWellFormed(es, Losers(es));
    } else if IsVoteSite(k, v) {
      SetWellFormed(es, "type", Str("number"));
      SetWellFormed(Set(es, "type", Str("number")), "nullable", Bool(true));
    } else if IsNonNullSite(k) {
      if !HasKey(es, "type") {
        SetWellFormed(es, "type", Str("string"));
        SetWellFormed(Set(es, "type", Str("string")), "nullable", Bool(true));
      } else {
        SetWellFormed(es, "nullable", Bool(true));
      }
    } else if IsSchemaSite(k, v) {
      var x := SchemaExample(parse, v).value;
      var raw := ExampleValue(v).value;
      if raw.Str? && IsEscapedJson(raw.s) {
        assert WellFormed(parse(UnescapedText(raw.s)).value);
      }
      InferWellFormed(x);
      SetWellFormed(es, "schema", InferSchema(x).value);
    }
  }
}
