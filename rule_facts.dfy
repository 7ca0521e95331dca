/** The repairs, as seen in the dict the walk returns. */
module RuleFacts {
  import opened Json
  import opened Text
  import opened Unescape
  import opened Dedup
  import opened Measure
  import opened Fixes
  import opened Walk
  import opened WalkFacts

  /** Only `nullable` and `additionalProperties` are ever overwritten. */
  lemma OverwrittenKeys(es: seq<(string, Node)>, path: seq<string>, x: string)
    requires Overwritten(Obj(es), path, x)
    ensures x == "nullable" || x == "additionalProperties"
  {
  }

  /** A key that some entry's rule writes holds `true` after the walk. */
  lemma MarkSet(parse: Parser, es: seq<(string, Node)>, path: seq<string>, m: string)
    requires UniqueKeys(es) && CleanNode(parse, Obj(es), path).Ok? && Overwritten(Obj(es), path, m)
    ensures Get(CleanNode(parse, Obj(es), path).value.0.entries, m) == Some(Bool(true))
  {
    WalkDict(parse, es, path);
  }

  /** A key is present after the walk iff it was before or some rule writes it. */
  lemma KeyPresent(parse: Parser, es: seq<(string, Node)>, path: seq<string>, x: string)
    requires UniqueKeys(es) && CleanNode(parse, Obj(es), path).Ok?
    ensures HasKey(CleanNode(parse, Obj(es), path).value.0.entries, x) <==> HasKey(es, x) || Overwritten(Obj(es), path, x)
  {
    WalkDict(parse, es, path);
  }

  /** A `default` of `null` makes the enclosing dict nullable. */
  lemma NullDefaultMakesNullable(parse: Parser, es: seq<(string, Node)>, path: seq<string>, j: int)
    requires UniqueKeys(es) && 0 <= j < |es| && es[j] == ("default", Null)
    requires CleanNode(parse, Obj(es), path).Ok?
    ensures Get(CleanNode(parse, Obj(es), path).value.0.entries, "nullable") == Some(Bool(true))
  {
    NullableWritten(es, path, j);
    WalkDict(parse, es, path);
  }

  lemma NullableWritten(es: seq<(string, Node)>, path: seq<string>, j: int)
    requires 0 <= j < |es| && es[j] == ("default", Null)
    ensures Overwritten(Obj(es), path, "nullable")
  {
    assert Writes(Obj(es), path, j, "nullable");
  }

  /** A `properties` dict in which two properties share a canonical name
      makes the enclosing dict accept additional properties. */
  lemma DuplicatesAllowAdditional(parse: Parser, es: seq<(string, Node)>, path: seq<string>, j: int)
    requires UniqueKeys(es) && 0 <= j < |es| && es[j].0 == "properties" && es[j].1.Obj?
    requires UniqueKeys(es[j].1.entries) && HasDuplicateNames(es[j].1.entries)
    requires CleanNode(parse, Obj(es), path).Ok?
    ensures Get(CleanNode(parse, Obj(es), path).value.0.entries, "additionalProperties") == Some(Bool(true))
  {
    AdditionalWritten(es, path, j);
    MarkSet(parse, es, path, "additionalProperties");
  }

  lemma AdditionalWritten(es: seq<(string, Node)>, path: seq<string>, j: int)
    requires 0 <= j < |es| && es[j].0 == "properties" && es[j].1.Obj?
    requires UniqueKeys(es[j].1.entries) && HasDuplicateNames(es[j].1.entries)
    ensures Overwritten(Obj(es), path, "additionalProperties")
  {
    DuplicatesDetected(es[j].1.entries, path + ["properties"]);
    assert Writes(Obj(es), path, j, "additionalProperties");
  }

  /** Conversely, a dict without `additionalProperties` gains it exactly
      when one of its `properties` dicts has a duplicate name. */
  lemma AdditionalOnlyForDuplicates(parse: Parser, es: seq<(string, Node)>, path: seq<string>)
    requires WellFormed(Obj(es)) && !HasKey(es, "additionalProperties")
    requires CleanNode(parse, Obj(es), path).Ok?
    ensures HasKey(CleanNode(parse, Obj(es), path).value.0.entries, "additionalProperties") <==>
      exists j :: 0 <= j < |es| && es[j].0 == "properties" && es[j].1.Obj? && HasDuplicateNames(es[j].1.entries)
  {
    AdditionalWrittenIff(es, path);
    KeyPresent(parse, es, path, "additionalProperties");
  }

  lemma AdditionalWrittenIff(es: seq<(string, Node)>, path: seq<string>)
    requires WellFormed(Obj(es))
    ensures Overwritten(Obj(es), path, "additionalProperties") <==>
      exists j :: 0 <= j < |es| && es[j].0 == "properties" && es[j].1.Obj? && HasDuplicateNames(es[j].1.entries)
  {
    forall j | 0 <= j < |es| && es[j].0 == "properties" && es[j].1.Obj?
      ensures Writes(Obj(es), path, j, "additionalProperties") <==> HasDuplicateNames(es[j].1.entries)
    {
      DuplicatesDetected(es[j].1.entries, path + ["properties"]);
    }
  }

  /** A scalar entry under any key but `value` that no rule overwrites is
      left as it is. */
  lemma ScalarEntryKept(parse: Parser, es: seq<(string, Node)>, path: seq<string>, j: int)
    requires UniqueKeys(es) && 0 <= j < |es| && es[j].1.IsScalar()
    requires es[j].0 != "value" && !Overwritten(Obj(es), path, es[j].0)
    requires CleanNode(parse, Obj(es), path).Ok?
    ensures Get(CleanNode(parse, Obj(es), path).value.0.entries, es[j].0) == Some(es[j].1)
  {
    WalkDict(parse, es, path);
  }

  /** A key other than the two marks is never overwritten. */
  lemma NotOverwritten(es: seq<(string, Node)>, path: seq<string>, k: string)
    requires k != "nullable" && k != "additionalProperties"
    ensures !Overwritten(Obj(es), path, k)
  {
    if Overwritten(Obj(es), path, k) {
      OverwrittenKeys(es, path, k);
    }
  }

  /** A `nullable` or `additionalProperties` that is already `true` stays so. */
  lemma TrueFlagKept(parse: Parser, es: seq<(string, Node)>, path: seq<string>, j: int)
    requires UniqueKeys(es) && 0 <= j < |es| && es[j].1 == Bool(true)
    requires es[j].0 == "nullable" || es[j].0 == "additionalProperties"
    requires CleanNode(parse, Obj(es), path).Ok?
    ensures Get(CleanNode(parse, Obj(es), path).value.0.entries, es[j].0) == Some(Bool(true))
  {
    WalkDict(parse, es, path);
  }

  /** A string of escaped JSON at `examples.<name>.value` is replaced by its
      parse, which is not walked. */
  lemma EscapedExampleParsed(parse: Parser, es: seq<(string, Node)>, path: seq<string>, j: int, s: string)
    requires UniqueKeys(es) && 0 <= j < |es| && es[j] == ("value", Str(s)) && IsEscapedJson(s)
    requires |path| >= 2 && path[|path| - 2] == "examples"
    requires CleanNode(parse, Obj(es), path).Ok?
    ensures parse(UnescapedText(s)).Some?
    ensures Get(CleanNode(parse, Obj(es), path).value.0.entries, "value") == Some(parse(UnescapedText(s)).value)
  {
    WalkDict(parse, es, path);
    EscapedVisit(parse, es, path, j, s);
    ValueNotOverwritten(es, path);
  }

  /** Visiting an escaped example parses it and assigns the parse. */
  lemma EscapedVisit(parse: Parser, es: seq<(string, Node)>, path: seq<string>, j: int, s: string)
    requires 0 <= j < |es| && es[j] == ("value", Str(s)) && IsEscapedJson(s)
    requires |path| >= 2 && path[|path| - 2] == "examples"
    requires VisitResult(parse, Obj(es), path, j).Ok?
    ensures parse(UnescapedText(s)).Some?
    ensures VisitResult(parse, Obj(es), path, j).value.outcome == Replaced(parse(UnescapedText(s)).value)
  {
    var ip := path + ["value"];
    assert ip[|ip| - 3] == "examples";
    assert VisitResult(parse, Obj(es), path, j) == VisitScalar(parse, "value", Str(s), ip);
  }

  lemma ValueNotOverwritten(es: seq<(string, Node)>, path: seq<string>)
    ensures !Overwritten(Obj(es), path, "value")
  {
    if Overwritten(Obj(es), path, "value") {
      OverwrittenKeys(es, path, "value");
    }
  }

  /** A scalar under `value` along a path too short to look two segments
      back makes the walk raise. */
  lemma ShortValuePathRaises(parse: Parser, es: seq<(string, Node)>, path: seq<string>, j: int)
    requires UniqueKeys(es) && 0 <= j < |es| && es[j].0 == "value" && es[j].1.IsScalar()
    requires |path| < 2
    ensures CleanNode(parse, Obj(es), path).Err?
  {
    assert VisitResult(parse, Obj(es), path, j) == Err(IndexError);
    VisitRaises(parse, es, path, j);
  }

  /** A dict entry under a key no rule overwrites holds the walk of its
      repaired value. */
  lemma DictEntryWalked(parse: Parser, es: seq<(string, Node)>, path: seq<string>, j: int)
    requires UniqueKeys(es) && 0 <= j < |es| && es[j].1.Obj?
    requires !Overwritten(Obj(es), path, es[j].0)
    requires CleanNode(parse, Obj(es), path).Ok?
    ensures Prepare(parse, es[j].0, es[j].1, path + [es[j].0]).Ok?
    ensures var p := Prepare(parse, es[j].0, es[j].1, path + [es[j].0]).value.value;
      && (p.Obj? || p.Arr?)
      && CleanNode(parse, p, path + [es[j].0]).Ok?
      && Get(CleanNode(parse, Obj(es), path).value.0.entries, es[j].0)
         == Some(CleanNode(parse, p, path + [es[j].0]).value.0)
  {
    WalkDict(parse, es, path);
    DictVisit(parse, es, path, j);
  }

  /** Visiting a dict entry prepares its value and walks the result. */
  lemma DictVisit(parse: Parser, es: seq<(string, Node)>, path: seq<string>, j: int)
    requires 0 <= j < |es| && es[j].1.Obj?
    requires VisitResult(parse, Obj(es), path, j).Ok?
    ensures Prepare(parse, es[j].0, es[j].1, path + [es[j].0]).Ok?
    ensures var p := Prepare(parse, es[j].0, es[j].1, path + [es[j].0]).value.value;
      && (p.Obj? || p.Arr?)
      && CleanNode(parse, p, path + [es[j].0]).Ok?
      && VisitResult(parse, Obj(es), path, j).value.outcome == Walked(CleanNode(parse, p, path + [es[j].0]).value.0)
  {
    assert VisitResult(parse, Obj(es), path, j) == VisitDict(parse, Obj(es), path, j);
  }

  /** An `additionalProperties` schema dict is walked and kept when no
      `properties` entry beside it has duplicate names. */
  lemma AdditionalSchemaWalked(parse: Parser, es: seq<(string, Node)>, path: seq<string>, j: int)
    requires WellFormed(Obj(es)) && 0 <= j < |es| && es[j].0 == "additionalProperties" && es[j].1.Obj?
    requires forall i :: 0 <= i < |es| && es[i].0 == "properties" && es[i].1.Obj? ==>
      !HasDuplicateNames(es[i].1.entries)
    requires CleanNode(parse, Obj(es), path).Ok?
    ensures CleanNode(parse, es[j].1, path + ["additionalProperties"]).Ok?
    ensures Get(CleanNode(parse, Obj(es), path).value.0.entries, "additionalProperties")
      == Some(CleanNode(parse, es[j].1, path + ["additionalProperties"]).value.0)
  {
    AdditionalWrittenIff(es, path);
    assert !IsNonNullSite("additionalProperties") by {
      assert !EndsWith("additionalProperties", "_path");
    }
    DictEntryWalked(parse, es, path, j);
  }

  /** A `properties` dict holds the walk of its deduplicated form: the
      deleted entries are never visited. */
  lemma PropertiesWalkedDeduplicated(parse: Parser, es: seq<(string, Node)>, path: seq<string>, j: int)
    requires UniqueKeys(es) && 0 <= j < |es| && es[j].0 == "properties" && es[j].1.Obj?
    requires CleanNode(parse, Obj(es), path).Ok?
    ensures var d := Obj(Deduplicated(es[j].1.entries));
      && CleanNode(parse, d, path + ["properties"]).Ok?
      && Get(CleanNode(parse, Obj(es), path).value.0.entries, "properties")
         == Some(CleanNode(parse, d, path + ["properties"]).value.0)
  {
    NotOverwritten(es, path, es[j].0);
    DictEntryWalked(parse, es, path, j);
  }

  /** A key holding `v` in a dict whose keys are distinct. */
  lemma EntryOf(es: seq<(string, Node)>, k: string, v: Node) returns (i: int)
    requires Get(es, k) == Some(v)
    ensures 0 <= i < |es| && es[i] == (k, v)
  {
    i :| 0 <= i < |es| && es[i] == (k, v);
  }

  /** A vote or rating property without a type or declared an integer ends
      up a nullable number. */
  lemma VoteFixed(parse: Parser, es: seq<(string, Node)>, path: seq<string>, j: int)
    requires WellFormed(Obj(es)) && 0 <= j < |es| && IsVoteSite(es[j].0, es[j].1)
    requires CleanNode(parse, Obj(es), path).Ok?
    ensures var c := Get(CleanNode(parse, Obj(es), path).value.0.entries, es[j].0);
      && c.Some? && c.value.Obj?
      && Get(c.value.entries, "type") == Some(Str("number"))
      && Get(c.value.entries, "nullable") == Some(Bool(true))
  {
    var (k, v) := es[j];
    var ip := path + [k];
    NotOverwritten(es, path, es[j].0);
    DictEntryWalked(parse, es, path, j);
    var fixed := VoteFix(v.entries);
    assert Prepare(parse, k, v, ip).value.value == Obj(fixed);
    SetWellFormed(v.entries, "type", Str("number"));
    SetWellFormed(Set(v.entries, "type", Str("number")), "nullable", Bool(true));
    var t := EntryOf(fixed, "type", Str("number"));
    var n := EntryOf(fixed, "nullable", Bool(true));
    NotOverwritten(fixed, ip, "type");
    ScalarEntryKept(parse, fixed, ip, t);
    TrueFlagKept(parse, fixed, ip, n);
  }

  /** An image path, language code or adult flag ends up nullable, typed
      `string` when it had no type. */
  lemma NonNullFixed(parse: Parser, es: seq<(string, Node)>, path: seq<string>, j: int)
    requires WellFormed(Obj(es)) && 0 <= j < |es| && es[j].1.Obj?
    requires IsNonNullSite(es[j].0)
    requires CleanNode(parse, Obj(es), path).Ok?
    ensures var c := Get(CleanNode(parse, Obj(es), path).value.0.entries, es[j].0);
      && c.Some? && c.value.Obj?
      && Get(c.value.entries, "nullable") == Some(Bool(true))
      && (!HasKey(es[j].1.entries, "type") ==> Get(c.value.entries, "type") == Some(Str("string")))
  {
    var (k, v) := es[j];
    var ip := path + [k];
    assert k != "properties" && k != "nullable" && k != "additionalProperties" by {
      assert !EndsWith("properties", "_path");
      assert !EndsWith("nullable", "_path");
      assert !EndsWith("additionalProperties", "_path");
    }
    assert !IsVoteSite(k, v) by {
      assert !EndsWith("vote_average", "_path");
      assert !EndsWith("rating", "_path");
    }
    NotOverwritten(es, path, es[j].0);
    DictEntryWalked(parse, es, path, j);
    var fixed := NonNullFix(v.entries);
    assert Prepare(parse, k, v, ip).value.value == Obj(fixed);
    var typed := if HasKey(v.entries, "type") then v.entries else Set(v.entries, "type", Str("string"));
    SetWellFormed(v.entries, "type", Str("string"));
    SetWellFormed(typed, "nullable", Bool(true));
    var n := EntryOf(fixed, "nullable", Bool(true));
    TrueFlagKept(parse, fixed, ip, n);
    if !HasKey(v.entries, "type") {
      var t := EntryOf(fixed, "type", Str("string"));
      NotOverwritten(fixed, ip, "type");
      ScalarEntryKept(parse, fixed, ip, t);
    }
  }

  /** An `application/json` body with examples but no schema ends up with a
      schema. */
  lemma MissingSchemaAdded(parse: Parser, es: seq<(string, Node)>, path: seq<string>, j: int)
    requires WellFormed(Obj(es)) && 0 <= j < |es| && IsSchemaSite(es[j].0, es[j].1)
    requires ParsesWellFormed(parse)
    requires CleanNode(parse, Obj(es), path).Ok?
    ensures MissingSchemaFix(parse, es[j].1).Ok?
    ensures var fixed := MissingSchemaFix(parse, es[j].1).value;
      && CleanNode(parse, fixed, path + [es[j].0]).Ok?
      && Get(CleanNode(parse, Obj(es), path).value.0.entries, es[j].0)
         == Some(CleanNode(parse, fixed, path + [es[j].0]).value.0)
    ensures var c := Get(CleanNode(parse, Obj(es), path).value.0.entries, es[j].0);
      && c.Some? && c.value.Obj? && HasKey(c.value.entries, "schema")
  {
    var (k, v) := es[j];
    var ip := path + [k];
    assert !IsVoteSite(k, v) && !IsNonNullSite(k) by {
      assert !EndsWith(k, "_path") by { assert k[|k| - 5..] == "/json"; }
    }
    NotOverwritten(es, path, es[j].0);
    DictEntryWalked(parse, es, path, j);
    var fixed := Prepare(parse, k, v, ip).value.value;
    assert fixed == MissingSchemaFix(parse, v).value;
    PrepareWellFormed(parse, k, v, ip);
    assert HasKey(fixed.entries, "schema");
    KeyPresent(parse, fixed.entries, ip, "schema");
  }

  /** The missing-schema fix raises when the example is not at
      `examples.Result.value`, and so does the whole walk. */
  lemma MissingExampleRaises(parse: Parser, es: seq<(string, Node)>, path: seq<string>, j: int)
    requires UniqueKeys(es) && 0 <= j < |es| && IsSchemaSite(es[j].0, es[j].1)
    requires ExampleValue(es[j].1).Err?
    ensures CleanNode(parse, Obj(es), path).Err?
  {
    MissingExampleVisit(parse, es, path, j);
    VisitRaises(parse, es, path, j);
  }

  lemma MissingExampleVisit(parse: Parser, es: seq<(string, Node)>, path: seq<string>, j: int)
    requires 0 <= j < |es| && IsSchemaSite(es[j].0, es[j].1)
    requires ExampleValue(es[j].1).Err?
    ensures VisitResult(parse, Obj(es), path, j).Err?
  {
    PrepareMissingExample(parse, es[j].0, es[j].1, path + [es[j].0]);
    assert VisitResult(parse, Obj(es), path, j) == VisitDict(parse, Obj(es), path, j);
  }

  /** The if/elif chain reaches the missing-schema fix, which cannot reach its example. */
  lemma PrepareMissingExample(parse: Parser, k: string, v: Node, ip: seq<string>)
    requires IsSchemaSite(k, v) && ExampleValue(v).Err?
    ensures Prepare(parse, k, v, ip).Err?
  {
    assert !EndsWith(k, "_path") by {
      assert k[|k| - 5..] == "/json";
    }
  }
}
