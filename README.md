# OpenAPI clean-up pass of the TMDB schema generator, in Dafny

`_tools/schema_gen.py` downloads the TMDB v3 OpenAPI document. It then repairs
it with `clean_schema_tree`, a depth-first walk over the parsed JSON tree. The
walk has two helpers: `infer_schema_type`, which builds a JSON-Schema fragment
from an example value, and `unescape_json`, which parses a JSON string that
may carry a stray `{}` or `[]` prefix.

This project models those three functions and proves what each repair does.

- **Json.** A JSON value is the datatype `Json.Node`. An object is an ordered
  list of key/value pairs, like a Python dict. Assigning to a present key
  updates that entry where it stands; assigning to a new key appends it.
- **Errors.** Python exceptions are error results (`KeyError`, `TypeError`,
  `IndexError`, a parse failure, the pass's own "could not infer").
- **Prints.** Each console line is a `Diag`: the kind of fix and the path it
  was made at.
- **Infer, Unescape.** `infer_schema_type` and `unescape_json` are functions.
  `json.loads` is a parameter, a function from text to an optional value.
- **Dedup.** The duplicate-property loop is the method
  `Dedup.RemoveDuplicates`. It is proved equal to `Dedup.Deduplicated`, which
  keeps exactly the greatest raw key of each canonical name.
- **Walk.** The walk is the method `Walk.CleanSchemaTree`, with one method for
  the dict loop and one for the list loop. It is proved equal to the function
  `Walk.CleanNode`, which the lemmas in `WalkFacts` and `RuleFacts` describe.
- **Snapshot.** `clean_schema_tree` iterates a snapshot of each dict's
  entries. It writes `additionalProperties` and `nullable` into the dict being
  walked. If such a key comes later in the snapshot, its old value is still
  visited, but that value is detached from the document. So its changes are
  lost, while its errors and reports still happen. The walk state records the
  overwritten keys (`written`) to model exactly this.
- **Termination.** The walk recurses into a value after fixing it, and the
  missing-schema fix can make that value arbitrarily larger. `Measure` bounds
  the recursion: first by the `application/json` entries still waiting for a
  schema, then by the size of the tree.

The model follows the code as written, including these points:
- No schema-merge routine exists.
- `None` cannot be inferred.
- A list's schema comes from its first element only.
- Only an `application/json` value without a `schema` gets one. The
  missing-schema fix itself does not rewrite the stored example; the later
  walk of the value does, when the example is a bracketed string at
  `examples.Result.value`.
- The surviving duplicate is the raw key that sorts greatest (`vote` over
  `_vote` and `__vote`), not the smallest.

## Model

| member | source | states |
|---|---|---|
| Json.Set | _tools/schema_gen.py:57-58 | `d[k] = v`: afterwards `k` holds `v` and every other key holds what it held before |
| Json.SetKeys | _tools/schema_gen.py:63-65 | an assignment keeps the keys in order; a new key is appended at the end |
| Json.Subscript | _tools/schema_gen.py:69 | `d[k]` succeeds exactly on a dict holding `k` and gives that value; a missing key is a KeyError, a non-dict a TypeError |
| Json.WithoutKeepsOrder | _tools/schema_gen.py:49 | deleting keys keeps the remaining keys distinct and in their original relative order |
| Json.WithoutMembers | _tools/schema_gen.py:49 | after the deletions, an entry is present iff it was present and its key was not deleted |
| Text.Strip | _tools/schema_gen.py:47 | `k.strip("_")`: a slice of the key that neither starts nor ends with `_`, with only `_` cut off on either side |
| Text.SortDescending | _tools/schema_gen.py:46 | `sorted(..., reverse=True)`: a permutation of the keys in which no key is smaller than one after it |
| Text.LexLessTotal | _tools/schema_gen.py:46 | Python's string order is total: two strings are equal or one is smaller |
| Text.LexLessTransitive | _tools/schema_gen.py:46 | Python's string order is transitive |
| Text.LexLessAsymmetric | _tools/schema_gen.py:46 | no two strings are each smaller than the other |
| Text.NatToString | _tools/schema_gen.py:93 | `str(i)`: a non-empty string of decimal digits denoting `i`, with no leading zero |
| Infer.InferSchema | _tools/schema_gen.py:11-23 | inference succeeds iff the value is inferable (no `None`, no empty first list); `None` raises the pass's exception, `[]` an IndexError; a result is a dict `{type: <kind>, <example/items/properties>: …}` with the type first |
| Infer.InferEntries | _tools/schema_gen.py:21 | the properties comprehension succeeds iff every value is inferable, and maps each key, in order, to its value's schema |
| Infer.InferScalar | _tools/schema_gen.py:12-17 | an int or bool gives `{type: integer, example: v}`, a string `string`, a float `number` |
| Infer.InferArrayHead | _tools/schema_gen.py:18-19 | a list's schema depends on its first element only and is `{type: array, items: <its schema>}` |
| Infer.InferObjectKeys | _tools/schema_gen.py:20-21 | a dict's `properties` has exactly the example's keys in the same order |
| Infer.InferObjectValues | _tools/schema_gen.py:20-21 | each property is the schema inferred from the example's value under that key |
| Infer.InferWellFormed | _tools/schema_gen.py:11-21 | an inferred schema of a dict-valid example has distinct keys in every dict |
| Unescape.UnescapedText | _tools/schema_gen.py:27-31 | the parser gets `v[2:]` iff `v` is longer than two characters and starts with `{}` or `[]`, and `v` unchanged otherwise |
| Unescape.UnescapeJson | _tools/schema_gen.py:26-33 | the result is the parse of that text, a parser rejection is an error, and one malformed-prefix line is reported iff the prefix was removed and a path was given |
| Unescape.OnePrefixOnly | _tools/schema_gen.py:27-31 | only one prefix is removed, whatever follows it |
| Dedup.RemoveDuplicates | _tools/schema_gen.py:44-54 | the loop leaves exactly the deduplicated dict, and reports one line per deleted key in descending key order |
| Dedup.DeduplicatedKeepsGreatest | _tools/schema_gen.py:46-49 | an entry survives iff it was present and no key with its canonical name is greater; survivors keep their values, stay distinct and keep their relative order |
| Dedup.DeduplicatedNamesUnique | _tools/schema_gen.py:46-54 | no two surviving keys share a canonical name |
| Dedup.DeduplicatedKeepsEveryName | _tools/schema_gen.py:46-54 | every canonical name of the input still has a surviving key |
| Dedup.HasSurvivor | _tools/schema_gen.py:46-54 | in descending order, every visited key's canonical name has a survivor at or before it |
| Dedup.DuplicatesDetected | _tools/schema_gen.py:48-52 | a deletion is reported iff two keys share a canonical name |
| Dedup.LogMeansDuplicate | _tools/schema_gen.py:48-52 | a reported deletion means two keys share a canonical name |
| Dedup.DuplicateMeansLog | _tools/schema_gen.py:48-52 | two keys sharing a canonical name mean a reported deletion |
| Dedup.LoggedLoser | _tools/schema_gen.py:48-52 | a non-empty report names a visited key that is deleted |
| Dedup.LoserLogged | _tools/schema_gen.py:48-52 | every visited key that is deleted makes the report non-empty |
| Fixes.VoteFix | _tools/schema_gen.py:55-58 | the vote fix sets `type` to `number` and `nullable` to true, keeping every other key and value |
| Fixes.NonNullFix | _tools/schema_gen.py:61-65 | `nullable` becomes true; `type` becomes `string` only when absent, and an existing type is kept; every other key keeps its value |
| Fixes.ExampleValue | _tools/schema_gen.py:69 | `v["examples"]["Result"]["value"]`: succeeds iff each of the three subscripts succeeds, and then gives the value under `value`; otherwise fails with KeyError or TypeError |
| Fixes.SchemaExample | _tools/schema_gen.py:69-74 | the example is parsed exactly when it is a bracketed string, and is used as it is otherwise |
| Fixes.MissingSchemaFix | _tools/schema_gen.py:68-74 | the fix succeeds iff the example can be reached, parsed and inferred; `schema` is then its inferred schema, appended as a new key, and every other key is unchanged |
| Fixes.Prepare | _tools/schema_gen.py:41-75 | the `if`/`elif` chain: `properties` is deduplicated, and the parent is marked iff a line was reported; otherwise the vote fix, else the non-null fix, else the schema fix, which succeeds or fails exactly as `Fixes.MissingSchemaFix` does and is the only fix that can raise, else nothing; the vote, non-null and schema fixes each report one line at the entry's path, and deduplication reports one line per deleted key at that key's path and none when nothing is deleted |
| Fixes.PrepareShrinks | _tools/schema_gen.py:41-77 | a fix never adds an `application/json` site, and apart from the schema fix it adds at most two entries |
| Fixes.PrepareWellFormed | _tools/schema_gen.py:41-75 | the fixes keep keys distinct in every dict |
| Measure.InferPendingFree | _tools/schema_gen.py:74-77 | an inferred schema holds no `application/json` site, so walking it never adds another schema |
| Walk.CleanSchemaTree | _tools/schema_gen.py:36-93 | the walk of a dict or list returns what `CleanNode` describes, the repaired tree with the reports in order, or the exception |
| Walk.CleanDict | _tools/schema_gen.py:37-89 | the loop over the snapshot of a dict's entries ends in the state that visiting them in order describes |
| Walk.VisitEntry | _tools/schema_gen.py:39-89 | visiting one snapshot entry, with the dedup loop run for `properties`, gives the visit its rules describe |
| Walk.Write | _tools/schema_gen.py:50 | after a visit, the mark is written into the dict first, then the entry's own result |
| Walk.EntriesStep | _tools/schema_gen.py:38 | the dict walk is one entry's visit followed by the walk of the rest |
| Walk.CleanList | _tools/schema_gen.py:90-93 | the loop over a list ends with the elements that walking each dict or list element in order describes |
| WalkFacts.VisitShape | _tools/schema_gen.py:41-89 | a visit marks exactly `nullable` for a null `default` and `additionalProperties` for a `properties` dict that lost a duplicate; only dict and list values are walked; only a `value` entry is assigned |
| WalkFacts.ApplyFacts | _tools/schema_gen.py:77-87 | a visit adds only its mark to the keys, and changes only the mark and its own key; a walked child is not stored back under a key that was overwritten |
| WalkFacts.InvStep | _tools/schema_gen.py:38-89 | the dict-walk invariant holds after each further entry |
| WalkFacts.WalkDict | _tools/schema_gen.py:37-89 | a walked dict holds true under every mark a rule writes; it loses no key and gains only marks; every other key holds what its own entry's visit made of it |
| WalkFacts.VisitRaises | _tools/schema_gen.py:38-89 | an exception in any entry's visit aborts the walk of the whole dict |
| WalkFacts.ItemsFacts | _tools/schema_gen.py:91-93 | the list loop keeps the length, leaves scalar elements alone and replaces each dict or list element by its walk |
| WalkFacts.WalkList | _tools/schema_gen.py:90-93 | scalars in lists are never modified, and each dict or list element is walked at the path extended by its index |
| RuleFacts.OverwrittenKeys | _tools/schema_gen.py:50 | only `nullable` and `additionalProperties` are ever written by one entry's rule under another entry's key |
| RuleFacts.NullDefaultMakesNullable | _tools/schema_gen.py:80-81 | a `default` of `null` leaves the enclosing dict with `nullable: true` |
| RuleFacts.DuplicatesAllowAdditional | _tools/schema_gen.py:48-50 | a `properties` dict with two keys of one canonical name leaves the enclosing dict with `additionalProperties: true` |
| RuleFacts.AdditionalOnlyForDuplicates | _tools/schema_gen.py:46-50 | a dict without `additionalProperties` gains it iff one of its `properties` dicts has a duplicate name |
| RuleFacts.ScalarEntryKept | _tools/schema_gen.py:80-89 | a scalar under any key but `value` that no rule overwrites ends as it was (so a `nullable: false` is kept unless a `default: null` beside it sets it) |
| RuleFacts.TrueFlagKept | _tools/schema_gen.py:81 | a `nullable` or `additionalProperties` that is already true stays true |
| RuleFacts.EscapedExampleParsed | _tools/schema_gen.py:84-87 | a bracketed string at `examples.<name>.value` must parse, and is replaced by its parse, which is not walked |
| RuleFacts.ShortValuePathRaises | _tools/schema_gen.py:84 | a scalar under `value` whose item path has fewer than three segments raises (`item_path[-3]`) |
| RuleFacts.DictEntryWalked | _tools/schema_gen.py:41-77 | a dict value under a key no rule overwrote ends as the walk of its fixed form |
| RuleFacts.AdditionalSchemaWalked | _tools/schema_gen.py:41-77 | an `additionalProperties` schema dict is walked and kept when no `properties` beside it has a duplicate name |
| RuleFacts.PropertiesWalkedDeduplicated | _tools/schema_gen.py:43-77 | a `properties` dict ends as the walk of its deduplicated form, so deleted entries are never visited |
| RuleFacts.VoteFixed | _tools/schema_gen.py:55-58 | a `vote_average` or `rating` dict without a type or typed `integer` ends with `type: number` and `nullable: true` |
| RuleFacts.NonNullFixed | _tools/schema_gen.py:61-65 | an `…_path`, `iso_639_1` or `adult` dict ends nullable, and typed `string` if it had no type |
| RuleFacts.MissingSchemaAdded | _tools/schema_gen.py:68-77 | an `application/json` dict with examples and no schema ends as the walk of the dict its missing-schema fix makes (the input plus `schema` set to the schema inferred from the example), and ends with a `schema` key |
| RuleFacts.MissingExampleRaises | _tools/schema_gen.py:69 | when `examples.Result.value` cannot be reached, the whole walk raises |
| RuleFacts.PrepareMissingExample | _tools/schema_gen.py:68-69 | the `elif` chain reaches the schema fix, which raises on a missing example |

## Left out

- The `__main__` block (argument parsing, the download, the link search, writing the file) is I/O and is not modelled.
- `json.loads` is a parameter; its behaviour is not modelled. The methods assume it returns dicts with distinct keys, as Python dicts always have.
- Console output is a list of (fix kind, path) records. The message text is not modelled. Lines printed before an exception are not kept: an error result carries no log.
- Floats are opaque tokens, since the pass never computes with them.
- The Go client files and `generate.go` are not part of this model.
- `Walk.CleanSchemaTree`: the tree is a value rather than shared mutable dicts. Mutation in place is modelled by returning the repaired tree, and the one aliasing effect (a detached snapshot value) is modelled by the set of overwritten keys.
- `Walk.CleanSchemaTree` and the other walk methods require every dict of the input, and every parse, to have distinct keys. The specification functions and lemmas do not need this, except where they say so.
- The root call requires a dict or a list, as the source's type annotation says.
