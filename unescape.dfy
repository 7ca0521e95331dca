/** `unescape_json`: drop a stray two-character `{}` or `[]` prefix and parse. */
module Unescape {
  import opened Json
  import opened Text

  /** The malformed-value test: longer than two characters and starting with
      `{}` or `[]`. */
  predicate HasMalformedPrefix(v: string) {
    |v| > 2 && (StartsWith(v, "{}") || StartsWith(v, "[]"))
  }

  /** The text handed to the parser: `v[2:]` for a malformed value, `v`
      itself otherwise. */
  function UnescapedText(v: string): (t: string)
    ensures t != v <==> HasMalformedPrefix(v)
    ensures HasMalformedPrefix(v) ==> v == v[..2] + t && t != []
  {
    if HasMalformedPrefix(v) then v[2..] else v
  }

  /** The parsed value and the diagnostics printed: a malformed value is
      reported only when a path is given. A parser rejection is an error. */
  function UnescapeJson(parse: Parser, v: string, path: seq<string>): (r: Result<(Node, seq<Diag>)>)
    ensures r.Ok? <==> parse(UnescapedText(v)).Some?
    ensures r.Err? ==> r.error == DecodeError
    ensures r.Ok? ==> r.value.0 == parse(UnescapedText(v)).value
    ensures r.Ok? ==> (|r.value.1| <= 1
      && (r.value.1 != [] <==> HasMalformedPrefix(v) && path != [])
      && forall d :: d in r.value.1 ==> d == Diag(MalformedJson, path))
  {
    var log := if HasMalformedPrefix(v) && path != [] then [Diag(MalformedJson, path)] else [];
    match parse(UnescapedText(v))
    case Some(x) => Ok((x, log))
    case None => Err(DecodeError)
  }

  /** Only one prefix is ever removed. */
  lemma OnePrefixOnly(rest: string)
    requires |rest| > 0
    ensures UnescapedText("{}" + rest) == rest
    ensures UnescapedText("[]" + rest) == rest
  {
    assert ("{}" + rest)[..2] == "{}";
    assert ("[]" + rest)[..2] == "[]";
    assert ("{}" + rest)[2..] == rest;
    assert ("[]" + rest)[2..] == rest;
  }
}
