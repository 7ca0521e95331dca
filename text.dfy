/** The string operations the clean-up pass relies on: prefix and suffix
    tests, `str.strip("_")`, Python's code-point ordering of strings, the
    descending `sorted` of a dict's keys, and `str(i)` for list indices. */
module Text {

  /** `s.startswith(p)` */
  predicate StartsWith(s: string, p: string) {
    |p| <= |s| && s[..|p|] == p
  }

  /** `s.endswith(p)` */
  predicate EndsWith(s: string, p: string) {
    |p| <= |s| && s[|s| - |p|..] == p
  }

  /** The end of the run of underscores in `s` starting at `i`. */
  function LeadEnd(s: string, i: nat): (a: nat)
    requires i <= |s|
    ensures i <= a <= |s|
    ensures forall j :: i <= j < a ==> s[j] == '_'
    ensures a == |s| || s[a] != '_'
    decreases |s| - i
  {
    if i < |s| && s[i] == '_' then LeadEnd(s, i + 1) else i
  }

  /** The start of the run of underscores in `s` ending at `e`, not before `a`. */
  function TrailStart(s: string, a: nat, e: nat): (b: nat)
    requires a <= e <= |s|
    ensures a <= b <= e
    ensures forall j :: b <= j < e ==> s[j] == '_'
    ensures b == a || s[b - 1] != '_'
  {
    if e > a && s[e - 1] == '_' then TrailStart(s, a, e - 1) else e
  }

  /** `s.strip("_")`: the canonical property name. What remains is a slice
      of `s` that neither starts nor ends with `_`, and everything cut off
      on either side is `_`; these facts determine the result. */
  function Strip(s: string): (r: string)
    ensures |r| <= |s|
    ensures r == [] || (r[0] != '_' && r[|r| - 1] != '_')
    ensures exists a :: CutFrom(s, a, r)
  {
    var a := LeadEnd(s, 0);
    var b := TrailStart(s, a, |s|);
    var r := s[a..b];
    assert CutFrom(s, a, r);
    r
  }

  /** `r` stands in `s` at index `a`, with only underscores on either side. */
  predicate CutFrom(s: string, a: int, r: string) {
    && 0 <= a <= |s| - |r| && s[a..a + |r|] == r
    && (forall i :: 0 <= i < a ==> s[i] == '_')
    && (forall i :: a + |r| <= i < |s| ==> s[i] == '_')
  }

  /** Python's `a < b` on `str`: lexicographic by code point, a proper prefix
      being smaller. */
  predicate LexLess(a: string, b: string) {
    if |a| == 0 then |b| > 0
    else if |b| == 0 then false
    else if a[0] != b[0] then a[0] < b[0]
    else LexLess(a[1..], b[1..])
  }

  lemma {:induction false} LexLessAsymmetric(a: string, b: string)
    ensures !(LexLess(a, b) && LexLess(b, a))
  {
    if |a| > 0 && |b| > 0 && a[0] == b[0] {
      LexLessAsymmetric(a[1..], b[1..]);
    }
  }

  lemma {:induction false} LexLessTransitive(a: string, b: string, c: string)
    requires LexLess(a, b) && LexLess(b, c)
    ensures LexLess(a, c)
  {
    if |a| > 0 && a[0] == b[0] && b[0] == c[0] {
      LexLessTransitive(a[1..], b[1..], c[1..]);
    }
  }

  lemma {:induction false} LexLessTotal(a: string, b: string)
    ensures a == b || LexLess(a, b) || LexLess(b, a)
  {
    if |a| > 0 && |b| > 0 && a[0] == b[0] {
      LexLessTotal(a[1..], b[1..]);
      if a[1..] == b[1..] {
        assert a == [a[0]] + a[1..] && b == [b[0]] + b[1..];
      }
    }
  }

  /** No element is smaller than one standing before it. */
  predicate Descending(s: seq<string>) {
    forall i, j :: 0 <= i < j < |s| ==> !LexLess(s[i], s[j])
  }

  /** Inserts `x` into a descending sequence, before the first element not greater than it. */
  function InsertDescending(x: string, s: seq<string>): (r: seq<string>)
    requires Descending(s)
    ensures multiset(r) == multiset(s) + multiset{x}
    ensures Descending(r)
  {
    if s == [] then [x]
    else if !LexLess(x, s[0]) then
      forall j | 0 <= j < |s| ensures !LexLess(x, s[j]) {
        LexLessTotal(x, s[0]);
        if j > 0 {
          LexLessTotal(s[0], s[j]);
          if LexLess(x, s[j]) {
            if LexLess(s[j], s[0]) {
              LexLessTransitive(x, s[j], s[0]);
            }
          }
        }
      }
      [x] + s
    else
      var t := InsertDescending(x, s[1..]);
      assert multiset(s) == multiset{s[0]} + multiset(s[1..]) by {
        assert s == [s[0]] + s[1..];
      }
      forall j | 0 <= j < |t| ensures !LexLess(s[0], t[j]) {
        assert t[j] in multiset(t);
        if t[j] == x {
          LexLessAsymmetric(x, s[0]);
        } else {
          assert t[j] in multiset(s[1..]);
          var m :| 0 <= m < |s[1..]| && s[1..][m] == t[j];
          assert s[m + 1] == t[j];
        }
      }
      [s[0]] + t
  }

  /** `sorted(keys, reverse=True)`: the same strings, greatest first. */
  function SortDescending(s: seq<string>): (r: seq<string>)
    ensures multiset(r) == multiset(s)
    ensures Descending(r)
  {
    if s == [] then []
    else
      assert s == [s[0]] + s[1..];
      InsertDescending(s[0], SortDescending(s[1..]))
  }

  /** In a descending sequence without repeats, each element is strictly
      smaller than every element before it. */
  lemma StrictlyDescending(s: seq<string>, i: int, j: int)
    requires Descending(s) && 0 <= i < j < |s| && s[i] != s[j]
    ensures LexLess(s[j], s[i])
  {
    LexLessTotal(s[i], s[j]);
  }

  function Digit(d: int): (c: char)
    requires 0 <= d < 10
    ensures '0' <= c <= '9' && c as int - '0' as int == d
  {
    ('0' as int + d) as char
  }

  /** The number a string of decimal digits denotes. */
  function DecimalValue(s: string): nat
    requires forall i :: 0 <= i < |s| ==> '0' <= s[i] <= '9'
  {
    if s == [] then 0
    else DecimalValue(s[..|s| - 1]) * 10 + (s[|s| - 1] as int - '0' as int)
  }

  /** `str(n)` for a list index: a non-empty string of decimal digits that
      denotes `n`, with no leading zero. */
  function NatToString(n: nat): (r: string)
    ensures r != []
    ensures forall i :: 0 <= i < |r| ==> '0' <= r[i] <= '9'
    ensures DecimalValue(r) == n
    ensures |r| > 1 ==> r[0] != '0'
    ensures n > 0 ==> r[0] != '0'
  {
    if n < 10 then [Digit(n)]
    else
      var r := NatToString(n / 10) + [Digit(n % 10)];
      assert r[..|r| - 1] == NatToString(n / 10);
      r
  }
}
