/**
 * The small pieces of Python's string library the application relies on:
 * `os.path.basename`, `in` on strings, `str.strip`, `str.lower`, `str(int)`,
 * the ordering of `str` and `sorted` on a set of strings.
 */
module Strings {

  // ---------------------------------------------------------------------------
  // os.path.basename (POSIX)
  // ---------------------------------------------------------------------------

  /** The text after the last '/' of `p` (all of `p` when it has none). */
  function Basename(p: string): (b: string)
    ensures '/' !in b
    ensures |b| <= |p| && b == p[|p| - |b|..]
    ensures |b| < |p| ==> p[|p| - |b| - 1] == '/'
    decreases |p|
  {
    if p == [] || p[|p| - 1] == '/' then []
    else
      var q := p[..|p| - 1];
      assert p == q + [p[|p| - 1]];
      Basename(q) + [p[|p| - 1]]
  }

  /** Appending text without a '/' to a path extends its basename by that text. */
  lemma {:induction false} BasenameAppend(p: string, s: string)
    requires '/' !in s
    ensures Basename(p + s) == Basename(p) + s
    decreases |s|
  {
    if s != [] {
      var s' := s[..|s| - 1];
      assert p + s == (p + s') + [s[|s| - 1]];
      BasenameAppend(p, s');
      assert Basename(p) + s == (Basename(p) + s') + [s[|s| - 1]];
    } else {
      assert p + s == p;
    }
  }

  // ---------------------------------------------------------------------------
  // Substrings
  // ---------------------------------------------------------------------------

  /** `f` occurs in `s` as a contiguous run (Python's `f in s`). */
  predicate Contains(s: string, f: string)
    decreases |s|
  {
    f <= s || (s != [] && Contains(s[1..], f))
  }

  /** An occurrence in a suffix of `s` is an occurrence in `s`. */
  lemma {:induction false} ContainsInSuffix(s: string, k: nat, f: string)
    requires k <= |s| && Contains(s[k..], f)
    ensures Contains(s, f)
    decreases k
  {
    if k > 0 {
      assert s[1..][k - 1..] == s[k..];
      ContainsInSuffix(s[1..], k - 1, f);
    }
  }

  /** Whatever the basename of a path contains, the path contains. */
  lemma BasenameContains(p: string, f: string)
    requires Contains(Basename(p), f)
    ensures Contains(p, f)
  {
    var b := Basename(p);
    ContainsInSuffix(p, |p| - |b|, f);
  }

  // ---------------------------------------------------------------------------
  // str.strip()
  // ---------------------------------------------------------------------------

  /** Python's `str.isspace` for one character. */
  predicate IsSpace(c: char) {
    ('\t' <= c <= '\r') || ('\U{1C}' <= c <= ' ') || c == '\U{85}' || c == '\U{A0}'
    || c == '\U{1680}' || ('\U{2000}' <= c <= '\U{200A}') || c == '\U{2028}' || c == '\U{2029}'
    || c == '\U{202F}' || c == '\U{205F}' || c == '\U{3000}'
  }

  predicate AllSpace(s: string) {
    forall k :: 0 <= k < |s| ==> IsSpace(s[k])
  }

  /** `s` without its leading whitespace. */
  function StripLeft(s: string): (r: string)
    ensures |r| <= |s| && r == s[|s| - |r|..]
    ensures AllSpace(s[..|s| - |r|])
    ensures r == [] || !IsSpace(r[0])
    decreases |s|
  {
    if s != [] && IsSpace(s[0]) then StripLeft(s[1..]) else s
  }

  /** `s` without its trailing whitespace. */
  function StripRight(s: string): (r: string)
    ensures |r| <= |s| && r == s[..|r|]
    ensures AllSpace(s[|r|..])
    ensures r == [] || !IsSpace(r[|r| - 1])
    decreases |s|
  {
    if s != [] && IsSpace(s[|s| - 1]) then
      var t := s[..|s| - 1];
      var r := StripRight(t);
      assert s[|r|..] == t[|r|..] + [s[|s| - 1]];
      r
    else s
  }

  /** Python's `s.strip()`: `s` without leading and trailing whitespace. */
  function Strip(s: string): string {
    StripRight(StripLeft(s))
  }

  /**
   * `Strip(s)` is the run of `s` between a whitespace prefix and a whitespace
   * suffix, and starts and ends with a non-space character.
   */
  lemma StripIsTrimmedInfix(s: string)
    ensures var r := Strip(s);
      exists i :: 0 <= i <= |s| - |r| && r == s[i..i + |r|]
        && AllSpace(s[..i]) && AllSpace(s[i + |r|..])
    ensures var r := Strip(s);
      r == [] || (!IsSpace(r[0]) && !IsSpace(r[|r| - 1]))
  {
    StripAt(s, |s| - |StripLeft(s)|);
    StripEnds(s);
  }

  /** The trimmed run of `s` starts where the leading whitespace ends. */
  lemma StripAt(s: string, i: int)
    requires i == |s| - |StripLeft(s)|
    ensures var r := Strip(s);
      0 <= i <= |s| - |r| && r == s[i..i + |r|] && AllSpace(s[..i]) && AllSpace(s[i + |r|..])
  {
    var l := StripLeft(s);
    var r := StripRight(l);
    assert Strip(s) == r && l == s[i..];
    SliceOfSuffix(s, i, |r|);
  }

  /** Slicing a suffix of `s` is slicing `s` further along. */
  lemma SliceOfSuffix(s: string, i: nat, n: nat)
    requires i + n <= |s|
    ensures s[i..][..n] == s[i..i + n] && s[i..][n..] == s[i + n..]
  {
  }

  lemma StripEnds(s: string)
    ensures var r := Strip(s);
      r == [] || (!IsSpace(r[0]) && !IsSpace(r[|r| - 1]))
  {
    var l := StripLeft(s);
    var r := StripRight(l);
    if r != [] {
      assert r[0] == l[0] && !IsSpace(l[0]);
    }
  }

  /** `s.strip()` is falsy exactly when `s` is all whitespace. */
  lemma {:induction false} StripEmptyIff(s: string)
    ensures Strip(s) == [] <==> AllSpace(s)
  {
    var l := StripLeft(s);
    var i := |s| - |l|;
    if l == [] {
      assert s == s[..i];
    } else {
      var r := StripRight(l);
      assert !IsSpace(l[0]) && s[i] == l[0];
      assert l[0..] == l;
      assert r != [];
    }
  }

  // ---------------------------------------------------------------------------
  // str.lower()
  // ---------------------------------------------------------------------------

  function LowerChar(c: char): char {
    if 'A' <= c <= 'Z' then (c as int + 32) as char else c
  }

  /** `s.lower()` for the ASCII letters; every other character is kept. */
  function Lower(s: string): (r: string)
    ensures |r| == |s|
    ensures forall k :: 0 <= k < |s| ==> r[k] == LowerChar(s[k])
  {
    if s == [] then [] else [LowerChar(s[0])] + Lower(s[1..])
  }

  /** Lowering commutes with taking a suffix. */
  lemma LowerSuffix(s: string, k: nat)
    requires k <= |s|
    ensures Lower(s[k..]) == Lower(s)[k..]
  {
  }

  // ---------------------------------------------------------------------------
  // str(n) for a natural number
  // ---------------------------------------------------------------------------

  function DigitChar(d: nat): char
    requires d < 10
  {
    ('0' as int + d) as char
  }

  /** Decimal rendering of `n` without leading zeros (Python's `str(n)`). */
  function NatToString(n: nat): (s: string)
    ensures 1 <= |s|
    ensures n < 10 <==> |s| == 1
    ensures s[|s| - 1] == DigitChar(n % 10)
    decreases n
  {
    if n < 10 then [DigitChar(n)] else NatToString(n / 10) + [DigitChar(n % 10)]
  }

  /** Different numbers have different decimal renderings. */
  lemma {:induction false} NatToStringDistinct(a: nat, b: nat)
    requires a != b
    ensures NatToString(a) != NatToString(b)
    decreases a
  {
    var sa, sb := NatToString(a), NatToString(b);
    if a % 10 != b % 10 {
      assert sa[|sa| - 1] != sb[|sb| - 1];
    } else if a < 10 || b < 10 {
      assert |sa| != |sb|;
    } else {
      NatToStringDistinct(a / 10, b / 10);
      assert sa[..|sa| - 1] == NatToString(a / 10);
      assert sb[..|sb| - 1] == NatToString(b / 10);
    }
  }

  // ---------------------------------------------------------------------------
  // Ordering of str, and sorted()
  // ---------------------------------------------------------------------------

  /** Python's `a < b` on `str`: lexicographic by code point, a proper prefix first. */
  predicate Less(a: string, b: string)
    decreases |a|
  {
    if a == [] then b != []
    else if b == [] then false
    else if a[0] != b[0] then a[0] < b[0]
    else Less(a[1..], b[1..])
  }

  lemma {:induction false} LessIrreflexive(a: string)
    ensures !Less(a, a)
    decreases |a|
  {
    if a != [] {
      LessIrreflexive(a[1..]);
    }
  }

  lemma {:induction false} LessTransitive(a: string, b: string, c: string)
    requires Less(a, b) && Less(b, c)
    ensures Less(a, c)
    decreases |a|
  {
    if a != [] && a[0] == b[0] && b[0] == c[0] {
      LessTransitive(a[1..], b[1..], c[1..]);
    }
  }

  lemma {:induction false} LessTotal(a: string, b: string)
    requires a != b
    ensures Less(a, b) || Less(b, a)
    decreases |a|
  {
    if a != [] && b != [] && a[0] == b[0] {
      assert a == [a[0]] + a[1..] && b == [b[0]] + b[1..];
      LessTotal(a[1..], b[1..]);
    }
  }

  predicate StrictlySorted(s: seq<string>) {
    forall i, j :: 0 <= i < j < |s| ==> Less(s[i], s[j])
  }

  /** Insert `x` into a strictly sorted sequence at its place. */
  function Insert(r: seq<string>, x: string): seq<string> {
    if r == [] then [x]
    else if Less(x, r[0]) then [x] + r
    else [r[0]] + Insert(r[1..], x)
  }

  lemma {:induction false} InsertSorted(r: seq<string>, x: string)
    requires StrictlySorted(r) && x !in r
    ensures StrictlySorted(Insert(r, x))
    ensures forall y :: y in Insert(r, x) <==> y in r || y == x
    ensures |Insert(r, x)| == |r| + 1
  {
    if r == [] {
    } else if Less(x, r[0]) {
      forall j | 0 < j < |r| ensures Less(x, r[j]) {
        LessTransitive(x, r[0], r[j]);
      }
    } else {
      LessTotal(x, r[0]);
      assert StrictlySorted(r[1..]);
      InsertSorted(r[1..], x);
      var t := Insert(r[1..], x);
      assert forall y :: y in t ==> Less(r[0], y);
      assert r == [r[0]] + r[1..];
    }
  }

  /**
   * Python's `sorted(list(s))` on a set of strings: the elements of `s` in
   * strictly increasing order.
   */
  method SortedList(s: set<string>) returns (r: seq<string>)
    ensures StrictlySorted(r)
    ensures forall y :: y in r <==> y in s
    ensures |r| == |s|
  {
    r := [];
    var rest := s;
    while rest != {}
      invariant StrictlySorted(r)
      invariant forall y :: y in r ==> y in s && y !in rest
      invariant forall y :: y in s ==> y in r || y in rest
      invariant rest <= s
      invariant |r| + |rest| == |s|
      decreases rest
    {
      var x :| x in rest;
      InsertSorted(r, x);
      r := Insert(r, x);
      rest := rest - {x};
    }
  }
}
