/**
 * The few JavaScript string operations the front end relies on:
 * `trim`, `toUpperCase`, `startsWith`, `endsWith` and `replace` with a
 * string pattern. Strings are sequences of Unicode characters, modelled as
 * `seq<char>`; UTF-16 surrogate pairs are not modelled.
 */
module JsText {

  /** The WhiteSpace and LineTerminator code points that `trim` removes. */
  predicate IsJsSpace(c: char) {
    || c == ' ' || c == '\t' || c == '\n' || c == '\r'
    || c == '\U{0B}' || c == '\U{0C}' || c == '\U{A0}' || c == '\U{FEFF}'
    || c == '\U{1680}' || ('\U{2000}' <= c <= '\U{200A}')
    || c == '\U{2028}' || c == '\U{2029}' || c == '\U{202F}' || c == '\U{205F}'
    || c == '\U{3000}'
  }

  ghost predicate AllSpace(s: string) {
    forall i :: 0 <= i < |s| ==> IsJsSpace(s[i])
  }

  /** Number of leading white-space characters of `s`. */
  function LeadingSpace(s: string): (k: nat)
    ensures k <= |s|
    ensures AllSpace(s[..k])
    ensures k < |s| ==> !IsJsSpace(s[k])
  {
    if s == [] || !IsJsSpace(s[0]) then 0
    else
      var k := 1 + LeadingSpace(s[1..]);
      assert s[..k] == [s[0]] + s[1..][..k - 1];
      k
  }

  /** Number of trailing white-space characters of `s`. */
  function TrailingSpace(s: string): (k: nat)
    ensures k <= |s|
    ensures AllSpace(s[|s| - k..])
    ensures k < |s| ==> !IsJsSpace(s[|s| - 1 - k])
  {
    if s == [] || !IsJsSpace(s[|s| - 1]) then 0
    else
      var k := 1 + TrailingSpace(s[..|s| - 1]);
      SpaceSnoc(s, k);
      k
  }

  /** One more white-space character after a white-space tail gives a longer white-space tail. */
  lemma SpaceSnoc(s: string, k: nat)
    requires 0 < k <= |s| && IsJsSpace(s[|s| - 1])
    requires AllSpace(s[..|s| - 1][|s| - k..])
    ensures AllSpace(s[|s| - k..])
    ensures k < |s| ==> s[|s| - 1 - k] == s[..|s| - 1][|s| - 1 - k]
  {
    var t := s[..|s| - 1];
    forall i | |s| - k <= i < |s|
      ensures IsJsSpace(s[i])
    {
      if i < |s| - 1 {
        assert s[i] == t[|s| - k..][i - (|s| - k)];
      }
    }
  }

  /** `r` is `s` with a run of white space removed from each end. */
  ghost predicate Trimmed(s: string, r: string) {
    exists a :: 0 <= a <= |s| - |r| && r == s[a..a + |r|] && AllSpace(s[..a]) && AllSpace(s[a + |r|..])
  }

  /** `String.prototype.trim`: the slice of `s` between its leading and trailing white space. */
  function Trim(s: string): (r: string)
    ensures |r| <= |s|
  {
    var a := LeadingSpace(s);
    var rest := s[a..];
    var b := TrailingSpace(rest);
    rest[..|rest| - b]
  }

  /** The trim has no white space at either end, and only white space was cut from `s`. */
  lemma TrimSpec(s: string)
    ensures var r := Trim(s);
      (r != [] ==> !IsJsSpace(r[0]) && !IsJsSpace(r[|r| - 1])) && Trimmed(s, r)
  {
    var a := LeadingSpace(s);
    var rest := s[a..];
    var b := TrailingSpace(rest);
    var r := rest[..|rest| - b];
    assert Trim(s) == r;
    assert r == s[a..a + |r|];
    assert rest[|rest| - b..] == s[a + |r|..];
    assert AllSpace(s[..a]) && AllSpace(s[a + |r|..]);
    assert Trimmed(s, r);
    if r != [] {
      assert r[0] == s[a] && r[|r| - 1] == rest[|rest| - 1 - b];
    }
  }

  /** A string with no white space at either end is its own trim. */
  lemma TrimOfTrimmed(s: string)
    requires s != [] ==> !IsJsSpace(s[0]) && !IsJsSpace(s[|s| - 1])
    ensures Trim(s) == s
  {
  }

  /** Trimming removes white space around a trimmed core, whatever surrounds it. */
  lemma {:induction false} TrimPadded(pre: string, s: string, post: string)
    requires AllSpace(pre) && AllSpace(post)
    requires s != [] && !IsJsSpace(s[0]) && !IsJsSpace(s[|s| - 1])
    ensures Trim(pre + s + post) == s
  {
    var t := pre + s + post;
    LeadingOfPadded(pre, s + post);
    assert (pre + (s + post)) == t;
    assert t[|pre|..] == s + post;
    TrailingOfPadded(s, post);
  }

  lemma {:induction false} LeadingOfPadded(pre: string, s: string)
    requires AllSpace(pre)
    requires s != [] && !IsJsSpace(s[0])
    ensures LeadingSpace(pre + s) == |pre|
  {
    if pre != [] {
      assert (pre + s)[1..] == pre[1..] + s;
      LeadingOfPadded(pre[1..], s);
    }
  }

  lemma {:induction false} TrailingOfPadded(s: string, post: string)
    requires AllSpace(post)
    requires s != [] && !IsJsSpace(s[|s| - 1])
    ensures TrailingSpace(s + post) == |post|
  {
    if post != [] {
      var t := s + post;
      assert t[..|t| - 1] == s + post[..|post| - 1];
      TrailingOfPadded(s, post[..|post| - 1]);
    }
  }

  function UpperChar(c: char): char {
    if 'a' <= c <= 'z' then (c as int - 'a' as int + 'A' as int) as char else c
  }

  /** `String.prototype.toUpperCase`, for the ASCII letters. */
  function ToUpper(s: string): (r: string)
    ensures |r| == |s|
    ensures forall i :: 0 <= i < |s| ==> r[i] == UpperChar(s[i])
  {
    seq(|s|, i requires 0 <= i < |s| => UpperChar(s[i]))
  }

  /** Upper-casing keeps white space and everything else that is not a lower-case letter. */
  lemma UpperKeepsSpace(c: char)
    ensures IsJsSpace(UpperChar(c)) <==> IsJsSpace(c)
  {
  }

  lemma {:induction false} LeadingOfUpper(s: string)
    ensures LeadingSpace(ToUpper(s)) == LeadingSpace(s)
    decreases |s|
  {
    if s != [] {
      UpperKeepsSpace(s[0]);
      assert ToUpper(s)[1..] == ToUpper(s[1..]);
      LeadingOfUpper(s[1..]);
    }
  }

  lemma {:induction false} TrailingOfUpper(s: string)
    ensures TrailingSpace(ToUpper(s)) == TrailingSpace(s)
    decreases |s|
  {
    if s != [] {
      UpperKeepsSpace(s[|s| - 1]);
      assert ToUpper(s)[..|s| - 1] == ToUpper(s[..|s| - 1]);
      TrailingOfUpper(s[..|s| - 1]);
    }
  }

  /** Trimming and upper-casing commute. */
  lemma {:induction false} TrimOfUpper(s: string)
    ensures Trim(ToUpper(s)) == ToUpper(Trim(s))
  {
    var u := ToUpper(s);
    LeadingOfUpper(s);
    var a := LeadingSpace(s);
    var rest := s[a..];
    UpperDrop(s, a);
    TrailingOfUpper(rest);
    var b := TrailingSpace(rest);
    UpperTake(rest, |rest| - b);
    assert Trim(u) == ToUpper(rest)[..|rest| - b];
  }

  /** Upper-casing a suffix is taking the suffix of the upper-cased string. */
  lemma UpperDrop(s: string, a: nat)
    requires a <= |s|
    ensures ToUpper(s)[a..] == ToUpper(s[a..])
  {
  }

  /** Upper-casing a prefix is taking the prefix of the upper-cased string. */
  lemma UpperTake(s: string, n: nat)
    requires n <= |s|
    ensures ToUpper(s)[..n] == ToUpper(s[..n])
  {
  }

  lemma UpperIdempotent(s: string)
    ensures ToUpper(ToUpper(s)) == ToUpper(s)
  {
  }

  predicate StartsWith(s: string, prefix: string) {
    |prefix| <= |s| && s[..|prefix|] == prefix
  }

  predicate EndsWith(s: string, suffix: string) {
    |suffix| <= |s| && s[|s| - |suffix|..] == suffix
  }

  predicate OccursAt(s: string, pat: string, j: nat) {
    j + |pat| <= |s| && s[j..j + |pat|] == pat
  }

  /** `s.indexOf(pat, from)`: the first position at or after `from` where `pat` occurs, or -1. */
  function IndexOf(s: string, pat: string, from: nat): (k: int)
    requires from <= |s|
    ensures k == -1 || (from <= k && OccursAt(s, pat, k))
    ensures forall j: nat :: from <= j && (k == -1 || j < k) ==> !OccursAt(s, pat, j)
    decreases |s| - from
  {
    if from + |pat| > |s| then -1
    else if OccursAt(s, pat, from) then from
    else IndexOf(s, pat, from + 1)
  }

  /** `s.replace(pat, rep)` with a string pattern: only the first occurrence is replaced. */
  function ReplaceFirst(s: string, pat: string, rep: string): (r: string)
    ensures IndexOf(s, pat, 0) == -1 ==> r == s
  {
    var k := IndexOf(s, pat, 0);
    if k == -1 then s else s[..k] + rep + s[k + |pat|..]
  }

  /** For a string that starts with the pattern, removing the first occurrence drops that prefix. */
  lemma ReplacePrefix(s: string, pat: string)
    requires StartsWith(s, pat)
    ensures ReplaceFirst(s, pat, "") == s[|pat|..]
  {
    assert s[0..|pat|] == pat;
  }
}
