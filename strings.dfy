/** The string operations of JavaScript that the application relies on. */
module Strings {

  /** The characters `String.prototype.trim` removes and the regular-expression class `\s` matches:
      WhiteSpace and LineTerminator of ECMAScript. */
  predicate IsSpace(c: char) {
    c == '\t' || c == '\n' || c == '\U{B}' || c == '\U{C}' || c == '\r' || c == ' '
    || c == '\U{A0}' || c == '\U{1680}' || ('\U{2000}' <= c <= '\U{200A}')
    || c == '\U{2028}' || c == '\U{2029}' || c == '\U{202F}' || c == '\U{205F}'
    || c == '\U{3000}' || c == '\U{FEFF}'
  }

  predicate AllSpace(s: string) {
    forall i :: 0 <= i < |s| ==> IsSpace(s[i])
  }

  /** Number of whitespace characters at the start of `s`. */
  function LeadingSpaces(s: string): (n: nat)
    ensures n <= |s|
    ensures forall i :: 0 <= i < n ==> IsSpace(s[i])
    ensures n < |s| ==> !IsSpace(s[n])
  {
    if |s| > 0 && IsSpace(s[0]) then 1 + LeadingSpaces(s[1..]) else 0
  }

  /** Number of whitespace characters at the end of `s`. */
  function TrailingSpaces(s: string): (n: nat)
    ensures n <= |s|
    ensures forall i :: |s| - n <= i < |s| ==> IsSpace(s[i])
    ensures n < |s| ==> !IsSpace(s[|s| - n - 1])
  {
    if |s| > 0 && IsSpace(s[|s| - 1]) then 1 + TrailingSpaces(s[..|s| - 1]) else 0
  }

  /** `s.trimStart()` */
  function TrimStart(s: string): (r: string)
    ensures r == "" <==> AllSpace(s)
    ensures r != "" ==> !IsSpace(r[0])
  {
    assert AllSpace(s) ==> LeadingSpaces(s) == |s|;
    s[LeadingSpaces(s)..]
  }

  /** `s.trimEnd()` */
  function TrimEnd(s: string): (r: string)
    ensures r == "" <==> AllSpace(s)
    ensures r != "" ==> !IsSpace(r[|r| - 1])
    ensures |r| <= |s| && r == s[..|r|]
  {
    assert AllSpace(s) ==> TrailingSpaces(s) == |s|;
    s[..|s| - TrailingSpaces(s)]
  }

  /** `s.trim()` */
  function Trim(s: string): (r: string)
    ensures r == "" <==> AllSpace(s)
    ensures r != "" ==> !IsSpace(r[0]) && !IsSpace(r[|r| - 1])
    ensures |r| <= |s|
  {
    TrimEnd(TrimStart(s))
  }

  /** What `trim` keeps is a contiguous piece of the original. */
  lemma TrimIsSlice(s: string)
    ensures LeadingSpaces(s) + |Trim(s)| <= |s|
    ensures Trim(s) == s[LeadingSpaces(s)..LeadingSpaces(s) + |Trim(s)|]
  {
    var t := TrimStart(s);
    assert Trim(s) == t[..|Trim(s)|];
  }

  lemma TrimOfTrimmed(s: string)
    requires s == "" || (!IsSpace(s[0]) && !IsSpace(s[|s| - 1]))
    ensures Trim(s) == s
  {
  }

  lemma LeadingSpacesOfPadded(pre: string, s: string)
    requires AllSpace(pre)
    ensures LeadingSpaces(pre + s) == |pre| + LeadingSpaces(s)
  {
    if |pre| > 0 {
      assert (pre + s)[1..] == pre[1..] + s;
      LeadingSpacesOfPadded(pre[1..], s);
    } else {
      assert pre + s == s;
    }
  }

  lemma TrailingSpacesOfPadded(s: string, post: string)
    requires AllSpace(post)
    ensures TrailingSpaces(s + post) == TrailingSpaces(s) + |post|
  {
    if |post| > 0 {
      assert (s + post)[..|s + post| - 1] == s + post[..|post| - 1];
      TrailingSpacesOfPadded(s, post[..|post| - 1]);
    } else {
      assert s + post == s;
    }
  }

  /** `s.trim()` removes only surrounding whitespace. */
  lemma TrimIgnoresSurroundingSpace(pre: string, s: string, post: string)
    requires AllSpace(pre) && AllSpace(post)
    ensures Trim(pre + s + post) == Trim(s)
  {
    var t := pre + s + post;
    if AllSpace(s) {
      assert AllSpace(t);
    } else {
      assert t == pre + (s + post);
      LeadingSpacesOfPadded(pre, s + post);
      var lead := LeadingSpaces(s);
      LeadingSpacesStop(s + post, lead);
      assert TrimStart(t) == TrimStart(s) + post by {
        assert t[|pre| + lead..] == s[lead..] + post;
      }
      TrimEndIgnoresTrailingSpace(TrimStart(s), post);
    }
  }

  lemma TrimEndIgnoresTrailingSpace(s: string, post: string)
    requires AllSpace(post)
    ensures TrimEnd(s + post) == TrimEnd(s)
  {
    TrailingSpacesOfPadded(s, post);
    var n := |s| - TrailingSpaces(s);
    assert (s + post)[..n] == s[..n];
  }

  lemma LeadingSpacesStop(s: string, n: nat)
    requires n < |s| && !IsSpace(s[n])
    requires forall i :: 0 <= i < n ==> IsSpace(s[i])
    ensures LeadingSpaces(s) == n
  {
    if n > 0 {
      LeadingSpacesStop(s[1..], n - 1);
    }
  }

  /** ASCII letters fold to lower case; no other character changes. */
  function LowerChar(c: char): (d: char)
    ensures d == '<' <==> c == '<'
    ensures ('a' <= d <= 'z') ==> ('a' <= c <= 'z' || 'A' <= c <= 'Z')
  {
    if 'A' <= c <= 'Z' then (c as int + 32) as char else c
  }

  /** `s.toLowerCase()` restricted to ASCII letters. */
  function Lower(s: string): (r: string)
    ensures |r| == |s|
    ensures forall i :: 0 <= i < |s| ==> r[i] == LowerChar(s[i])
  {
    seq(|s|, i requires 0 <= i < |s| => LowerChar(s[i]))
  }

  /** Folding case never turns a space into a non-space or back. */
  lemma LowerKeepsSpaces(s: string)
    ensures forall i :: 0 <= i < |s| ==> (IsSpace(Lower(s)[i]) <==> IsSpace(s[i]))
  {
  }

  /** Folding a slice is slicing the folded string. */
  lemma LowerSlice(s: string, a: nat, b: nat)
    requires a <= b <= |s|
    ensures Lower(s[a..b]) == Lower(s)[a..b]
  {
  }

  /** Folding twice is folding once. */
  lemma LowerIdempotent(s: string)
    ensures Lower(Lower(s)) == Lower(s)
  {
  }

  lemma {:induction false} LeadingSpacesOfLower(s: string)
    ensures LeadingSpaces(Lower(s)) == LeadingSpaces(s)
  {
    if |s| > 0 && IsSpace(s[0]) {
      assert Lower(s)[1..] == Lower(s[1..]);
      LeadingSpacesOfLower(s[1..]);
    }
  }

  lemma {:induction false} TrailingSpacesOfLower(s: string)
    ensures TrailingSpaces(Lower(s)) == TrailingSpaces(s)
  {
    if |s| > 0 && IsSpace(s[|s| - 1]) {
      assert Lower(s)[..|s| - 1] == Lower(s[..|s| - 1]);
      TrailingSpacesOfLower(s[..|s| - 1]);
    }
  }

  /** Trimming and folding case commute. */
  lemma TrimStartOfLower(s: string)
    ensures TrimStart(Lower(s)) == Lower(TrimStart(s))
  {
    LeadingSpacesOfLower(s);
    LowerSlice(s, LeadingSpaces(s), |s|);
  }

  lemma TrimEndOfLower(s: string)
    ensures TrimEnd(Lower(s)) == Lower(TrimEnd(s))
  {
    TrailingSpacesOfLower(s);
    LowerSlice(s, 0, |s| - TrailingSpaces(s));
  }

  /** Trimming and folding case commute. */
  lemma TrimOfLower(s: string)
    ensures Trim(Lower(s)) == Lower(Trim(s))
  {
    TrimStartOfLower(s);
    TrimEndOfLower(TrimStart(s));
  }

  predicate StartsWith(s: string, prefix: string) {
    |prefix| <= |s| && s[..|prefix|] == prefix
  }

  predicate EndsWith(s: string, suffix: string) {
    |suffix| <= |s| && s[|s| - |suffix|..] == suffix
  }

  /** `p` occurs in `s` at position `i`. */
  predicate OccursAt(s: string, i: nat, p: string) {
    i + |p| <= |s| && s[i..i + |p|] == p
  }

  /** `s.includes(p)` */
  predicate Contains(s: string, p: string) {
    exists i | 0 <= i <= |s| - |p| :: OccursAt(s, i, p)
  }

  /** `p` (all lower case) matches `s` at position `i` when ASCII case is ignored:
      what a regular expression with the `i` flag and no `u` flag does for an ASCII pattern. */
  predicate MatchesCIAt(s: string, i: nat, p: string) {
    i + |p| <= |s| && forall k :: 0 <= k < |p| ==> LowerChar(s[i + k]) == p[k]
  }

  lemma MatchesInSuffix(s: string, a: nat, i: nat, p: string)
    requires a <= |s|
    ensures MatchesCIAt(s[a..], i, p) <==> MatchesCIAt(s, a + i, p)
  {
    if a + i + |p| <= |s| {
      forall k | 0 <= k < |p| ensures LowerChar(s[a..][i + k]) == p[k] <==> LowerChar(s[a + i + k]) == p[k] {
      }
    }
  }

  lemma MatchesInConcat(x: string, y: string, i: nat, p: string)
    ensures MatchesCIAt(x + y, |x| + i, p) <==> MatchesCIAt(y, i, p)
  {
    assert (x + y)[|x|..] == y;
    MatchesInSuffix(x + y, |x|, i, p);
  }

  lemma MatchesInPrefix(s: string, b: nat, i: nat, p: string)
    requires i + |p| <= b <= |s|
    ensures MatchesCIAt(s[..b], i, p) <==> MatchesCIAt(s, i, p)
  {
    forall k | 0 <= k < |p| ensures LowerChar(s[..b][i + k]) == p[k] <==> LowerChar(s[i + k]) == p[k] {
    }
  }

  /** `s.startsWith(p)` with ASCII case ignored (a `/^p/i` test). */
  predicate StartsWithCI(s: string, p: string) {
    MatchesCIAt(s, 0, p)
  }
}
