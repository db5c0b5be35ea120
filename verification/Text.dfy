/** ASCII character classes and the few string searches the SQL scanners share. */
module Text {

  predicate IsDigit(c: char) { '0' <= c <= '9' }

  predicate IsWord(c: char) { 'a' <= c <= 'z' || 'A' <= c <= 'Z' || IsDigit(c) || c == '_' }

  /** The white space that JavaScript's `\s` and `trim` recognise within ASCII. */
  predicate IsSpace(c: char) { c == ' ' || ('\t' <= c <= '\r') }

  lemma SpacesAreTold(c: char)
    ensures IsSpace(c) <==> c in {' ', '\t', '\n', '\U{000B}', '\U{000C}', '\r'}
  {
    assert IsSpace(c) <==> c as int in {32, 9, 10, 11, 12, 13};
  }

  function LowerChar(c: char): char {
    if 'A' <= c <= 'Z' then (c as int + 32) as char else c
  }

  /** ASCII lower case; it keeps length, white space and punctuation. */
  function Lower(s: string): (l: string)
    ensures |l| == |s| && forall k :: 0 <= k < |s| ==> l[k] == LowerChar(s[k])
  {
    seq(|s|, k requires 0 <= k < |s| => LowerChar(s[k]))
  }

  predicate NotNewline(c: char) { c != '\n' }

  /** Whether `s` has the character `c` at `i`; false beyond either end. */
  predicate Is(s: string, i: int, c: char) { 0 <= i < |s| && s[i] == c }

  predicate MatchAt(s: string, w: string, k: nat) {
    k + |w| <= |s| && forall x :: 0 <= x < |w| ==> s[k + x] == w[x]
  }

  ghost predicate Occurs(w: string, s: string) {
    exists k: nat :: MatchAt(s, w, k)
  }

  /** The first position at or after `j` whose character is outside the class `p`. */
  function RunEnd(s: string, j: nat, p: char -> bool): (e: nat)
    requires j <= |s|
    ensures j <= e <= |s|
    ensures e < |s| ==> !p(s[e])
    decreases |s| - j
  {
    if j < |s| && p(s[j]) then RunEnd(s, j + 1, p) else j
  }

  lemma {:induction false} RunEndStays(s: string, j: nat, p: char -> bool, k: nat)
    requires j <= |s| && j <= k < RunEnd(s, j, p)
    ensures p(s[k])
    decreases |s| - j
  {
    if j < k {
      RunEndStays(s, j + 1, p, k);
    }
  }

  /** `indexOf`: the first occurrence of `w` at or after `from`, or -1. */
  function IndexOf(s: string, w: string, from: nat): (k: int)
    requires from <= |s|
    ensures k == -1 || (from <= k && MatchAt(s, w, k))
    decreases |s| - from
  {
    if MatchAt(s, w, from) then from
    else if from == |s| then -1
    else IndexOf(s, w, from + 1)
  }

  lemma MatchedChar(s: string, w: string, p: nat, k: nat)
    requires MatchAt(s, w, p) && p <= k < p + |w|
    ensures s[k] in w
  {
    assert s[p + (k - p)] == w[k - p];
  }

  lemma MatchIsPrefix(s: string, w: string, k: nat)
    requires k <= |s|
    ensures MatchAt(s, w, k) <==> w <= s[k..]
  {
    if MatchAt(s, w, k) {
      assert s[k..][..|w|] == w;
    }
    if w <= s[k..] {
      assert forall x :: 0 <= x < |w| ==> s[k + x] == s[k..][x];
    }
  }

  lemma {:induction false} IndexOfIsFirst(s: string, w: string, from: nat, j: nat)
    requires from <= j && MatchAt(s, w, j)
    ensures 0 <= IndexOf(s, w, from) <= j
    decreases j - from
  {
    if !MatchAt(s, w, from) {
      IndexOfIsFirst(s, w, from + 1, j);
    }
  }

  /** The first position of `s` holding something other than white space, or the end. */
  function TrimStartAt(s: string): (i: nat)
    ensures i <= |s|
    ensures forall k :: 0 <= k < i ==> IsSpace(s[k])
    ensures i < |s| ==> !IsSpace(s[i])
  {
    assert forall k :: 0 <= k < RunEnd(s, 0, IsSpace) ==> IsSpace(s[k]) by {
      forall k | 0 <= k < RunEnd(s, 0, IsSpace) ensures IsSpace(s[k]) { RunEndStays(s, 0, IsSpace, k); }
    }
    RunEnd(s, 0, IsSpace)
  }

  /** The end of `s` once its trailing white space is dropped. */
  function TrimEndAt(s: string): (e: nat)
    ensures e <= |s|
    ensures forall k :: e <= k < |s| ==> IsSpace(s[k])
    ensures e > 0 ==> !IsSpace(s[e - 1])
  {
    if s == [] then 0
    else if IsSpace(s[|s| - 1]) then TrimEndAt(s[..|s| - 1])
    else |s|
  }

  function Trim(s: string): string {
    var i := TrimStartAt(s);
    if i == |s| then "" else assert TrimEndAt(s) > i by { TrimBounds(s); } s[i..TrimEndAt(s)]
  }

  lemma TrimBounds(s: string)
    ensures TrimStartAt(s) < |s| ==> TrimStartAt(s) < TrimEndAt(s)
    ensures TrimStartAt(s) == |s| ==> TrimEndAt(s) == 0
  {
  }

  // --- searches inside a window of a longer text ---

  lemma {:induction false} RunEndInWindow(s: string, a: nat, b: nat, j: nat, p: char -> bool)
    requires a <= j <= b <= |s|
    ensures RunEnd(s[a..b], j - a, p) == (if RunEnd(s, j, p) <= b then RunEnd(s, j, p) else b) - a
    decreases b - j
  {
    if j < b && p(s[j]) {
      RunEndInWindow(s, a, b, j + 1, p);
    }
  }

  lemma MatchInWindow(s: string, a: nat, b: nat, w: string, k: nat)
    requires a <= k && b <= |s| && a <= b
    ensures MatchAt(s[a..b], w, k - a) <==> k + |w| <= b && MatchAt(s, w, k)
  {
  }

  lemma {:induction false} IndexOfInWindow(s: string, a: nat, b: nat, w: string, j: nat)
    requires a <= j <= b <= |s|
    ensures var k := IndexOf(s, w, j);
            IndexOf(s[a..b], w, j - a) == if 0 <= k && k + |w| <= b then k - a else -1
    decreases b - j
  {
    MatchInWindow(s, a, b, w, j);
    if j < b {
      IndexOfInWindow(s, a, b, w, j + 1);
    } else if !MatchAt(s[a..b], w, j - a) {
      assert IndexOf(s[a..b], w, j - a) == -1;
    }
  }
}
