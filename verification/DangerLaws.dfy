/** The safety checks agree with the splitter about what is one statement. */
module DangerLaws {
  import opened Common
  import opened Text
  import opened SqlScript
  import opened SplitLaws
  import opened DangerousSql

  // --- white space and `-` at the end of a fragment never change its kind ---

  /** A character that separates words and neither opens nor closes anything. */
  predicate IsInert(c: char) { IsSpace(c) || c == '-' }

  lemma {:induction false} RunEndAppend(m: string, i: nat, p: char -> bool, c: char)
    requires i <= |m| && !p(c)
    ensures RunEnd(m + [c], i, p) == RunEnd(m, i, p)
    decreases |m| - i
  {
    if i < |m| {
      RunEndAppend(m, i + 1, p, c);
    }
  }

  lemma MatchAppend(m: string, kw: string, i: nat, c: char)
    requires forall x :: x in kw ==> IsWord(x)
    requires !IsWord(c) && kw != ""
    ensures MatchAt(m + [c], kw, i) == MatchAt(m, kw, i)
  {
    var n := m + [c];
    if MatchAt(n, kw, i) && i + |kw| == |n| {
      MatchedChar(n, kw, i, |m|);
    }
  }

  predicate AllWord(kw: string) { kw != "" && forall x :: x in kw ==> IsWord(x) }

  lemma KeywordAppend(m: string, kw: string, c: char)
    requires AllWord(kw) && !IsWord(c)
    ensures StartsWithKeyword(m + [c], kw) == StartsWithKeyword(m, kw)
  {
    MatchAppend(m, kw, 0, c);
  }

  lemma {:induction false} DepthAppend(m: string, i: nat, c: char)
    requires i <= |m|
    ensures Depth(m + [c], i) == Depth(m, i)
  {
    if i > 0 {
      DepthAppend(m, i - 1, c);
    }
  }

  lemma WhereAppend(m: string, c: char)
    requires !IsWord(c)
    ensures TopLevelWhere(m + [c]) == TopLevelWhere(m)
  {
    hide MatchAt;
    var n := m + [c];
    forall i | 0 <= i < |m|
      ensures WordAt(n, "where", i) == WordAt(m, "where", i) && Depth(n, i) == Depth(m, i)
    {
      assert AllWord("where");
      MatchAppend(m, "where", i, c);
      DepthAppend(m, i, c);
    }
    assert !WordAt(n, "where", |m|) by { LastIsNoMatch(n, |m|); }
  }

  lemma LastIsNoMatch(n: string, i: nat)
    requires i + 1 == |n|
    ensures !MatchAt(n, "where", i)
  {
  }

  lemma {:induction false} WordsAppend(m: string, i: nat, c: char)
    requires i <= |m| && IsInert(c)
    ensures Words(m + [c], i) == Words(m, i)
    decreases |m| - i
  {
    var n := m + [c];
    if i == |m| {
      assert Words(n, |n|) == [];
    } else if IsLowerWord(m[i]) {
      RunEndAppend(m, i, IsLowerWord, c);
      var j := RunEnd(m, i, IsLowerWord);
      assert n[i..j] == m[i..j];
      WordsAppend(m, j, c);
    } else {
      WordsAppend(m, i + 1, c);
    }
  }

  lemma BodyKindAppend(m: string, c: char)
    requires IsInert(c)
    ensures BodyKind(m + [c]) == BodyKind(m)
  {
    hide Words, TopLevelWhere, StartsWithKeyword;
    KeywordAppend(m, "delete", c);
    KeywordAppend(m, "update", c);
    KeywordAppend(m, "truncate", c);
    KeywordAppend(m, "drop", c);
    KeywordAppend(m, "alter", c);
    WhereAppend(m, c);
    WordsAppend(m, 0, c);
  }

  lemma {:induction false} RunEndStops(m: string, i: nat, p: char -> bool, c: char)
    requires i <= |m| && RunEnd(m, i, p) < |m|
    ensures RunEnd(m + [c], i, p) == RunEnd(m, i, p)
    decreases |m| - i
  {
    if p(m[i]) {
      RunEndStops(m, i + 1, p, c);
    }
  }

  lemma {:induction false} RunEndPasses(m: string, i: nat, j: nat, p: char -> bool)
    requires i <= j <= |m| && forall k :: i <= k < j ==> p(m[k])
    ensures RunEnd(m, i, p) == RunEnd(m, j, p)
    decreases j - i
  {
    if i < j {
      RunEndPasses(m, i + 1, j, p);
    }
  }

  lemma StripLeadAppend(x: string, c: char)
    ensures StripLead(x + [c]) == StripLead(x) + [c] || (StripLead(x) == "" && StripLead(x + [c]) == "")
  {
    var e := RunEnd(x, 0, IsLead);
    if e < |x| {
      RunEndStops(x, 0, IsLead, c);
    } else {
      forall k | 0 <= k < |x| ensures IsLead((x + [c])[k]) {
        RunEndStays(x, 0, IsLead, k);
      }
      RunEndPasses(x + [c], 0, |x|, IsLead);
    }
  }

  lemma ClassifyAppend(m: string, c: char)
    requires IsInert(c)
    ensures ClassifyStatement(m + [c]) == ClassifyStatement(m)
  {
    hide BodyKind, StripLead;
    assert Lower(m + [c]) == Lower(m) + [c];
    StripLeadAppend(Lower(m), c);
    BodyKindAppend(StripLead(Lower(m)), c);
  }

  predicate AllInert(w: string) { forall c :: c in w ==> IsInert(c) }

  lemma {:induction false} ClassifyTail(m: string, w: string)
    requires AllInert(w)
    ensures ClassifyStatement(m + w) == ClassifyStatement(m)
    decreases |w|
  {
    hide ClassifyStatement, IsInert;
    if w == "" {
      assert m + w == m;
    } else {
      assert m + w == (m + [w[0]]) + w[1..];
      ClassifyTail(m + [w[0]], w[1..]);
      ClassifyAppend(m, w[0]);
    }
  }

  lemma ClassifyLed(w: string, m: string)
    requires AllSpace(w)
    ensures ClassifyStatement(w + m) == ClassifyStatement(m)
  {
    hide BodyKind, RunEnd, Lower, IsSpace;
    var x := Lower(w + m);
    LowerOfLed(w, m);
    RunEndPasses(x, 0, |w|, IsLead);
    RunEndInWindow(x, |w|, |x|, |w|, IsLead);
    StrippedSuffix(x, |w|, RunEnd(x, |w|, IsLead));
  }

  lemma LowerOfLed(w: string, m: string)
    requires AllSpace(w)
    ensures var x := Lower(w + m); x[|w|..|x|] == Lower(m) && forall k :: 0 <= k < |w| ==> IsLead(x[k])
  {
    var x := Lower(w + m);
    assert x[|w|..|x|] == Lower(m);
    forall k | 0 <= k < |w| ensures IsLead(x[k]) {
      assert w[k] in w && x[k] == w[k];
    }
  }

  lemma StrippedSuffix(x: string, a: nat, e: nat)
    requires a <= e <= |x|
    ensures x[a..|x|][e - a..] == x[e..]
  {
  }

  /** White space around a fragment and a `--` at its end leave the kind of danger alone. */
  lemma ClassifyPadded(w: string, m: string, tail: string)
    requires AllSpace(w) && AllInert(tail)
    ensures ClassifyStatement(w + m + tail) == ClassifyStatement(m)
  {
    hide ClassifyStatement, IsSpace, IsInert;
    ClassifyTail(w + m, tail);
    ClassifyLed(w, m);
  }

  // --- fragments with nothing to execute ---

  lemma {:induction false} IdleChars(m: string, c: char)
    requires !HasExecutableSql(m) && c in m
    ensures IsSpace(c) || c == '*' || c == '/'
  {
    if c !in RemoveClosers(m) {
      RemovedIsCloser(m, c);
    }
  }

  lemma {:induction false} RemovedIsCloser(m: string, c: char)
    requires c in m && c !in RemoveClosers(m)
    ensures c == '*' || c == '/'
  {
    if StartsWithCloser(m) {
      if c in m[2..] {
        RemovedIsCloser(m[2..], c);
      }
    } else if c in m[1..] {
      RemovedIsCloser(m[1..], c);
    }
  }

  lemma KeywordStart(b: string, kw: string)
    requires kw != "" && StartsWithKeyword(b, kw)
    ensures b != "" && b[0] == kw[0]
  {
    assert b[0 + 0] == kw[0];
  }

  lemma SymbolIsHarmless(b: string)
    requires b == "" || !IsWord(b[0])
    ensures BodyKind(b) == None
  {
    hide StartsWithKeyword, Words, TopLevelWhere;
    forall kw | kw in ["delete", "update", "truncate", "drop", "alter"] ensures !StartsWithKeyword(b, kw) {
      if StartsWithKeyword(b, kw) {
        KeywordStart(b, kw);
      }
    }
    assert "delete" in ["delete", "update", "truncate", "drop", "alter"];
  }

  lemma IdleIsHarmless(m: string)
    requires !HasExecutableSql(m)
    ensures ClassifyStatement(m) == None
  {
    hide HasExecutableSql, BodyKind;
    var x := Lower(m);
    var b := StripLead(x);
    if b != "" {
      var k := RunEnd(x, 0, IsLead);
      assert b[0] == x[k] == LowerChar(m[k]);
      assert m[k] in m;
      IdleChars(m, m[k]);
    }
    SymbolIsHarmless(b);
  }
}
