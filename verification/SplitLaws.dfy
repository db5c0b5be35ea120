/** Splitting by suffixes of the mask, and how white space around a segment does not matter. */
module SplitLaws {
  import opened Text
  import opened SqlScript

  ghost predicate AllSpace(w: string) {
    forall c :: c in w ==> IsSpace(c)
  }

  ghost predicate Solid(t: string) {
    t != "" && !IsSpace(t[0]) && !IsSpace(t[|t| - 1])
  }

  lemma TrimOfPadded(w: string, t: string, w': string)
    requires AllSpace(w) && Solid(t) && AllSpace(w')
    ensures Trim(w + t + w') == t
  {
    hide IsSpace, TrimStartAt, TrimEndAt;
    var s := w + t + w';
    assert s[|w|] == t[0] && s[|w| + |t| - 1] == t[|t| - 1];
    assert forall k :: 0 <= k < |w| ==> s[k] in w;
    assert forall k :: |w| + |t| <= k < |s| ==> s[k] in w';
    assert TrimStartAt(s) == |w| && TrimEndAt(s) == |w| + |t|;
    assert s[|w|..|w| + |t|] == t;
  }

  // --- what can be executed ---

  ghost predicate NoCloserAcross(a: string, b: string) {
    a == "" || b == "" || a[|a| - 1] != '*' || b[0] != '/'
  }

  lemma CloserInAppend(a: string, b: string)
    requires a != "" && NoCloserAcross(a, b)
    ensures StartsWithCloser(a + b) == StartsWithCloser(a)
    ensures (a + b)[0] == a[0] && (a + b)[1..] == a[1..] + b && NoCloserAcross(a[1..], b)
    ensures StartsWithCloser(a) ==> (a + b)[2..] == a[2..] + b && NoCloserAcross(a[2..], b)
  {
    assert |a + b| >= 2 ==> (a + b)[1] == if |a| >= 2 then a[1] else b[0];
  }

  lemma {:induction false} RemoveClosersAppend(a: string, b: string)
    requires NoCloserAcross(a, b)
    ensures RemoveClosers(a + b) == RemoveClosers(a) + RemoveClosers(b)
  {
    hide StartsWithCloser, NoCloserAcross;
    if a == "" {
      assert a + b == b;
    } else {
      CloserInAppend(a, b);
      if StartsWithCloser(a) {
        RemoveClosersAppend(a[2..], b);
      } else {
        RemoveClosersAppend(a[1..], b);
      }
    }
  }

  lemma {:induction false} SpaceHasNoClosers(w: string)
    requires AllSpace(w)
    ensures RemoveClosers(w) == w
  {
    if w != "" {
      assert w[0] in w;
      SpaceHasNoClosers(w[1..]);
    }
  }

  /** White space around a fragment does not make it executable. */
  lemma ExecutableOfPadded(w: string, m: string, w': string)
    requires AllSpace(w) && AllSpace(w')
    ensures HasExecutableSql(w + m + w') == HasExecutableSql(m)
  {
    hide RemoveClosers;
    assert w != "" ==> w[|w| - 1] in w;
    assert w' != "" ==> w'[0] in w';
    RemoveClosersAppend(w, m);
    RemoveClosersAppend(w + m, w');
    SpaceHasNoClosers(w);
    SpaceHasNoClosers(w');
  }

  lemma SpaceIsIdle(w: string)
    requires AllSpace(w)
    ensures !HasExecutableSql(w)
  {
    SpaceHasNoClosers(w);
  }

  // --- splitting by suffixes ---

  ghost predicate NoSemi(m: string) {
    forall c :: c in m ==> c != ';'
  }

  function Texts(sql: string, m: string): seq<string>
    requires |m| == |sql|
    decreases |m|
  {
    var e := NextSemi(m, 0);
    (if HasExecutableSql(m[..e]) then [Trim(sql[..e])] else []) +
    (if e < |m| then Texts(sql[e + 1..], m[e + 1..]) else [])
  }

  lemma TextsOfAppend(a: seq<StatementRange>, b: seq<StatementRange>)
    ensures TextsOf(a + b) == TextsOf(a) + TextsOf(b)
  {
  }

  lemma SegmentText(sql: string, m: string, a: nat, e: nat)
    requires |m| == |sql| && a <= e <= |m|
    ensures TextsOf(Segment(sql, m, a, e)) == if HasExecutableSql(m[a..e]) then [Trim(sql[a..e])] else []
  {
    hide HasExecutableSql, Trim;
  }

  lemma SuffixSlices(s: string, a: nat, e: nat)
    requires a <= e <= |s|
    ensures s[a..][..e - a] == s[a..e]
    ensures e < |s| ==> s[a..][e - a + 1..] == s[e + 1..]
  {
  }

  lemma NextSemiInSuffix(m: string, a: nat)
    requires a <= |m|
    ensures NextSemi(m[a..], 0) == NextSemi(m, a) - a
  {
    assert m[a..|m|] == m[a..];
    RunEndInWindow(m, a, |m|, a, NotSemi);
  }

  lemma TextsOfSuffix(sql: string, m: string, a: nat)
    requires |m| == |sql| && a <= |m|
    ensures var e := NextSemi(m, a);
            Texts(sql[a..], m[a..]) ==
            TextsOf(Segment(sql, m, a, e)) + (if e < |m| then Texts(sql[e + 1..], m[e + 1..]) else [])
  {
    hide HasExecutableSql, Segment, Trim, NextSemi, TextsOf, Texts;
    var e := NextSemi(m, a);
    NextSemiInSuffix(m, a);
    SuffixSlices(m, a, e);
    SuffixSlices(sql, a, e);
    SegmentText(sql, m, a, e);
    TextsStep(sql[a..], m[a..]);
  }

  lemma TextsStep(sql: string, m: string)
    requires |m| == |sql|
    ensures var e := NextSemi(m, 0);
            Texts(sql, m) == (if HasExecutableSql(m[..e]) then [Trim(sql[..e])] else []) +
                             (if e < |m| then Texts(sql[e + 1..], m[e + 1..]) else [])
  {
    hide HasExecutableSql, Trim, NextSemi;
  }

  lemma {:induction false} TextsAreRanges(sql: string, m: string, a: nat)
    requires |m| == |sql| && a <= |m|
    ensures TextsOf(Ranges(sql, m, a)) == Texts(sql[a..], m[a..])
    decreases |m| - a
  {
    hide Segment, NextSemi, TextsOf, Texts;
    var e := NextSemi(m, a);
    TextsOfSuffix(sql, m, a);
    if e < |m| {
      TextsAreRanges(sql, m, e + 1);
      TextsOfAppend(Segment(sql, m, a, e), Ranges(sql, m, e + 1));
    } else {
      TextsOfAppend(Segment(sql, m, a, e), []);
    }
  }

  lemma {:induction false} NextSemiIs(m: string, n: nat)
    requires n <= |m| && NoSemi(m[..n]) && (n < |m| ==> m[n] == ';')
    ensures NextSemi(m, 0) == n
  {
    forall k | 0 <= k < n ensures m[k] != ';' {
      assert m[..n][k] in m[..n];
    }
    if n < NextSemi(m, 0) {
      RunEndStays(m, 0, NotSemi, n);
    }
  }

  function SEPARATOR(): string { "\n;\n" }

  function Join(ts: seq<string>): string {
    if ts == [] then "" else if |ts| == 1 then ts[0] else ts[0] + SEPARATOR() + Join(ts[1..])
  }

  /** The statements whose own mask still has something to execute. */
  function Executable(ts: seq<string>, ms: seq<string>): seq<string>
    requires |ts| == |ms|
  {
    if ts == [] then []
    else (if HasExecutableSql(ms[0]) then [ts[0]] else []) + Executable(ts[1..], ms[1..])
  }

  lemma {:induction false} ExecutableIsAll(ts: seq<string>, ms: seq<string>)
    requires |ts| == |ms|
    ensures |Executable(ts, ms)| <= |ts|
    ensures Executable(ts, ms) == ts <==> forall i :: 0 <= i < |ms| ==> HasExecutableSql(ms[i])
  {
    hide HasExecutableSql;
    if ts != [] {
      ExecutableIsAll(ts[1..], ms[1..]);
      var rest := Executable(ts[1..], ms[1..]);
      assert forall i :: 1 <= i < |ms| ==> ms[i] == ms[1..][i - 1];
      if HasExecutableSql(ms[0]) {
        assert ([ts[0]] + rest)[1..] == rest;
        assert [ts[0]] + ts[1..] == ts;
      }
    }
  }

  ghost predicate Matching(ts: seq<string>, ms: seq<string>) {
    |ts| == |ms| && forall i :: 0 <= i < |ts| ==> |ts[i]| == |ms[i]| && Solid(ts[i]) && NoSemi(ms[i])
  }

  lemma {:induction false} JoinLength(ts: seq<string>, ms: seq<string>)
    requires Matching(ts, ms)
    ensures |Join(ts)| == |Join(ms)|
  {
    if |ts| > 1 {
      JoinLength(ts[1..], ms[1..]);
    }
  }

  /** `s` is `before`, one character and `after`. */
  ghost predicate CutAt(s: string, before: string, c: char, after: string) {
    s == before + [c] + after
  }

  lemma JoinIsCut(w: string, t: string, rest: string)
    ensures CutAt(w + (t + SEPARATOR() + rest), w + t + "\n", ';', "\n" + rest)
  {
  }

  lemma TextsAtSemi(sql: string, m: string, before: string, mbefore: string, after: string, mafter: string)
    requires |m| == |sql| && |before| == |mbefore| && NoSemi(mbefore)
    requires CutAt(m, mbefore, ';', mafter) && CutAt(sql, before, ';', after)
    ensures |after| == |mafter|
    ensures Texts(sql, m) == (if HasExecutableSql(mbefore) then [Trim(before)] else []) + Texts(after, mafter)
  {
    hide HasExecutableSql, Trim, NextSemi;
    var n := |before|;
    assert m[..n] == mbefore && m[n + 1..] == mafter && sql[..n] == before && sql[n + 1..] == after;
    NextSemiIs(m, n);
  }

  lemma NoSemiAppend(a: string, b: string)
    requires NoSemi(a) && NoSemi(b)
    ensures NoSemi(a + b)
  {
  }

  lemma TextsWithoutSemi(sql: string, m: string)
    requires |sql| == |m| && NoSemi(m)
    ensures Texts(sql, m) == if HasExecutableSql(m) then [Trim(sql)] else []
  {
    hide HasExecutableSql, Trim, NextSemi;
    assert m[..|m|] == m && sql[..|m|] == sql;
    NextSemiIs(m, |m|);
  }

  lemma LedBySpace(w: string, wm: string, t: string, m: string)
    requires AllSpace(w) && AllSpace(wm) && Solid(t)
    ensures Trim(w + t) == t && HasExecutableSql(wm + m) == HasExecutableSql(m)
  {
    hide HasExecutableSql, Trim, IsSpace;
    TrimOfPadded(w, t, "");
    assert w + t + "" == w + t;
    ExecutableOfPadded(wm, m, "");
    assert wm + m + "" == wm + m;
  }

  lemma TextsOfOne(w: string, wm: string, t: string, m: string)
    requires AllSpace(w) && AllSpace(wm) && |w| == |wm| && |t| == |m| && Solid(t) && NoSemi(m)
    ensures Texts(w + t, wm + m) == if HasExecutableSql(m) then [t] else []
  {
    hide HasExecutableSql, Trim, IsSpace, NoSemi, Texts, Solid, AllSpace;
    SpaceIsNotSemi(wm);
    NoSemiAppend(wm, m);
    TextsWithoutSemi(w + t, wm + m);
    LedBySpace(w, wm, t, m);
  }

  lemma TextsOfFirst(w: string, t: string, m: string, rest: string, mrest: string)
    requires AllSpace(w) && |t| == |m| && |rest| == |mrest| && Solid(t) && NoSemi(m)
    ensures Texts(w + (t + SEPARATOR() + rest), w + (m + SEPARATOR() + mrest)) ==
            (if HasExecutableSql(m) then [t] else []) + Texts("\n" + rest, "\n" + mrest)
  {
    hide HasExecutableSql, Trim, Texts, SEPARATOR, NoSemi, AllSpace, Solid, CutAt;
    JoinIsCut(w, m, mrest);
    JoinIsCut(w, t, rest);
    assert NoSemi(w + m + "\n") by {
      NewlineIsSpace();
      SpaceIsNotSemi(w);
      SpaceIsNotSemi("\n");
      NoSemiAppend(w, m);
      NoSemiAppend(w + m, "\n");
    }
    TextsAtSemi(w + (t + SEPARATOR() + rest), w + (m + SEPARATOR() + mrest),
                w + t + "\n", w + m + "\n", "\n" + rest, "\n" + mrest);
    NewlineIsSpace();
    ExecutableOfPadded(w, m, "\n");
    TrimOfPadded(w, t, "\n");
  }

  /** Splitting joined statements by their joined masks gives back those that can be executed. */
  lemma {:induction false} TextsOfJoin(w: string, ts: seq<string>, ms: seq<string>)
    requires AllSpace(w) && Matching(ts, ms)
    ensures |Join(ts)| == |Join(ms)| && Texts(w + Join(ts), w + Join(ms)) == Executable(ts, ms)
    decreases |ts|
  {
    hide HasExecutableSql, NextSemi, IsSpace, Texts, SEPARATOR;
    JoinLength(ts, ms);
    if ts == [] {
      TextsOfBlank(w);
      assert w + "" == w;
    } else if |ts| == 1 {
      TextsOfOne(w, w, ts[0], ms[0]);
    } else {
      TextsOfFirst(w, ts[0], ms[0], Join(ts[1..]), Join(ms[1..]));
      NewlineIsSpace();
      TextsOfJoin("\n", ts[1..], ms[1..]);
    }
  }

  lemma TextsOfBlank(w: string)
    requires AllSpace(w)
    ensures Texts(w, w) == []
  {
    hide HasExecutableSql, Trim, NextSemi, IsSpace;
    SpaceIsNotSemi(w);
    assert w[..|w|] == w;
    NextSemiIs(w, |w|);
    SpaceIsIdle(w);
  }

  lemma SpaceIsNotSemi(w: string)
    requires AllSpace(w)
    ensures NoSemi(w)
  {
  }

  lemma NewlineIsSpace()
    ensures AllSpace("\n")
  {
  }
}
