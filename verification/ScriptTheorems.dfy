/** The splitter's main laws: round trip through a join, and the batch from the cursor on. */
module ScriptTheorems {
  import opened Text
  import opened MaskSpec
  import opened MaskLocality
  import opened SqlScript
  import opened SqlScriptLaws
  import opened SplitLaws
  import opened ScriptRoundTrip

  // --- a statement masked on its own ---

  lemma NoSemiInSegment(m: string, a: nat, k: nat)
    requires a <= |m| && a <= k < NextSemi(m, a)
    ensures m[k] != ';'
  {
    RunEndStays(m, a, NotSemi, k);
  }

  lemma MaskOfSpace(s: string, r: Rules, x: nat, y: nat)
    requires x <= y <= |s| && forall k :: x <= k < y ==> IsSpace(s[k])
    ensures AllSpace(Mask(s, r)[x..y]) && AllSpace(s[x..y])
  {
    hide MaskedChar;
    forall k | x <= k < y ensures IsSpace(Mask(s, r)[k]) {
      MaskShape(s, r, k);
    }
  }

  /** The mask over a statement's range has no `;` and carries all that can be executed. */
  lemma SegmentMask(s: string, r: Rules, a: nat, e: nat, g: StatementRange)
    requires SegStart(s, r, a) && e == NextSemi(Mask(s, r), a) && IsTrimmed(s, g, a, e)
    ensures NoSemi(Mask(s, r)[g.from..g.to])
    ensures HasExecutableSql(Mask(s, r)[a..e]) == HasExecutableSql(Mask(s, r)[g.from..g.to])
  {
    hide Mask, NextSemi, HasExecutableSql, Reach, SegStart, IsSpace;
    var m := Mask(s, r);
    forall k | g.from <= k < g.to ensures m[k] != ';' {
      NoSemiInSegment(m, a, k);
    }
    MaskOfSpace(s, r, a, g.from);
    MaskOfSpace(s, r, g.to, e);
    SplitInThree(m, a, g.from, g.to, e);
    ExecutableOfPadded(m[a..g.from], m[g.from..g.to], m[g.to..e]);
  }

  lemma SplitInThree(m: string, a: nat, f: nat, g: nat, e: nat)
    requires a <= f <= g <= e <= |m|
    ensures m[a..e] == m[a..f] + m[f..g] + m[g..e]
  {
  }

  lemma PieceMaskHasNoSemi(m: string, lost: bool, f: nat, g: nat)
    requires f <= g <= |m| && (lost ==> f + 2 <= g) && NoSemi(m[f..g])
    ensures NoSemi(PieceMask(m, lost, f, g))
  {
    var u := PieceMask(m, lost, f, g);
    forall k | 0 <= k < |u| ensures u[k] != ';' {
      assert k < g - f - (if lost then 2 else 0) ==> u[k] == m[f..g][k] && m[f..g][k] in m[f..g];
    }
  }

  /** The text keeps its executable part when masked alone, unless it ends in a MySQL `--`. */
  ghost predicate StandsAlone(t: string, r: Rules) {
    && Solid(t) && NoSemi(Mask(t, r))
    && (!r.dashSpace || !EndsInDashes(t) ==> HasExecutableSql(Mask(t, r)))
  }

  lemma TrimmedIsSolid(s: string, g: StatementRange, a: nat, e: nat)
    requires IsTrimmed(s, g, a, e)
    ensures Solid(g.text)
  {
    hide IsSpace;
  }

  lemma DashLostEnds(s: string, r: Rules, f: nat, g: nat)
    requires f <= g <= |s| && DashLost(s, r, f, g)
    ensures r.dashSpace && f + 2 <= g && EndsInDashes(s[f..g])
  {
    hide Reach;
  }

  /** A statement keeps its executable part when masked alone, unless a final `--` carried it. */
  lemma StatementMask(s: string, r: Rules, a: nat)
    requires SegStart(s, r, a)
    requires HasExecutableSql(Mask(s, r)[a..NextSemi(Mask(s, r), a)])
    ensures StandsAlone(RangeOf(s, a, NextSemi(Mask(s, r), a)).text, r)
  {
    hide Mask, NextSemi, RangeOf, HasExecutableSql, IsPiece, NoSemi, SegStart, Solid, EndsInDashes, DashLost;
    var m := Mask(s, r);
    var e := NextSemi(m, a);
    var g := RangeOf(s, a, e);
    RangeIsPiece(s, r, a);
    TrimmedIsSolid(s, g, a, e);
    SegmentMask(s, r, a, e, g);
    MaskOfPiece(s, r, g.from, g.to, e);
    if DashLost(s, r, g.from, g.to) {
      DashLostEnds(s, r, g.from, g.to);
    }
    PieceMaskHasNoSemi(m, DashLost(s, r, g.from, g.to), g.from, g.to);
  }

  lemma {:induction false} StatementsStandAlone(s: string, r: Rules, a: nat)
    requires SegStart(s, r, a)
    ensures forall t :: t in TextsOf(Ranges(s, Mask(s, r), a)) ==> StandsAlone(t, r)
    decreases |s| - a
  {
    hide Mask, NextSemi, RangeOf, HasExecutableSql, Reach, TextsOf, Ranges, StandsAlone, RestRanges;
    var m := Mask(s, r);
    RangeTexts(s, m, a);
    NoRestTexts(s, m, a);
    SegmentEnd(s, r, a);
    var e := NextSemi(m, a);
    if e < |m| {
      StatementsStandAlone(s, r, e + 1);
    }
    if HasExecutableSql(m[a..e]) {
      StatementMask(s, r, a);
    }
  }

  lemma StandAloneMatch(ts: seq<string>, r: Rules)
    requires forall t :: t in ts ==> StandsAlone(t, r)
    ensures Matching(ts, MasksOf(ts, r))
  {
    hide HasExecutableSql, Solid, NoSemi, EndsInDashes;
    assert forall i :: 0 <= i < |ts| ==> ts[i] in ts;
  }

  /**
   * Round trip: splitting the joined statements gives back those that can still be executed when
   * masked alone; all of them, unless a MySQL statement is only a `--` left by a following `;`.
   */
  lemma SplitOfJoin(s: string, d: Driver)
    ensures var ts := Statements(s, d);
            var ms := MasksOf(ts, DefaultRules(d));
            && Statements(Join(ts), d) == Executable(ts, ms)
            && (Statements(Join(ts), d) == ts <==> forall i :: 0 <= i < |ts| ==> HasExecutableSql(ms[i]))
            && (d != MySql || (forall t :: t in ts ==> !EndsInDashes(t)) ==> Statements(Join(ts), d) == ts)
  {
    hide Mask, HasExecutableSql, Ranges, TextsOf, Join, EndsInDashes, Matching, Solid, NoSemi;
    var r := DefaultRules(d);
    assert SegStart(s, r, 0) by { ReachSelf(s, r, 0); }
    var ts := Statements(s, d);
    var ms := MasksOf(ts, r);
    MaskOfStatements(s, r, 0);
    StatementsStandAlone(s, r, 0);
    StandAloneMatch(ts, r);
    TextsOfJoin("", ts, ms);
    assert "" + Join(ts) == Join(ts) && "" + Join(ms) == Join(ms);
    TextsAreRanges(Join(ts), Join(ms), 0);
    assert Join(ts)[0..] == Join(ts) && Join(ms)[0..] == Join(ms);
    ExecutableIsAll(ts, ms);
    assert forall i :: 0 <= i < |ts| ==> ts[i] in ts;
  }

  lemma PlainSurvives(s: string, r: Rules, k: nat)
    requires k < |s| && Reach(s, r, 0, k) && TokenAt(s, r, k) == Token(Plain, k, k, k + 1, true)
    ensures Mask(s, r)[k] == s[k] && Reach(s, r, 0, k + 1)
  {
    hide TokenAt;
    BlankedFromReached(s, r, 0, k, k);
    ReachStep(s, r, 0, k);
  }

  lemma MaskOfDashesBeforeSemi(r: Rules)
    requires r.dashSpace
    ensures Mask("--;", r) == "--;"
  {
    hide Mask, Reach, TokenAt;
    var s := "--;";
    ReachSelf(s, r, 0);
    DashIsPlain(s, r, 0);
    PlainSurvives(s, r, 0);
    DashIsPlain(s, r, 1);
    PlainSurvives(s, r, 1);
    PlainIsKept(s, r, 2);
  }

  lemma MaskOfDashesAlone(r: Rules)
    ensures Mask("--", r) == "  "
  {
    assert TokenAt("--", r, 0) == Token(LineComment, 0, 2, 2, true);
  }

  lemma TextsOfDashes()
    ensures Texts("--;", "--;") == ["--"] && Texts("--", "  ") == []
  {
    hide HasExecutableSql, Trim, NextSemi;
    assert Solid("--") && NoSemi("--");
    assert CutAt("--;", "--", ';', "");
    TextsAtSemi("--;", "--;", "--", "--", "", "");
    TextsOfBlank("");
    assert "" + "--" + "" == "--";
    TrimOfPadded("", "--", "");
    assert HasExecutableSql("--") by { DashesAreExecutable(); }
    SpaceIsIdle("  ");
    assert "  "[..2] == "  ";
    NextSemiIs("  ", 2);
  }

  lemma DashesAreExecutable()
    ensures HasExecutableSql("--")
  {
    assert RemoveClosers("--") == ['-'] + RemoveClosers("--"[1..]);
    assert '-' in RemoveClosers("--");
  }

  /** The exception is real: a lone `--` before a `;` is a statement in MySQL, and a comment alone. */
  lemma DashesAloneAreLost()
    ensures Statements("--;", MySql) == ["--"] && Statements("--", MySql) == []
  {
    hide Mask, Texts, Ranges, TextsOf;
    var r := DefaultRules(MySql);
    MaskOfDashesBeforeSemi(r);
    MaskOfDashesAlone(r);
    TextsAreRanges("--;", "--;", 0);
    TextsAreRanges("--", "  ", 0);
    assert "--;"[0..] == "--;" && "--"[0..] == "--" && "  "[0..] == "  ";
    TextsOfDashes();
  }
}
