/** The danger check and the read-only gate see the statements the splitter makes. */
module DangerTheorems {
  import opened Common
  import opened Text
  import opened MaskSpec
  import opened MaskLocality
  import opened SqlScript
  import opened SqlScriptLaws
  import opened SplitLaws
  import opened ScriptRoundTrip
  import opened ScriptTheorems
  import opened DangerousSql
  import opened DangerLaws

  /** The kinds found in each text, masked on its own, one after the other. */
  function KindsOfTexts(ts: seq<string>, r: Rules): seq<DangerKind> {
    if ts == [] then [] else KindsFrom(Mask(ts[0], r), 0) + KindsOfTexts(ts[1..], r)
  }

  lemma KindsOfOne(m: string)
    requires NoSemi(m)
    ensures KindsFrom(m, 0) == Listed(ClassifyStatement(m))
  {
    hide ClassifyStatement;
    assert m[..|m|] == m && m[0..|m|] == m;
    NextSemiIs(m, |m|);
  }

  /** Losing a final `--` does not change the kind of danger of a piece. */
  lemma PieceMaskKind(m: string, lost: bool, f: nat, g: nat)
    requires f <= g <= |m| && (lost ==> f + 2 <= g && m[g - 2] == '-' && m[g - 1] == '-')
    ensures ClassifyStatement(PieceMask(m, lost, f, g)) == ClassifyStatement(m[f..g])
  {
    hide ClassifyStatement;
    if lost {
      assert m[f..g] == m[f..g - 2] + "--";
      ClassifyTail(m[f..g - 2], "--");
      ClassifyTail(m[f..g - 2], "  ");
    }
  }

  /** A piece masked on its own has the kind of danger its part of the script's mask has. */
  lemma PieceKind(s: string, r: Rules, f: nat, g: nat, b: nat)
    requires f <= g <= |s| && IsPiece(s, r, f, g, b)
    ensures ClassifyStatement(Mask(s[f..g], r)) == ClassifyStatement(Mask(s, r)[f..g])
  {
    hide Mask, IsPiece, ClassifyStatement, DashLost, PieceMask, EndsInDashes;
    MaskOfPiece(s, r, f, g, b);
    if DashLost(s, r, f, g) {
      DashLostEnds(s, r, f, g);
      DashLostSurvives(s, r, f, g, b);
    }
    PieceMaskKind(Mask(s, r), DashLost(s, r, f, g), f, g);
  }

  /** A segment's kind of danger is that of its statement masked on its own. */
  lemma SegmentKind(s: string, r: Rules, a: nat)
    requires SegStart(s, r, a)
    requires HasExecutableSql(Mask(s, r)[a..NextSemi(Mask(s, r), a)])
    ensures var e := NextSemi(Mask(s, r), a);
            KindsFrom(Mask(RangeOf(s, a, e).text, r), 0) == Listed(ClassifyStatement(Mask(s, r)[a..e]))
  {
    hide Mask, NextSemi, RangeOf, HasExecutableSql, IsPiece, SegStart, ClassifyStatement, Solid, NoSemi, EndsInDashes,
      KindsFrom;
    var e := NextSemi(Mask(s, r), a);
    var g := RangeOf(s, a, e);
    RangeIsPiece(s, r, a);
    StatementMask(s, r, a);
    KindsOfOne(Mask(g.text, r));
    PieceKind(s, r, g.from, g.to, e);
    PaddingIsHarmless(s, r, a, e, g);
  }

  lemma PaddingIsHarmless(s: string, r: Rules, a: nat, e: nat, g: StatementRange)
    requires IsTrimmed(s, g, a, e)
    ensures ClassifyStatement(Mask(s, r)[a..e]) == ClassifyStatement(Mask(s, r)[g.from..g.to])
  {
    hide Mask, ClassifyStatement, IsSpace;
    var m := Mask(s, r);
    MaskOfSpace(s, r, a, g.from);
    MaskOfSpace(s, r, g.to, e);
    SplitInThree(m, a, g.from, g.to, e);
    assert AllInert(m[g.to..e]);
    ClassifyPadded(m[a..g.from], m[g.from..g.to], m[g.to..e]);
  }

  /** The kinds of the segments after the one at `a`. */
  function RestKinds(m: string, a: nat): seq<DangerKind>
    requires a <= |m|
  {
    var e := NextSemi(m, a);
    if e < |m| then KindsFrom(m, e + 1) else []
  }

  lemma RestKindsUnfold(m: string, a: nat)
    requires a <= |m|
    ensures RestKinds(m, a) == if NextSemi(m, a) < |m| then KindsFrom(m, NextSemi(m, a) + 1) else []
  {
    hide NextSemi, KindsFrom;
  }

  lemma KindsUnfold(m: string, a: nat)
    requires a <= |m|
    ensures KindsFrom(m, a) == Listed(ClassifyStatement(m[a..NextSemi(m, a)])) + RestKinds(m, a)
  {
    hide NextSemi, ClassifyStatement;
  }

  lemma KindsOfTextsUnfold(t: string, ts: seq<string>, r: Rules)
    ensures KindsOfTexts([t] + ts, r) == KindsFrom(Mask(t, r), 0) + KindsOfTexts(ts, r)
  {
    hide Mask, KindsFrom;
    assert ([t] + ts)[1..] == ts;
  }

  lemma NoTextsNoKinds(r: Rules)
    ensures KindsOfTexts([], r) == []
  {
  }

  lemma SegmentKinds(s: string, r: Rules, a: nat)
    requires SegStart(s, r, a)
    requires RestKinds(Mask(s, r), a) == KindsOfTexts(TextsOf(RestRanges(s, Mask(s, r), a)), r)
    ensures KindsFrom(Mask(s, r), a) == KindsOfTexts(TextsOf(Ranges(s, Mask(s, r), a)), r)
  {
    hide Mask, NextSemi, RangeOf, HasExecutableSql, TextsOf, Ranges, ClassifyStatement, KindsFrom, KindsOfTexts,
         RestRanges,
      RestKinds;
    var m := Mask(s, r);
    RangeTexts(s, m, a);
    KindsUnfold(m, a);
    var e := NextSemi(m, a);
    if HasExecutableSql(m[a..e]) {
      SegmentKind(s, r, a);
      KindsOfTextsUnfold(RangeOf(s, a, e).text, TextsOf(RestRanges(s, m, a)), r);
    } else {
      IdleIsHarmless(m[a..e]);
    }
  }

  lemma {:induction false} KindsAgree(s: string, r: Rules, a: nat)
    requires SegStart(s, r, a)
    ensures KindsFrom(Mask(s, r), a) == KindsOfTexts(TextsOf(Ranges(s, Mask(s, r), a)), r)
    decreases |s| - a
  {
    hide Mask, NextSemi, Ranges, KindsFrom, SegStart, RestRanges, TextsOf, KindsOfTexts, RestKinds, Reach;
    var m := Mask(s, r);
    SegStartBound(s, r, a);
    RestKindsUnfold(m, a);
    NoRestTexts(s, m, a);
    SegmentEnd(s, r, a);
    if NextSemi(m, a) < |m| {
      KindsAgree(s, r, NextSemi(m, a) + 1);
    } else {
      NoTextsNoKinds(r);
    }
    SegmentKinds(s, r, a);
  }

  /** The danger kinds of a script are those of its statements, each checked on its own, in order. */
  lemma DangerKindsAgree(s: string, d: Driver)
    ensures DangerKinds(s, d) == KindsOfTexts(Statements(s, d), DefaultRules(d))
  {
    ReachSelf(s, DefaultRules(d), 0);
    KindsAgree(s, DefaultRules(d), 0);
  }

  // --- the read-only gate ---

  lemma {:induction false} SeparatorsHoldNothing(sql: string, m: string, a: nat)
    requires |m| == |sql| && a <= |m| && forall k :: a <= k < |m| ==> IsSeparator(m[k])
    ensures Ranges(sql, m, a) == [] && KindsFrom(m, a) == []
    decreases |m| - a
  {
    hide NextSemi, RangeOf, HasExecutableSql, ClassifyStatement, IsSpace, Ranges, KindsFrom;
    RangesUnfold(sql, m, a);
    KindsUnfold(m, a);
    var e := NextSemi(m, a);
    assert AllSpace(m[a..e]) by {
      forall k | a <= k < e ensures IsSpace(m[k]) { NoSemiInSegment(m, a, k); }
    }
    SpaceIsIdle(m[a..e]);
    IdleIsHarmless(m[a..e]);
    if e < |m| {
      SeparatorsHoldNothing(sql, m, e + 1);
    }
  }

  lemma LowerIsClear(c: char)
    ensures IsSpace(LowerChar(c)) == IsSpace(c) && (LowerChar(c) == ';') == (c == ';')
    ensures IsWord(LowerChar(c)) == IsWord(c) && IsSeparator(LowerChar(c)) == IsSeparator(c)
  {
  }

  lemma KeywordChars(b: string, kw: string)
    requires |kw| >= 3 && StartsWithKeyword(b, kw)
    ensures |b| >= 3 && b[0] == kw[0] && b[1] == kw[1] && b[2] == kw[2]
  {
    assert b[0 + 0] == kw[0] && b[0 + 1] == kw[1] && b[0 + 2] == kw[2];
  }

  lemma ReadOnlyPrefixIsHarmless(body: string, kw: string)
    requires kw in READ_ONLY_PREFIXES && StartsWithKeyword(body, kw)
    ensures BodyKind(body) == None && body != "" && IsWord(body[0])
  {
    hide Words, TopLevelWhere, StartsWithKeyword;
    KeywordChars(body, kw);
    var writes := ["delete", "update", "truncate", "drop", "alter"];
    forall w | w in writes ensures !StartsWithKeyword(body, w) {
      if StartsWithKeyword(body, w) {
        KeywordChars(body, w);
      }
    }
    assert writes[0] in writes && writes[1] in writes && writes[2] in writes && writes[3] in writes &&
           writes[4] in writes;
  }

  /** What the gate accepts: white space, the body, then only separators. */
  lemma ReadOnlyShape(m: string) returns (lead: nat, end: nat)
    requires ReadOnlyBody(m) != ""
    ensures lead < end <= |m| && ReadOnlyBody(m) == Lower(m)[lead..end]
    ensures forall k :: 0 <= k < lead ==> IsSpace(m[k])
    ensures forall k :: end <= k < |m| ==> IsSeparator(m[k])
  {
    hide IsSpace, IsSeparator, TrimStartAt, SeparatorsAt;
    var lower := Lower(m);
    end := SeparatorsAt(lower);
    lead := TrimStartAt(lower[..end]);
    forall k | 0 <= k < lead ensures IsSpace(m[k]) {
      assert lower[..end][k] == lower[k] == LowerChar(m[k]);
      LowerIsClear(m[k]);
    }
    forall k | end <= k < |m| ensures IsSeparator(m[k]) {
      assert lower[k] == LowerChar(m[k]);
      LowerIsClear(m[k]);
    }
  }

  lemma ReadOnlyBodyFirst(m: string, lead: nat, end: nat, kw: string)
    requires lead < end <= |m| && kw in READ_ONLY_PREFIXES && StartsWithKeyword(Lower(m)[lead..end], kw)
    ensures IsWord(m[lead]) && ClassifyStatement(m[lead..end]) == None
  {
    hide BodyKind, StartsWithKeyword, RunEnd;
    var body := Lower(m)[lead..end];
    ReadOnlyPrefixIsHarmless(body, kw);
    LowerIsClear(m[lead]);
    assert Lower(m[lead..end]) == body;
    assert RunEnd(body, 0, IsLead) == 0 by { WordIsNoLead(body); }
    assert body[0..] == body;
  }

  lemma WordIsNoLead(b: string)
    requires b != "" && IsWord(b[0])
    ensures RunEnd(b, 0, IsLead) == 0
  {
  }

  /** The first segment of an accepted script holds its whole body. */
  lemma FirstSegmentHoldsBody(m: string, lead: nat, end: nat)
    requires lead < end <= |m| && ';' !in Lower(m)[lead..end]
    requires forall k :: 0 <= k < lead ==> IsSpace(m[k])
    ensures end <= NextSemi(m, 0)
  {
    hide IsSpace;
    forall k | 0 <= k < end ensures m[k] != ';' {
      if lead <= k {
        assert Lower(m)[lead..end][k - lead] == LowerChar(m[k]);
        LowerIsClear(m[k]);
      } else {
        assert IsSpace(m[k]);
        SpaceIsNoSemi(m[k]);
      }
    }
  }

  lemma SpaceIsNoSemi(c: char)
    requires IsSpace(c)
    ensures c != ';'
  {
  }

  lemma {:induction false} WordIsExecutable(m: string, k: nat)
    requires k < |m| && IsWord(m[k])
    ensures HasExecutableSql(m)
  {
    if !HasExecutableSql(m) {
      IdleChars(m, m[k]);
    }
  }

  /** Whatever the gate accepts is one statement to the splitter and harmless to the danger check. */
  lemma ReadOnlyIsOneStatement(sql: string, r: Rules, vetoes: (string, string) -> bool)
    requires IsReadOnlyMasked(sql, r, vetoes)
    ensures |Ranges(sql, Mask(sql, r), 0)| == 1 && KindsFrom(Mask(sql, r), 0) == []
  {
    hide Mask, NextSemi, RangeOf, HasExecutableSql, ClassifyStatement, IsSpace, StartsWithKeyword, ReadOnlyBody, Lower,
      IsWord, ContainsWord, IsSeparator, Ranges, KindsFrom;
    var m := Mask(sql, r);
    MaskLength(sql, r);
    var kw :| kw in READ_ONLY_PREFIXES && StartsWithKeyword(ReadOnlyBody(m), kw);
    var lead, end := ReadOnlyShape(m);
    ReadOnlyBodyFirst(m, lead, end, kw);
    FirstSegmentHoldsBody(m, lead, end);
    FirstSegmentIsHarmless(m, lead, end);
    OnlyFirstSegment(sql, m, lead, end);
  }

  lemma MaskLength(sql: string, r: Rules)
    ensures |Mask(sql, r)| == |sql|
  {
  }

  /** A mask with one harmless segment, only separators after it, has one range and no finding. */
  lemma OnlyFirstSegment(sql: string, m: string, lead: nat, end: nat)
    requires |m| == |sql| && lead < end <= NextSemi(m, 0) && IsWord(m[lead])
    requires forall k :: end <= k < |m| ==> IsSeparator(m[k])
    requires ClassifyStatement(m[0..NextSemi(m, 0)]) == None
    ensures |Ranges(sql, m, 0)| == 1 && KindsFrom(m, 0) == []
  {
    hide NextSemi, RangeOf, HasExecutableSql, ClassifyStatement, IsWord, IsSeparator, Ranges, KindsFrom;
    RangesUnfold(sql, m, 0);
    KindsUnfold(m, 0);
    var e := NextSemi(m, 0);
    assert m[0..e][lead] == m[lead];
    WordIsExecutable(m[0..e], lead);
    if e < |m| {
      SeparatorsHoldNothing(sql, m, e + 1);
    }
  }

  lemma FirstSegmentIsHarmless(m: string, lead: nat, end: nat)
    requires lead < end <= NextSemi(m, 0) && ClassifyStatement(m[lead..end]) == None
    requires forall k :: 0 <= k < lead ==> IsSpace(m[k])
    requires forall k :: end <= k < |m| ==> IsSeparator(m[k])
    ensures ClassifyStatement(m[0..NextSemi(m, 0)]) == None
  {
    hide ClassifyStatement, NextSemi;
    var e := NextSemi(m, 0);
    assert AllSpace(m[0..lead]);
    assert AllInert(m[end..e]) by {
      forall k | end <= k < e ensures IsInert(m[k]) { NoSemiInSegment(m, 0, k); }
    }
    SplitInThree(m, 0, lead, end, e);
    ClassifyPadded(m[0..lead], m[lead..end], m[end..e]);
  }

  /** The read-only gate never passes a script that the splitter cuts in two or the danger check flags. */
  lemma ReadOnlyIsSafe(sql: string, d: Driver, vetoes: (string, string) -> bool)
    requires IsReadOnlySql(sql, d, vetoes)
    ensures |Statements(sql, d)| == 1 && DangerKinds(sql, d) == []
    ensures d == Unknown ==>
              var m := Mask(sql, DefaultRules(d).(dashSpace := true));
              |Ranges(sql, m, 0)| == 1 && KindsFrom(m, 0) == []
  {
    hide IsReadOnlyMasked, Mask, Ranges, KindsFrom;
    ReadOnlyIsOneStatement(sql, DefaultRules(d), vetoes);
    if d == Unknown {
      ReadOnlyIsOneStatement(sql, DefaultRules(d).(dashSpace := true), vetoes);
    }
  }
}
