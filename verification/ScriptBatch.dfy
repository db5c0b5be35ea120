/** The batch from the cursor's statement to the last one splits into exactly those statements. */
module ScriptBatch {
  import opened Text
  import opened MaskSpec
  import opened MaskLocality
  import opened SqlScript
  import opened SqlScriptLaws
  import opened SplitLaws
  import opened ScriptRoundTrip
  import opened ScriptTheorems

  /** The segment that holds the `i`-th statement starts at `c` and ends at `e`. */
  ghost predicate HoldsStatement(s: string, r: Rules, rs: seq<StatementRange>, i: nat, c: nat, e: nat)
    requires i < |rs|
  {
    && SegStart(s, r, c) && e == NextSemi(Mask(s, r), c)
    && HasExecutableSql(Mask(s, r)[c..e]) && rs[i] == RangeOf(s, c, e)
    && rs[i..] == Ranges(s, Mask(s, r), c)
  }

  lemma {:induction false} FindSegment(s: string, r: Rules, a: nat, rs: seq<StatementRange>, i: nat)
    returns (c: nat, e: nat)
    requires SegStart(s, r, a) && rs == Ranges(s, Mask(s, r), a) && i < |rs|
    ensures a <= c && HoldsStatement(s, r, rs, i, c, e)
    decreases |s| - a
  {
    hide Mask, NextSemi, Reach, RangeOf, HasExecutableSql, Ranges;
    var m := Mask(s, r);
    SegmentEnd(s, r, a);
    RangesUnfold(s, m, a);
    e := NextSemi(m, a);
    var rest := RestRanges(s, m, a);
    if HasExecutableSql(m[a..e]) && i == 0 {
      c := a;
      assert rs[0..] == rs;
    } else {
      var j := if HasExecutableSql(m[a..e]) then i - 1 else i;
      assert rs[i] == rest[j] && rs[i..] == rest[j..];
      c, e := FindSegment(s, r, e + 1, rest, j);
    }
  }

  /** What a window that ends with the last statement shows in place of the mask. */
  ghost predicate Shows(s: string, m: string, m': string, x: nat, last: nat, g: nat) {
    && x <= last <= g <= |m| == |s| && |m'| == g
    && (forall k :: x <= k < last ==> m'[k] == m[k])
    && NoSemi(m'[last..g])
  }

  /** The statements of a window: all but the last as in the script, the last if its own mask allows. */
  ghost function WindowTexts(rs: seq<StatementRange>, lastMask: string): seq<string>
    requires rs != []
  {
    TextsOf(rs[..|rs| - 1]) + (if HasExecutableSql(lastMask) then [rs[|rs| - 1].text] else [])
  }

  /** What the splitter finds in `[x, g)` when it is shown `m'` there. */
  ghost predicate WindowReads(s: string, m': string, x: nat, g: nat, texts: seq<string>) {
    x <= g <= |s| && g <= |m'| && Texts(s[x..g], m'[x..g]) == texts
  }

  /** The window over the segment of its last statement. */
  lemma WindowOfLast(s: string, r: Rules, a: nat, x: nat, m': string)
    requires SegStart(s, r, a)
    requires HasExecutableSql(Mask(s, r)[a..NextSemi(Mask(s, r), a)])
    requires var g := RangeOf(s, a, NextSemi(Mask(s, r), a));
             a <= x <= g.from && Shows(s, Mask(s, r), m', x, g.from, g.to)
    ensures var g := RangeOf(s, a, NextSemi(Mask(s, r), a));
            Texts(s[x..g.to], m'[x..g.to]) == if HasExecutableSql(m'[g.from..g.to]) then [g.text] else []
  {
    hide Mask, NextSemi, Reach, RangeOf, HasExecutableSql, Texts, IsPiece, SegStart;
    var m := Mask(s, r);
    var g := RangeOf(s, a, NextSemi(m, a));
    RangeIsPiece(s, r, a);
    MaskOfSpace(s, r, x, g.from);
    TrimmedIsSolid(s, g, a, NextSemi(m, a));
    SplitInThree(s, x, g.from, g.to, g.to);
    SplitInThree(m', x, g.from, g.to, g.to);
    assert s[x..g.to] == s[x..g.from] + g.text;
    assert m'[x..g.from] == m[x..g.from];
    assert m'[x..g.to] == m'[x..g.from] + m'[g.from..g.to];
    TextsOfOne(s[x..g.from], m'[x..g.from], g.text, m'[g.from..g.to]);
  }

  lemma TextsOfFirstSegment(s: string, m: string, m': string, a: nat, x: nat, e: nat, g: nat, last: nat,
                            ts: seq<string>)
    requires a <= x <= e < last && |m| == |s| && Shows(s, m, m', x, last, g)
    requires e == NextSemi(m, a) && s[e] == ';'
    ensures e + 1 <= g && Shows(s, m, m', e + 1, last, g)
    ensures WindowReads(s, m', e + 1, g, ts) ==>
              WindowReads(s, m', x, g, (if HasExecutableSql(m[x..e]) then [Trim(s[x..e])] else []) + ts)
  {
    hide NextSemi, HasExecutableSql, Trim, Texts, CutAt;
    assert NoSemi(m[x..e]) by {
      forall k | x <= k < e ensures m[k] != ';' { NoSemiInSegment(m, a, k); }
    }
    assert m'[x..e] == m[x..e];
    SliceIsCut(s, x, e, g);
    SliceIsCut(m', x, e, g);
    TextsAtSemi(s[x..g], m'[x..g], s[x..e], m[x..e], s[e + 1..g], m'[e + 1..g]);
  }

  lemma SliceIsCut(s: string, x: nat, e: nat, g: nat)
    requires x <= e < g <= |s|
    ensures CutAt(s[x..g], s[x..e], s[e], s[e + 1..g])
  {
  }

  lemma SkippedSpace(s: string, r: Rules, a: nat, x: nat)
    requires SegStart(s, r, a)
    requires HasExecutableSql(Mask(s, r)[a..NextSemi(Mask(s, r), a)])
    requires a <= x <= RangeOf(s, a, NextSemi(Mask(s, r), a)).from
    ensures var e := NextSemi(Mask(s, r), a);
            x <= e && HasExecutableSql(Mask(s, r)[x..e]) && Trim(s[x..e]) == RangeOf(s, a, e).text
  {
    hide Mask, NextSemi, Reach, RangeOf, HasExecutableSql, Trim, IsPiece, SegStart;
    var m := Mask(s, r);
    var e := NextSemi(m, a);
    var g := RangeOf(s, a, e);
    RangeIsPiece(s, r, a);
    TrimmedIsSolid(s, g, a, e);
    MaskOfSpace(s, r, a, x);
    MaskOfSpace(s, r, x, g.from);
    MaskOfSpace(s, r, g.to, e);
    SplitInThree(s, x, g.from, g.to, e);
    TrimOfPadded(s[x..g.from], g.text, s[g.to..e]);
    assert m[a..e] == m[a..x] + m[x..e];
    LedBySpace(m[a..x], m[a..x], "x", m[x..e]);
  }

  /** Where a window may start in the segment at `a`: at its start, or up to its statement. */
  ghost predicate MayStart(s: string, m: string, a: nat, x: nat)
    requires |m| == |s| && a <= |m|
  {
    var e := NextSemi(m, a);
    x == a || (HasExecutableSql(m[a..e]) && a <= x <= RangeOf(s, a, e).from)
  }

  lemma StartFacts(s: string, r: Rules, a: nat, x: nat)
    requires SegStart(s, r, a) && MayStart(s, Mask(s, r), a, x)
    ensures var e := NextSemi(Mask(s, r), a);
            && a <= x <= e
            && HasExecutableSql(Mask(s, r)[x..e]) == HasExecutableSql(Mask(s, r)[a..e])
            && (HasExecutableSql(Mask(s, r)[a..e]) ==>
                  x <= RangeOf(s, a, e).from && Trim(s[x..e]) == RangeOf(s, a, e).text)
  {
    hide Mask, NextSemi, Reach, RangeOf, HasExecutableSql, Trim, IsPiece;
    if HasExecutableSql(Mask(s, r)[a..NextSemi(Mask(s, r), a)]) {
      RangeIsPiece(s, r, a);
      SkippedSpace(s, r, a, x);
    }
  }

  lemma DropLast(s: string, m: string, a: nat, rest: seq<StatementRange>, lm: string)
    requires |m| == |s| && a <= |m| && rest != [] && rest == RestRanges(s, m, a)
    ensures var e := NextSemi(m, a);
            && Ranges(s, m, a) != []
            && WindowTexts(Ranges(s, m, a), lm) ==
               (if HasExecutableSql(m[a..e]) then [RangeOf(s, a, e).text] else []) + WindowTexts(rest, lm)
  {
    hide NextSemi, HasExecutableSql, RangeOf, Ranges, RestRanges;
    RangesUnfold(s, m, a);
    var e := NextSemi(m, a);
    var rs := Ranges(s, m, a);
    if HasExecutableSql(m[a..e]) {
      assert rs[..|rs| - 1] == [RangeOf(s, a, e)] + rest[..|rest| - 1];
      assert TextsOf(rs[..|rs| - 1]) == [RangeOf(s, a, e).text] + TextsOf(rest[..|rest| - 1]);
    }
  }

  lemma SliceStarts(s: string, g: StatementRange, a: nat)
    requires IsSlice(s, g, a)
    ensures a <= g.from
  {
  }

  /** One segment of the window that is not its last. */
  lemma WindowStep(s: string, r: Rules, a: nat, x: nat, m': string, rest: seq<StatementRange>, lm: string)
    requires SegStart(s, r, a) && MayStart(s, Mask(s, r), a, x)
    requires rest != [] && rest == RestRanges(s, Mask(s, r), a)
    requires var last := rest[|rest| - 1]; Shows(s, Mask(s, r), m', x, last.from, last.to)
    ensures var e, last := NextSemi(Mask(s, r), a), rest[|rest| - 1];
            && e < |s| && SegStart(s, r, e + 1) && rest == Ranges(s, Mask(s, r), e + 1)
            && Shows(s, Mask(s, r), m', e + 1, last.from, last.to)
            && Ranges(s, Mask(s, r), a) != []
            && (WindowReads(s, m', e + 1, last.to, WindowTexts(rest, lm)) ==>
                  WindowReads(s, m', x, last.to, WindowTexts(Ranges(s, Mask(s, r), a), lm)))
  {
    hide Mask, NextSemi, Reach, RangeOf, HasExecutableSql, Trim, WindowReads, Ranges, Shows, WindowTexts, IsSpace,
         MayStart, IsSlice;
    var m := Mask(s, r);
    SegmentEnd(s, r, a);
    RangesUnfold(s, m, a);
    StartFacts(s, r, a, x);
    var e := NextSemi(m, a);
    var last := rest[|rest| - 1];
    RangesInOrder(s, r, e + 1);
    SliceStarts(s, last, e + 1);
    TextsOfFirstSegment(s, m, m', a, x, e, last.to, last.from, WindowTexts(rest, lm));
    DropLast(s, m, a, rest, lm);
  }

  lemma ShowsBounds(s: string, m: string, m': string, x: nat, last: nat, g: nat)
    requires Shows(s, m, m', x, last, g)
    ensures x <= last <= g <= |m| == |s| && |m'| == g
  {
  }

  lemma WindowBase(s: string, r: Rules, a: nat, x: nat, m': string)
    requires SegStart(s, r, a) && MayStart(s, Mask(s, r), a, x)
    requires HasExecutableSql(Mask(s, r)[a..NextSemi(Mask(s, r), a)])
    requires var g := RangeOf(s, a, NextSemi(Mask(s, r), a)); Shows(s, Mask(s, r), m', x, g.from, g.to)
    ensures var g := RangeOf(s, a, NextSemi(Mask(s, r), a));
            g.from <= g.to <= |s| && g.to == |m'| && WindowReads(s, m', x, g.to, WindowTexts([g], m'[g.from..g.to]))
  {
    hide Mask, NextSemi, RangeOf, HasExecutableSql, Texts, SegStart, MayStart, Trim;
    var g := RangeOf(s, a, NextSemi(Mask(s, r), a));
    StartFacts(s, r, a, x);
    WindowOfLast(s, r, a, x, m');
    assert [g][..|[g]| - 1] == [];
  }

  /** The last range is that of the segment itself, or that of the segments after it. */
  lemma LastRange(s: string, m: string, a: nat)
    requires |m| == |s| && a <= |m| && Ranges(s, m, a) != []
    ensures var rs, rest, e := Ranges(s, m, a), RestRanges(s, m, a), NextSemi(m, a);
            if rest == [] then HasExecutableSql(m[a..e]) && rs == [RangeOf(s, a, e)]
            else rs[|rs| - 1] == rest[|rest| - 1]
  {
    hide NextSemi, RangeOf, HasExecutableSql, Ranges, RestRanges;
    RangesUnfold(s, m, a);
  }

  lemma {:induction false} WindowSplits(s: string, r: Rules, a: nat, x: nat, m': string, rs: seq<StatementRange>)
    requires SegStart(s, r, a) && rs == Ranges(s, Mask(s, r), a) && rs != [] && MayStart(s, Mask(s, r), a, x)
    requires Shows(s, Mask(s, r), m', x, rs[|rs| - 1].from, rs[|rs| - 1].to)
    ensures var last := rs[|rs| - 1];
            && x <= last.from <= last.to <= |s| && last.to == |m'|
            && WindowReads(s, m', x, last.to, WindowTexts(rs, m'[last.from..last.to]))
    decreases |s| - a
  {
    hide Mask, NextSemi, RangeOf, HasExecutableSql, WindowReads, Ranges, Shows, SegStart, WindowTexts, MayStart,
         RestRanges, TextsOf;
    var m := Mask(s, r);
    var last := rs[|rs| - 1];
    ShowsBounds(s, m, m', x, last.from, last.to);
    var lm := m'[last.from..last.to];
    SegStartBound(s, r, a);
    var e := NextSemi(m, a);
    var rest := RestRanges(s, m, a);
    LastRange(s, m, a);
    if rest == [] {
      WindowBase(s, r, a, x, m');
    } else {
      WindowStep(s, r, a, x, m', rest, lm);
      assert MayStart(s, m, e + 1, e + 1) by { StartIsAllowed(s, m, e + 1); }
      WindowSplits(s, r, e + 1, e + 1, m', rest);
    }
  }

  lemma StartIsAllowed(s: string, m: string, a: nat)
    requires |m| == |s| && a <= |m|
    ensures MayStart(s, m, a, a)
  {
  }

  // --- the batch ---

  /** Two pieces with a common end lose a final `--` together. */
  lemma DashLostTogether(s: string, r: Rules, f: nat, f': nat, g: nat, b: nat)
    requires IsPiece(s, r, f, g, b) && IsPiece(s, r, f', g, b) && f <= f' < g
    requires f < f' ==> IsSpace(s[f' - 1]) || s[f' - 1] == ';'
    ensures DashLost(s, r, f, g) == DashLost(s, r, f', g)
    ensures DashLost(s, r, f, g) ==> f' + 2 <= g
  {
    hide Mask, Reach, TokenAt;
    if f' + 2 <= g {
      DashLostSurvives(s, r, f, g, b);
      DashLostSurvives(s, r, f', g, b);
    }
  }

  /**
   * The batch cut out from the cursor on splits into the chosen statement and all later ones,
   * if and only if the last of them still has something to execute when it is masked alone.
   */
  lemma BatchSplits(s: string, d: Driver, offset: nat)
    requires StatementRanges(s, d) != []
    ensures var rs := StatementRanges(s, d);
            var ts := Statements(s, d);
            var k := FirstFrom(rs, offset);
            var batch := StatementsFromOffset(s, offset, d).value;
            && batch.0 < batch.1 <= |s|
            && (Statements(s[batch.0..batch.1], d) == ts[k..] <==>
                HasExecutableSql(Mask(ts[|ts| - 1], DefaultRules(d))))
  {
    hide Mask, Reach, Ranges, TextsOf, HasExecutableSql, RangeOf, NextSemi, Texts, FirstFrom, WindowTexts;
    var r := DefaultRules(d);
    var rs := StatementRanges(s, d);
    var k := FirstFrom(rs, offset);
    var f, last := rs[k].from, rs[|rs| - 1];
    StatementRangesInOrder(s, d);
    Bounds(s, rs, k);
    ReachSelf(s, r, 0);
    BatchTexts(s, r, rs, k);
    var u := s[f..last.to];
    TextsAreRanges(u, Mask(u, r), 0);
    assert u[0..] == u && Mask(u, r)[0..] == Mask(u, r);
    WindowTextsAreAll(rs, k, Mask(last.text, r));
  }

  lemma WindowTextsAreAll(rs: seq<StatementRange>, k: nat, lastMask: string)
    requires k < |rs|
    ensures WindowTexts(rs[k..], lastMask) == TextsOf(rs)[k..] <==> HasExecutableSql(lastMask)
    ensures TextsOf(rs)[|rs| - 1] == rs[|rs| - 1].text
  {
    hide HasExecutableSql;
    var tail := rs[k..];
    assert TextsOf(rs)[k..] == TextsOf(tail);
    assert |WindowTexts(tail, lastMask)| == |tail| - (if HasExecutableSql(lastMask) then 0 else 1);
    assert TextsOf(tail) == TextsOf(tail[..|tail| - 1]) + [tail[|tail| - 1].text];
  }

  lemma PieceFromEarlier(s: string, r: Rules, f: nat, g: nat, b: nat, f': nat, g': nat, b': nat)
    requires IsPiece(s, r, f, g, b) && IsPiece(s, r, f', g', b') && f <= f'
    ensures IsPiece(s, r, f, g', b')
  {
    hide TokenAt;
    ReachTrans(s, r, 0, f', b');
    ReachBetween(s, r, 0, f, b');
  }

  lemma BeforeStatement(s: string, r: Rules, c: nat, e: nat, g: StatementRange)
    requires SegStart(s, r, c) && IsTrimmed(s, g, c, e)
    ensures g.from == 0 || IsSpace(s[g.from - 1]) || s[g.from - 1] == ';'
  {
    hide IsSpace, Reach;
  }

  /** The window mask of a batch is its own mask, put in place; over the last statement it is that one's mask. */
  lemma WindowShows(s: string, m: string, f: nat, last: nat, g: nat, lost: bool, m': string)
    requires f <= last < g <= |m| == |s| && (lost ==> last + 2 <= g)
    requires m' == m[..f] + PieceMask(m, lost, f, g)
    requires NoSemi(PieceMask(m, lost, last, g))
    ensures Shows(s, m, m', f, last, g) && m'[f..g] == PieceMask(m, lost, f, g)
    ensures m'[last..g] == PieceMask(m, lost, last, g)
  {
    hide NoSemi;
    PieceMaskLength(m, lost, f, g);
    PieceMaskLength(m, lost, last, g);
    assert |m'| == g;
    assert m'[f..g] == PieceMask(m, lost, f, g);
    forall k | f <= k < g ensures m'[k] == if lost && k >= g - 2 then ' ' else m[k] {
      PieceMaskAt(m, lost, f, g, k - f);
    }
    forall x | 0 <= x < g - last ensures m'[last..g][x] == PieceMask(m, lost, last, g)[x] {
      PieceMaskAt(m, lost, last, g, x);
    }
    assert m'[last..g] == PieceMask(m, lost, last, g);
  }

  /** The batch and its last statement are pieces that lose a final `--` together. */
  lemma TrimmedBounds(s: string, g: StatementRange, a: nat, e: nat)
    requires IsTrimmed(s, g, a, e)
    ensures g.from < g.to <= e <= |s| && g.text == s[g.from..g.to]
  {
  }

  lemma BatchMasks(s: string, r: Rules, g: StatementRange, c: nat, e: nat, last: StatementRange, c': nat, e': nat)
    requires SegStart(s, r, c') && IsPiece(s, r, g.from, g.to, e)
    requires e' == NextSemi(Mask(s, r), c') && HasExecutableSql(Mask(s, r)[c'..e'])
    requires last == RangeOf(s, c', e') && g.from <= last.from
    ensures last.from < last.to <= |s| && last.text == s[last.from..last.to]
    ensures DashLost(s, r, last.from, last.to) == DashLost(s, r, g.from, last.to)
    ensures DashLost(s, r, g.from, last.to) ==> last.from + 2 <= last.to
    ensures Mask(s[g.from..last.to], r) == PieceMask(Mask(s, r), DashLost(s, r, g.from, last.to), g.from, last.to)
    ensures Mask(last.text, r) == PieceMask(Mask(s, r), DashLost(s, r, g.from, last.to), last.from, last.to)
  {
    hide Mask, HasExecutableSql, RangeOf, NextSemi, PieceMask, SegStart, IsPiece, DashLost, IsSpace, IsTrimmed;
    RangeIsPiece(s, r, c');
    TrimmedBounds(s, last, c', e');
    BeforeStatement(s, r, c', e', last);
    PieceFromEarlier(s, r, g.from, g.to, e, last.from, last.to, e');
    MaskOfPiece(s, r, g.from, last.to, e');
    MaskOfPiece(s, r, last.from, last.to, e');
    DashLostTogether(s, r, g.from, last.from, last.to, e');
  }

  lemma BatchTexts(s: string, r: Rules, rs: seq<StatementRange>, k: nat)
    requires SegStart(s, r, 0) && rs == Ranges(s, Mask(s, r), 0) && k < |rs| && InOrder(s, rs, 0)
    ensures var last := rs[|rs| - 1];
            && rs[k].from < last.to <= |s|
            && var u := s[rs[k].from..last.to];
               Texts(u, Mask(u, r)) == WindowTexts(rs[k..], Mask(last.text, r))
  {
    hide Mask, Ranges, HasExecutableSql, RangeOf, NextSemi, Texts, TextsOf, PieceMask, SegStart, IsPiece,
      DashLost, Shows, NoSemi, IsSlice, WindowTexts, EndsInDashes, Solid;
    var m := Mask(s, r);
    var n := |rs| - 1;
    Bounds(s, rs, k);
    var f, last := rs[k].from, rs[n];
    var c, e := FindSegment(s, r, 0, rs, k);
    var c', e' := FindSegment(s, r, 0, rs, n);
    RangeIsPiece(s, r, c);
    BatchMasks(s, r, rs[k], c, e, last, c', e');
    StatementMask(s, r, c');
    var m' := m[..f] + PieceMask(m, DashLost(s, r, f, last.to), f, last.to);
    WindowShows(s, m, f, last.from, last.to, DashLost(s, r, f, last.to), m');
    assert rs[k..][|rs[k..]| - 1] == last;
    WindowSplits(s, r, c, f, m', rs[k..]);
  }

  lemma Bounds(s: string, rs: seq<StatementRange>, k: nat)
    requires InOrder(s, rs, 0) && k < |rs|
    ensures var last := rs[|rs| - 1]; rs[k].from <= last.from < last.to <= |s| && last.text == s[last.from..last.to]
  {
    hide IsSpace;
    assert IsSlice(s, rs[k], 0) && IsSlice(s, rs[|rs| - 1], 0);
  }
}
