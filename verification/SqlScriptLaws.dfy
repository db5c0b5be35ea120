/** Laws of the splitter that follow from the locality of the mask. */
module SqlScriptLaws {
  import opened Text
  import opened MaskSpec
  import opened MaskLocality
  import opened SqlScript

  // --- every range is a piece of the script ---

  lemma SpaceIsPlain(s: string, r: Rules, i: nat)
    requires i < |s| && IsSpace(s[i])
    ensures TokenAt(s, r, i).next == i + 1
  {
  }

  lemma {:induction false} SpacesAreReached(s: string, r: Rules, a: nat, f: nat)
    requires a <= f <= |s| && forall k :: a <= k < f ==> IsSpace(s[k])
    ensures Reach(s, r, a, f)
    decreases f - a
  {
    hide TokenAt, IsSpace;
    if a < f {
      SpaceIsPlain(s, r, a);
      SpacesAreReached(s, r, a + 1, f);
    }
  }

  /** A segment starts at the beginning or after a `;` that the scan reads as one. */
  ghost predicate SegStart(s: string, r: Rules, a: nat) {
    a <= |s| && !r.keepIdent && Reach(s, r, 0, a) && (a == 0 || s[a - 1] == ';')
  }

  lemma SegmentEnd(s: string, r: Rules, a: nat)
    requires SegStart(s, r, a)
    ensures var e := NextSemi(Mask(s, r), a);
            Reach(s, r, a, e) && (e < |s| ==> s[e] == ';' && SegStart(s, r, e + 1))
  {
    hide TokenAt, Mask, NextSemi;
    var e := NextSemi(Mask(s, r), a);
    if e < |s| {
      Survives(s, r, e);
      ReachBetween(s, r, 0, a, e);
      ReachStep(s, r, 0, e);
    } else {
      ReachEnd(s, r, a);
    }
  }

  lemma {:induction false} ClosersRemoved(m: string, c: char)
    requires c in RemoveClosers(m)
    ensures c in m
  {
    if StartsWithCloser(m) {
      ClosersRemoved(m[2..], c);
    } else if c != m[0] {
      ClosersRemoved(m[1..], c);
    }
  }

  lemma ExecutableIsSolid(m: string) returns (k: nat)
    requires HasExecutableSql(m)
    ensures k < |m| && !IsSpace(m[k])
  {
    var c :| c in RemoveClosers(m) && !IsSpace(c);
    ClosersRemoved(m, c);
    k :| k < |m| && m[k] == c;
  }

  /** `g` is the trimmed, non-empty extent of the segment `[a, e)`. */
  ghost predicate IsTrimmed(s: string, g: StatementRange, a: nat, e: nat) {
    && a <= g.from < g.to <= e <= |s| && g.text == s[g.from..g.to]
    && !IsSpace(s[g.from]) && !IsSpace(s[g.to - 1])
    && (forall k :: a <= k < g.from || g.to <= k < e ==> IsSpace(s[k]))
  }

  lemma RangeIsTrimmed(s: string, a: nat, e: nat, k: nat)
    requires a <= k < e <= |s| && !IsSpace(s[k])
    ensures IsTrimmed(s, RangeOf(s, a, e), a, e)
  {
    hide IsSpace, TrimStartAt, TrimEndAt, IsTrimmed;
    var raw := s[a..e];
    assert raw[k - a] == s[k];
    TrimBounds(raw);
    var i, j := TrimStartAt(raw), TrimEndAt(raw);
    assert i < j && Trim(raw) == raw[i..j];
    TrimmedSlice(s, raw, a, e, i, j);
  }

  lemma TrimmedSlice(s: string, raw: string, a: nat, e: nat, i: nat, j: nat)
    requires a <= e <= |s| && raw == s[a..e] && i < j <= |raw|
    requires (forall k :: 0 <= k < i || j <= k < |raw| ==> IsSpace(raw[k])) && !IsSpace(raw[i]) && !IsSpace(raw[j - 1])
    ensures IsTrimmed(s, StatementRange(a + i, a + j, raw[i..j]), a, e)
  {
    hide IsSpace;
    SliceInWindow(raw, s, a, e, a + i, a + j);
    forall k | a <= k < a + i || a + j <= k < e ensures IsSpace(s[k]) {
      assert s[k] == raw[k - a];
    }
  }

  /** The range of a segment that can be executed is trimmed and a piece of the script. */
  lemma RangeIsPiece(s: string, r: Rules, a: nat)
    requires SegStart(s, r, a)
    requires HasExecutableSql(Mask(s, r)[a..NextSemi(Mask(s, r), a)])
    ensures var e := NextSemi(Mask(s, r), a);
            var g := RangeOf(s, a, e);
            IsTrimmed(s, g, a, e) && IsPiece(s, r, g.from, g.to, e)
  {
    hide TokenAt, HasExecutableSql, NextSemi, MaskedChar, RangeOf;
    var m := Mask(s, r);
    var e := NextSemi(m, a);
    var k := ExecutableIsSolid(m[a..e]);
    MaskShape(s, r, a + k);
    assert m[a..e][k] == m[a + k];
    RangeIsTrimmed(s, a, e, a + k);
    TrimmedIsPiece(s, r, a, e, RangeOf(s, a, e));
  }

  lemma TrimmedIsPiece(s: string, r: Rules, a: nat, e: nat, g: StatementRange)
    requires SegStart(s, r, a) && e == NextSemi(Mask(s, r), a) && IsTrimmed(s, g, a, e)
    ensures IsPiece(s, r, g.from, g.to, e)
  {
    hide TokenAt, NextSemi, Mask, Reach;
    SegmentEnd(s, r, a);
    SpacesAreReached(s, r, a, g.from);
    ReachTrans(s, r, 0, a, g.from);
    ReachBetween(s, r, a, g.from, e);
  }

  /** The ranges of the segments after the one at `a`. */
  function RestRanges(s: string, m: string, a: nat): seq<StatementRange>
    requires |m| == |s| && a <= |m|
  {
    var e := NextSemi(m, a);
    if e < |m| then Ranges(s, m, e + 1) else []
  }

  lemma RangesUnfold(s: string, m: string, a: nat)
    requires |m| == |s| && a <= |m|
    ensures var e := NextSemi(m, a);
            && (HasExecutableSql(m[a..e]) ==> Ranges(s, m, a) == [RangeOf(s, a, e)] + RestRanges(s, m, a))
            && (!HasExecutableSql(m[a..e]) ==> Ranges(s, m, a) == RestRanges(s, m, a))
  {
    hide NextSemi, HasExecutableSql, RangeOf;
  }

  /** A range is a trimmed, non-empty slice of the script that starts at `a` or later. */
  ghost predicate IsSlice(s: string, g: StatementRange, a: nat) {
    && a <= g.from < g.to <= |s| && g.text == s[g.from..g.to]
    && !IsSpace(s[g.from]) && !IsSpace(s[g.to - 1])
  }

  ghost predicate InOrder(s: string, rs: seq<StatementRange>, a: nat) {
    && (forall i :: 0 <= i < |rs| ==> IsSlice(s, rs[i], a))
    && (forall i, j :: 0 <= i < j < |rs| ==> rs[i].to < rs[j].from)
  }

  lemma {:induction false} RangesInOrder(s: string, r: Rules, a: nat)
    requires SegStart(s, r, a)
    ensures InOrder(s, Ranges(s, Mask(s, r), a), a)
    decreases |s| - a
  {
    hide TokenAt, HasExecutableSql, NextSemi, Mask, RangeOf, IsPiece, SegStart, IsTrimmed, InOrder, Ranges;
    var m := Mask(s, r);
    assert a <= |m| by { SegStartBound(s, r, a); }
    var e := NextSemi(m, a);
    if HasExecutableSql(m[a..e]) {
      RangeIsPiece(s, r, a);
    }
    SegmentEnd(s, r, a);
    NothingInOrder(s, e + 1);
    if e < |m| {
      RangesInOrder(s, r, e + 1);
    }
    RangesStep(s, m, a);
    InOrderStep(s, Segment(s, m, a, e), if e < |m| then Ranges(s, m, e + 1) else [], a, e);
  }

  lemma RangesStep(s: string, m: string, a: nat)
    requires |m| == |s| && a <= |m|
    ensures var e := NextSemi(m, a);
            Ranges(s, m, a) == Segment(s, m, a, e) + (if e < |m| then Ranges(s, m, e + 1) else [])
  {
    hide NextSemi, Segment;
  }

  lemma NothingInOrder(s: string, a: nat)
    ensures InOrder(s, [], a)
  {
  }

  lemma InOrderStep(s: string, first: seq<StatementRange>, rest: seq<StatementRange>, a: nat, e: nat)
    requires a <= e && |first| <= 1 && InOrder(s, rest, e + 1)
    requires first != [] ==> IsTrimmed(s, first[0], a, e)
    ensures InOrder(s, first + rest, a)
  {
    hide IsSpace;
    assert forall i :: 0 <= i < |rest| ==> IsSlice(s, rest[i], a);
  }

  lemma SegStartBound(s: string, r: Rules, a: nat)
    requires SegStart(s, r, a)
    ensures a <= |s|
  {
  }

  /** The statements of a script are ordered, disjoint, trimmed slices of it. */
  lemma StatementRangesInOrder(s: string, d: Driver)
    ensures InOrder(s, StatementRanges(s, d), 0)
  {
    RangesInOrder(s, DefaultRules(d), 0);
  }
}
