/**
 * The mask is local: a piece of a script that stands between two token boundaries is masked
 * the same way on its own as inside the script.
 */
module MaskLocality {
  import opened Text
  import opened MaskSpec

  /** A character that cannot extend a token from the left: white space, `;` and the like. */
  predicate NeutralBefore(s: string, a: nat)
    requires a <= |s|
  {
    a == 0 || (!IsPgIdent(s[a - 1]) && !IsDelimiter(s[a - 1]))
  }

  predicate QuietChar(c: char) { c == ';' || IsSpace(c) }

  /** The text beyond `b` cannot extend a token that ends at `b`. */
  predicate QuietAfter(s: string, b: nat)
    requires b <= |s|
  {
    b == |s| || QuietChar(s[b])
  }

  /** The one look-ahead that differs at the end of a text: `--` before `;` is no comment in MySQL. */
  predicate DashAtEdge(s: string, r: Rules, b: nat, i: nat)
    requires i < b <= |s|
  {
    r.dashSpace && b < |s| && !DashStartsComment(s, b) && i + 2 == b && s[i] == '-' && s[i + 1] == '-'
  }

  /** What a window ending at `b` makes of the token `t`: a token that runs past `b` is cut off there. */
  function CutToken(t: Token, a: nat, b: nat): Token
    requires a <= t.lo <= t.hi <= t.next && t.lo <= b
  {
    if t.next <= b then t.(lo := t.lo - a, hi := t.hi - a, next := t.next - a)
    else Token(t.kind, t.lo - a, (if t.hi <= b then t.hi else b) - a, b - a, t.kind == LineComment)
  }

  /** `u` is the part `[a, b)` of `s`. */
  predicate IsWindow(u: string, s: string, a: nat, b: nat) {
    a <= b <= |s| && |u| == b - a && (forall k :: a <= k < b ==> u[k - a] == s[k])
  }

  function CutEnd(e: (nat, bool), a: nat, b: nat): (nat, bool)
    requires a <= b && a <= e.0
  {
    if e.0 <= b then (e.0 - a, e.1) else (b - a, false)
  }

  lemma QuoteStepInWindow(u: string, s: string, a: nat, b: nat, j: nat, q: char, escapes: bool)
    requires a <= j < b && IsWindow(u, s, a, b) && QuietAfter(s, b) && IsQuote(q)
    ensures var d, d' := QuoteStep(s, j, q, escapes), QuoteStep(u, j - a, q, escapes);
            if j + d <= b then d' == d else d' == 1 && j + 1 == b && d == 2
  {
    assert u[j - a] == s[j] && (j + 1 < b ==> u[j + 1 - a] == s[j + 1]);
  }

  lemma {:induction false} QuoteEndInWindow(u: string, s: string, a: nat, b: nat, j: nat, q: char, escapes: bool)
    requires a <= j <= b <= |s| && |u| == b - a && IsWindow(u, s, a, b) && QuietAfter(s, b) && IsQuote(q)
    ensures QuoteEnd(u, j - a, q, escapes) == CutEnd(QuoteEnd(s, j, q, escapes), a, b)
    decreases b - j
  {
    hide QuoteStep, IsWindow, IsQuote, QuietAfter;
    if j < b {
      QuoteStepInWindow(u, s, a, b, j, q, escapes);
      var d := QuoteStep(s, j, q, escapes);
      if 0 < d && j + d <= b {
        QuoteEndInWindow(u, s, a, b, j + d, q, escapes);
      }
    }
  }

  /** The word behind a `$` ends inside the window, and what stands there is the same. */
  lemma TagRunInWindow(u: string, s: string, a: nat, b: nat, i: nat)
    requires a <= i < b <= |s| && u == s[a..b] && QuietAfter(s, b)
    ensures var j := RunEnd(s, i + 1, IsWord);
            j <= b && RunEnd(u, i + 1 - a, IsWord) == j - a && Is(u, j - a, '$') == Is(s, j, '$')
  {
    hide RunEnd;
    RunEndInWindow(s, a, b, i + 1, IsWord);
    if b < RunEnd(s, i + 1, IsWord) {
      RunEndStays(s, i + 1, IsWord, b);
    }
  }

  lemma DollarTagInWindow(u: string, s: string, a: nat, b: nat, i: nat)
    requires a <= i < b <= |s| && u == s[a..b] && QuietAfter(s, b) && s[i] == '$'
    ensures DollarTag(u, i - a) == DollarTag(s, i)
    ensures i + |DollarTag(s, i)| <= b
  {
    hide RunEnd, IsDigit, IsWord;
    TagRunInWindow(u, s, a, b, i);
    var j := RunEnd(s, i + 1, IsWord);
    assert i + 1 < b ==> u[i + 1 - a] == s[i + 1];
    DigitIsNotQuiet(s, b);
    hide QuietAfter;
    if Is(s, j, '$') {
      DollarIsNotQuiet(s, b);
      SliceInWindow(u, s, a, b, i, j + 1);
    }
  }

  lemma DigitIsNotQuiet(s: string, b: nat)
    requires b <= |s| && QuietAfter(s, b)
    ensures b < |s| ==> !IsDigit(s[b])
  {
  }

  lemma DollarIsNotQuiet(s: string, b: nat)
    requires b <= |s| && QuietAfter(s, b)
    ensures !Is(s, b, '$')
  {
  }

  lemma SliceInWindow(u: string, s: string, a: nat, b: nat, i: nat, j: nat)
    requires a <= i <= j <= b <= |s| && u == s[a..b]
    ensures u[i - a..j - a] == s[i..j]
  {
    assert forall x :: 0 <= x < j - i ==> u[i - a..j - a][x] == u[i - a + x] == s[i + x] == s[i..j][x];
  }

  lemma LookBehindInWindow(u: string, s: string, r: Rules, a: nat, b: nat, i: nat)
    requires a <= i < b && IsWindow(u, s, a, b) && NeutralBefore(s, a)
    ensures DollarMayOpen(u, i - a) == DollarMayOpen(s, i)
    ensures BackslashEscapes(u, r, i - a) == BackslashEscapes(s, r, i)
  {
    assert i > a ==> u[i - 1 - a] == s[i - 1];
    assert i > a + 1 ==> u[i - 2 - a] == s[i - 2];
  }

  lemma LookAheadInWindow(u: string, s: string, r: Rules, a: nat, b: nat, i: nat)
    requires a <= i < b && IsWindow(u, s, a, b) && QuietAfter(s, b) && !DashAtEdge(s, r, b, i)
    ensures DashComment(u, r, i - a) == DashComment(s, r, i)
    ensures Is(u, i - a + 1, '*') == Is(s, i + 1, '*')
    ensures Is(s, i + 1, '*') ==> i + 2 <= b && Is(u, i - a + 2, '!') == Is(s, i + 2, '!')
    ensures Is(s, i + 1, '*') && Is(s, i + 2, '!') ==> i + 3 <= b
    ensures DashComment(s, r, i) ==> i + 2 <= b
  {
    assert i + 1 < b ==> u[i + 1 - a] == s[i + 1];
    assert i + 2 < b ==> u[i + 2 - a] == s[i + 2];
  }

  /** Between neutral edges the decision at a position needs nothing outside the window. */
  lemma OpeningInWindow(u: string, s: string, r: Rules, a: nat, b: nat, i: nat)
    requires a <= i < b <= |s| && u == s[a..b] && NeutralBefore(s, a) && QuietAfter(s, b)
    requires !DashAtEdge(s, r, b, i)
    ensures OpeningAt(u, r, i - a) == OpeningAt(s, r, i)
    ensures OpeningFits(s, i, OpeningAt(s, r, i), b)
  {
    LookBehindInWindow(u, s, r, a, b, i);
    LookAheadInWindow(u, s, r, a, b, i);
    if s[i] == '$' {
      DollarTagInWindow(u, s, a, b, i);
    }
  }

  /** A token that does not run past the edge of the window, or is a comment or literal that does. */
  predicate Cuttable(t: Token, b: nat) {
    t.next > b ==> t.kind != DollarQuote && t.kind != Bracket
  }

  lemma SearchInWindow(u: string, s: string, r: Rules, a: nat, b: nat, i: nat, o: Opening)
    requires a <= i < b <= |s| && u == s[a..b] && !r.keepIdent
    requires o.OpensSearch? && OpeningFits(s, i, o, b)
    requires Cuttable(TokenFor(s, r, i, o), b)
    ensures OpeningFits(u, i - a, o, |u|) && TokenFor(s, r, i, o).next <= b
    ensures TokenFor(u, r, i - a, o) == CutToken(TokenFor(s, r, i, o), a, b)
  {
    hide IndexOf;
    assert u[i - a] == s[i];
    IndexOfInWindow(s, a, b, o.until, i + o.skip);
  }

  lemma QuoteInWindow(u: string, s: string, r: Rules, a: nat, b: nat, i: nat, o: Opening)
    requires a <= i < b && IsWindow(u, s, a, b) && QuietAfter(s, b) && !r.keepIdent
    requires o.OpensQuote? && OpeningFits(s, i, o, b)
    ensures OpeningFits(u, i - a, o, |u|) && TokenFor(s, r, i, o).lo <= b
    ensures TokenFor(u, r, i - a, o) == CutToken(TokenFor(s, r, i, o), a, b)
  {
    hide QuoteEnd, QuietAfter;
    assert u[i - a] == s[i];
    QuoteEndInWindow(u, s, a, b, i + 1, s[i], o.escapes);
  }

  lemma BlockInWindow(u: string, s: string, r: Rules, a: nat, b: nat, i: nat)
    requires a <= i && i + 2 <= b <= |s| && u == s[a..b]
    ensures TokenFor(s, r, i, OpensBlock).lo <= b
    ensures TokenFor(u, r, i - a, OpensBlock) == CutToken(TokenFor(s, r, i, OpensBlock), a, b)
  {
    hide IndexOf, MatchAt;
    IndexOfInWindow(s, a, b, "*/", i + 2);
  }

  lemma RunInWindow(u: string, s: string, r: Rules, a: nat, b: nat, i: nat, o: Opening)
    requires a <= i < b <= |s| && u == s[a..b] && QuietAfter(s, b)
    requires (o.OpensLineComment? || o.OpensVersion?) && OpeningFits(s, i, o, b)
    ensures TokenFor(s, r, i, o).lo <= b
    ensures TokenFor(u, r, i - a, o) == CutToken(TokenFor(s, r, i, o), a, b)
  {
    hide RunEnd;
    if o.OpensVersion? {
      RunEndInWindow(s, a, b, i + 3, IsDigit);
      if b < RunEnd(s, i + 3, IsDigit) {
        RunEndStays(s, i + 3, IsDigit, b);
      }
    } else {
      RunEndInWindow(s, a, b, i + o.skip, NotNewline);
    }
  }

  /** Inside a window between neutral edges every token is the token of the whole text, cut at the edge. */
  lemma TokenInWindow(u: string, s: string, r: Rules, a: nat, b: nat, i: nat)
    requires a <= i < b <= |s| && u == s[a..b] && NeutralBefore(s, a) && QuietAfter(s, b)
    requires !r.keepIdent && !DashAtEdge(s, r, b, i)
    requires Cuttable(TokenAt(s, r, i), b)
    ensures TokenAt(s, r, i).lo <= b
    ensures TokenAt(u, r, i - a) == CutToken(TokenAt(s, r, i), a, b)
  {
    OpeningInWindow(u, s, r, a, b, i);
    match OpeningAt(s, r, i)
    case OpensNothing =>
    case OpensSearch(_, _) => SearchInWindow(u, s, r, a, b, i, OpeningAt(s, r, i));
    case OpensQuote(_) => QuoteInWindow(u, s, r, a, b, i, OpeningAt(s, r, i));
    case OpensBlock => BlockInWindow(u, s, r, a, b, i);
    case _ => RunInWindow(u, s, r, a, b, i, OpeningAt(s, r, i));
  }

  /**
   * `[from, to)` is a piece of the script: the scan stops at `from` and at `b`, `b` is a surviving
   * `;` or the end, and only white space stands between `to` and `b`.
   */
  ghost predicate IsPiece(s: string, r: Rules, from: nat, to: nat, b: nat) {
    && from <= to <= b <= |s| && !r.keepIdent
    && Reach(s, r, 0, from) && NeutralBefore(s, from) && Reach(s, r, from, b)
    && (b < |s| ==> s[b] == ';')
    && (forall k :: to <= k < b ==> IsSpace(s[k]))
  }

  /** The piece ends in a `--` that MySQL reads as two minus signs only because a `;` follows. */
  ghost predicate DashLost(s: string, r: Rules, from: nat, to: nat)
    requires from <= to <= |s|
  {
    r.dashSpace && to < |s| && s[to] == ';' && from + 2 <= to &&
    s[to - 2] == '-' && s[to - 1] == '-' && Reach(s, r, from, to - 2)
  }

  predicate SolidEnd(s: string, t: Token)
    requires 0 < t.next <= |s|
  {
    t.closed && t.kind != LineComment && t.kind != Plain ==> !IsSpace(s[t.next - 1])
  }

  lemma SearchEndIsSolid(s: string, r: Rules, i: nat, o: Opening)
    requires i < |s| && o.OpensSearch? && OpeningFits(s, i, o, |s|) && (forall c :: c in o.until ==> IsDelimiter(c))
    ensures SolidEnd(s, TokenFor(s, r, i, o))
  {
    var t := TokenFor(s, r, i, o);
    if t.kind != Plain {
      MatchedChar(s, o.until, t.next - |o.until|, t.next - 1);
    }
  }

  lemma BlockEndIsSolid(s: string, r: Rules, i: nat)
    requires i + 2 <= |s|
    ensures SolidEnd(s, TokenFor(s, r, i, OpensBlock))
  {
    var t := TokenFor(s, r, i, OpensBlock);
    if t.closed {
      MatchedChar(s, "*/", t.next - 2, t.next - 1);
    }
  }

  lemma VersionEndIsSolid(s: string, r: Rules, i: nat)
    requires i < |s| && OpeningAt(s, r, i).OpensVersion?
    ensures SolidEnd(s, TokenAt(s, r, i))
  {
    var e := TokenAt(s, r, i).next;
    if e > i + 3 {
      RunEndStays(s, i + 3, IsDigit, e - 1);
    }
  }

  /** A closed token other than a line comment never ends in white space. */
  lemma TokenEndIsSolid(s: string, r: Rules, i: nat)
    requires i < |s|
    ensures SolidEnd(s, TokenAt(s, r, i))
  {
    match OpeningAt(s, r, i)
    case OpensSearch(_, _) => SearchEndIsSolid(s, r, i, OpeningAt(s, r, i));
    case OpensBlock => BlockEndIsSolid(s, r, i);
    case OpensVersion => VersionEndIsSolid(s, r, i);
    case _ =>
  }

  lemma TokenInPiece(s: string, r: Rules, from: nat, to: nat, b: nat, i: nat)
    requires IsPiece(s, r, from, to, b) && from <= i < to && Reach(s, r, i, b) && !DashAtEdge(s, r, to, i)
    ensures var t := TokenAt(s, r, i);
            && t.next <= b && t.lo <= to
            && (t.next > to ==> t.kind == LineComment || !t.closed)
            && TokenAt(s[from..to], r, i - from) == CutToken(t, from, to)
  {
    hide TokenAt;
    var t := TokenAt(s, r, i);
    TokenEndIsSolid(s, r, i);
    assert t.next > to ==> IsSpace(s[t.next - 1]);
    TokenInWindow(s[from..to], s, r, from, to, i);
  }

  lemma DashLostInPiece(s: string, r: Rules, from: nat, to: nat, b: nat, i: nat)
    requires IsPiece(s, r, from, to, b) && from <= i < to && Reach(s, r, from, i) && DashAtEdge(s, r, to, i)
    ensures i == to - 2 && DashLost(s, r, from, to)
    ensures TokenAt(s[from..to], r, i - from) == Token(LineComment, i - from, to - from, to - from, true)
  {
    hide Reach;
    var u := s[from..to];
    assert u[i - from] == s[i] && u[i - from + 1] == s[i + 1];
  }

  lemma BlankedByCutToken(u: string, s: string, r: Rules, from: nat, to: nat, i: nat, k: nat)
    requires from <= i <= k < to <= |s| && |u| == to - from
    requires TokenAt(s, r, i).lo <= to && TokenAt(u, r, i - from) == CutToken(TokenAt(s, r, i), from, to)
    ensures k < TokenAt(s, r, i).next ==> Blanked(u, r, i - from, k - from) == Blanked(s, r, i, k)
    ensures k >= TokenAt(s, r, i).next ==>
              var next := TokenAt(s, r, i).next;
              && Blanked(s, r, i, k) == Blanked(s, r, next, k)
              && Blanked(u, r, i - from, k - from) == Blanked(u, r, next - from, k - from)
  {
    hide TokenAt;
  }

  /** How the scan of a piece compares with the scan of the whole script, position by position. */
  lemma {:induction false} BlankedInPiece(u: string, s: string, r: Rules, from: nat, to: nat, b: nat, i: nat, k: nat)
    requires IsPiece(s, r, from, to, b) && u == s[from..to] && from <= i <= k < to
    requires Reach(s, r, from, i) && Reach(s, r, i, b)
    requires DashLost(s, r, from, to) ==> i + 2 <= to
    ensures Blanked(u, r, i - from, k - from) ==
            (Blanked(s, r, i, k) || (DashLost(s, r, from, to) && k >= to - 2))
    decreases |s| - i
  {
    hide TokenAt;
    if DashAtEdge(s, r, to, i) {
      DashLostInPiece(s, r, from, to, b, i);
    } else {
      TokenInPiece(s, r, from, to, b, i);
      BlankedByCutToken(u, s, r, from, to, i, k);
      if DashLost(s, r, from, to) {
        ReachBetween(s, r, from, i, to - 2);
      }
      if TokenAt(s, r, i).next <= k {
        ReachStep(s, r, from, i);
        BlankedInPiece(u, s, r, from, to, b, TokenAt(s, r, i).next, k);
      }
    }
  }

  lemma ReachStep(s: string, r: Rules, from: nat, i: nat)
    requires from <= i < |s| && Reach(s, r, from, i)
    ensures Reach(s, r, from, TokenAt(s, r, i).next)
  {
    ReachTrans(s, r, from, i, TokenAt(s, r, i).next);
  }

  /** The slice of a mask, with a final `--` blanked when it was lost. */
  ghost function PieceMask(m: string, lost: bool, from: nat, to: nat): string
    requires from <= to <= |m| && (lost ==> from + 2 <= to)
  {
    if lost then m[from..to - 2] + "  " else m[from..to]
  }

  lemma PieceMaskAt(m: string, lost: bool, from: nat, to: nat, x: nat)
    requires from <= to <= |m| && (lost ==> from + 2 <= to) && x < to - from
    ensures |PieceMask(m, lost, from, to)| == to - from
    ensures PieceMask(m, lost, from, to)[x] == if lost && from + x >= to - 2 then ' ' else m[from + x]
  {
  }

  lemma MaskOfPiece(s: string, r: Rules, from: nat, to: nat, b: nat)
    requires IsPiece(s, r, from, to, b)
    ensures Mask(s[from..to], r) == PieceMask(Mask(s, r), DashLost(s, r, from, to), from, to)
  {
    hide TokenAt, PieceMask, Blanked;
    var u := s[from..to];
    PieceMaskLength(Mask(s, r), DashLost(s, r, from, to), from, to);
    forall x | 0 <= x < to - from
      ensures Mask(u, r)[x] == PieceMask(Mask(s, r), DashLost(s, r, from, to), from, to)[x]
    {
      PieceMaskAt(Mask(s, r), DashLost(s, r, from, to), from, to, x);
      BlankedInPiece(u, s, r, from, to, b, from, from + x);
      BlankedFromReached(s, r, 0, from, from + x);
      assert u[x] == s[from + x];
    }
  }

  lemma PieceMaskLength(m: string, lost: bool, from: nat, to: nat)
    requires from <= to <= |m| && (lost ==> from + 2 <= to)
    ensures |PieceMask(m, lost, from, to)| == to - from
  {
  }

  predicate EndsInDashes(m: string) {
    |m| >= 2 && m[|m| - 2] == '-' && m[|m| - 1] == '-'
  }

  lemma DashIsPlain(s: string, r: Rules, i: nat)
    requires i < |s| && s[i] == '-'
    ensures TokenAt(s, r, i) == Token(Plain, i, i, i + 1, true) <==> !DashComment(s, r, i)
  {
  }

  lemma DashLostSurvives(s: string, r: Rules, from: nat, to: nat, b: nat)
    requires IsPiece(s, r, from, to, b) && from + 2 <= to
    ensures DashLost(s, r, from, to) <==> Mask(s, r)[to - 2] == '-' && Mask(s, r)[to - 1] == '-'
  {
    hide TokenAt;
    if DashLost(s, r, from, to) {
      ReachTrans(s, r, 0, from, to - 2);
      BlankedFromReached(s, r, 0, to - 2, to - 2);
      BlankedFromReached(s, r, 0, to - 2, to - 1);
      DashIsPlain(s, r, to - 2);
      DashIsPlain(s, r, to - 1);
    } else if Mask(s, r)[to - 2] == '-' && Mask(s, r)[to - 1] == '-' {
      Survives(s, r, to - 2);
      Survives(s, r, to - 1);
      DashIsPlain(s, r, to - 2);
      ReachBetween(s, r, 0, from, to - 2);
    }
  }

  /**
   * Locality: a piece is masked on its own exactly as inside the script, if and only if the mask
   * of the script does not show a `--` at the end of the piece.
   */
  lemma MaskIsLocal(s: string, r: Rules, from: nat, to: nat, b: nat)
    requires IsPiece(s, r, from, to, b)
    ensures Mask(s[from..to], r) == Mask(s, r)[from..to] <==> !EndsInDashes(Mask(s, r)[from..to])
  {
    hide TokenAt;
    MaskOfPiece(s, r, from, to, b);
    if from + 2 <= to {
      DashLostSurvives(s, r, from, to, b);
    }
    if DashLost(s, r, from, to) {
      assert Mask(s[from..to], r)[to - from - 1] == ' ';
    }
  }
}
