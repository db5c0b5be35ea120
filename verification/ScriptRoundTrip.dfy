/** Joining the statements of a script and splitting them again. */
module ScriptRoundTrip {
  import opened Text
  import opened MaskSpec
  import opened MaskLocality
  import opened SqlScript
  import opened SqlScriptLaws
  import opened SplitLaws

  // --- a text whose scan does not depend on what follows it ---

  ghost predicate Delimiters(w: string) {
    w != "" && forall c :: c in w ==> IsDelimiter(c)
  }

  /** The token at `i` is closed, and an opener that found no end finds none in `tail` either. */
  ghost predicate CleanToken(t: string, r: Rules, i: nat, tail: string)
    requires i < |t|
  {
    && TokenAt(t, r, i).closed
    && (OpeningAt(t, r, i).OpensSearch? && TokenAt(t, r, i).kind == Plain ==>
          !Occurs(OpeningAt(t, r, i).until, tail))
  }

  ghost predicate Clean(t: string, r: Rules, i: nat, tail: string)
    requires i <= |t|
    decreases |t| - i
  {
    i < |t| ==> CleanToken(t, r, i, tail) && Clean(t, r, TokenAt(t, r, i).next, tail)
  }

  lemma {:induction false} CleanBeforeOtherTail(t: string, r: Rules, i: nat, tail: string, tail': string)
    requires i <= |t| && Clean(t, r, i, tail)
    requires forall w :: Delimiters(w) && Occurs(w, tail') ==> Occurs(w, tail)
    ensures Clean(t, r, i, tail')
    decreases |t| - i
  {
    hide TokenAt, OpeningAt, Occurs;
    if i < |t| {
      assert OpeningAt(t, r, i).OpensSearch? ==> Delimiters(OpeningAt(t, r, i).until);
      CleanBeforeOtherTail(t, r, TokenAt(t, r, i).next, tail, tail');
    }
  }

  /** Joined to a following statement, a token of `t` ends where it ends in `t` alone. */
  lemma CleanTokenStays(t: string, rest: string, all: string, r: Rules, i: nat)
    requires all == t + SEPARATOR() + rest && i < |t| && !r.keepIdent && CleanToken(t, r, i, rest)
    ensures TokenAt(all, r, i).next == TokenAt(t, r, i).next
  {
    hide TokenAt, IsDelimiter;
    var b := |t|;
    assert all[0..b] == t && all[b] == '\n';
    OpeningInWindow(t, all, r, 0, b, i);
    var o := OpeningAt(all, r, i);
    if o.OpensSearch? {
      SearchStays(t, rest, all, r, i, o);
    } else {
      CrossingIsOpen(t, all, r, b, i);
      TokenInWindow(t, all, r, 0, b, i);
    }
  }

  /** Only block comments and literals can run across a newline. */
  lemma CrossingIsOpen(t: string, all: string, r: Rules, b: nat, i: nat)
    requires i < b < |all| && all[b] == '\n' && !OpeningAt(all, r, i).OpensSearch?
    ensures Cuttable(TokenAt(all, r, i), b)
    ensures TokenAt(all, r, i).next > b ==> TokenAt(all, r, i).kind == BlockComment || TokenAt(all, r, i).kind == Quoted
  {
    var o := OpeningAt(all, r, i);
    var e := TokenAt(all, r, i).next;
    if b < e && o.OpensLineComment? && i + o.skip <= b {
      RunEndStays(all, i + o.skip, NotNewline, b);
    }
    if b < e && o.OpensVersion? && i + 3 <= b {
      RunEndStays(all, i + 3, IsDigit, b);
    }
  }

  lemma SearchStays(t: string, rest: string, all: string, r: Rules, i: nat, o: Opening)
    requires all == t + SEPARATOR() + rest && i < |t| && !r.keepIdent && CleanToken(t, r, i, rest)
    requires o == OpeningAt(all, r, i) == OpeningAt(t, r, i) && o.OpensSearch? && i + o.skip <= |t|
    ensures TokenAt(all, r, i).next == TokenAt(t, r, i).next
  {
    hide IsDelimiter, IndexOf, OpeningAt, MatchAt;
    var b := |t|;
    assert all[0..b] == t by { AfterSeparator(t, rest); }
    IndexOfInWindow(all, 0, b, o.until, i + o.skip);
    var k := IndexOf(all, o.until, i + o.skip);
    if k >= 0 && k + |o.until| > b {
      MatchBeyondSeparator(t, rest, all, o.until, k);
    }
  }

  lemma AfterSeparator(t: string, rest: string)
    ensures var all := t + SEPARATOR() + rest;
            all[..|t|] == t && |t| + 3 <= |all| && all[|t| + 3..|all|] == rest
  {
  }

  /** A delimiter word found beyond `t` lies wholly in the text after the separator. */
  lemma MatchBeyondSeparator(t: string, rest: string, all: string, w: string, k: nat)
    requires all == t + SEPARATOR() + rest && Delimiters(w) && MatchAt(all, w, k) && k + |w| > |t|
    ensures Occurs(w, rest)
  {
    var b := |t|;
    if k < b + 3 {
      var p := if k <= b then b else k;
      assert p < b + 3;
      assert all[p] == SEPARATOR()[p - b];
      MatchedChar(all, w, k, p);
    } else {
      AfterSeparator(t, rest);
      MatchInWindow(all, b + 3, |all|, w, k);
      assert MatchAt(rest, w, k - b - 3);
    }
  }

  lemma {:induction false} CleanScanStays(t: string, rest: string, all: string, r: Rules, i: nat)
    requires all == t + SEPARATOR() + rest && i <= |t| && !r.keepIdent && Clean(t, r, i, rest)
    ensures Reach(all, r, i, |t|)
    decreases |t| - i
  {
    hide TokenAt, OpeningAt, Occurs;
    if i < |t| {
      CleanTokenStays(t, rest, all, r, i);
      CleanScanStays(t, rest, all, r, TokenAt(t, r, i).next);
    }
  }

  lemma SeparatorIsReached(t: string, rest: string, all: string, r: Rules)
    requires all == t + SEPARATOR() + rest && Reach(all, r, 0, |t|)
    ensures Reach(all, r, 0, |t| + 1) && Reach(all, r, 0, |t| + 3)
    ensures forall k :: |t| <= k < |t| + 3 ==> Mask(all, r)[k] == all[k]
  {
    hide Reach, Mask;
    SeparatorChars(t, rest);
    ThreePlain(all, r, |t|);
  }

  lemma ThreePlain(s: string, r: Rules, b: nat)
    requires b + 3 <= |s| && s[b] == '\n' && s[b + 1] == ';' && s[b + 2] == '\n' && Reach(s, r, 0, b)
    ensures Reach(s, r, 0, b + 1) && Reach(s, r, 0, b + 3)
    ensures forall k :: b <= k < b + 3 ==> Mask(s, r)[k] == s[k]
  {
    hide Reach, Mask;
    PlainIsKept(s, r, b);
    PlainIsKept(s, r, b + 1);
    PlainIsKept(s, r, b + 2);
  }

  lemma SeparatorChars(t: string, rest: string)
    ensures var all, b := t + SEPARATOR() + rest, |t|;
            |all| >= b + 3 && all[b] == '\n' && all[b + 1] == ';' && all[b + 2] == '\n'
  {
  }

  lemma PlainIsKept(s: string, r: Rules, k: nat)
    requires k < |s| && (s[k] == '\n' || s[k] == ';') && Reach(s, r, 0, k)
    ensures Reach(s, r, 0, k + 1) && Mask(s, r)[k] == s[k]
  {
    hide Reach, TokenAt;
    PlainCharIsPlain(s, r, k);
    ReachStep(s, r, 0, k);
    BlankedFromReached(s, r, 0, k, k);
  }

  lemma PlainCharIsPlain(s: string, r: Rules, k: nat)
    requires k < |s| && (s[k] == '\n' || s[k] == ';')
    ensures TokenAt(s, r, k) == Token(Plain, k, k, k + 1, true)
  {
  }

  /** The mask of two joined texts is the two masks joined. */
  lemma MaskOfJoined(t: string, rest: string, r: Rules)
    requires !r.keepIdent && Clean(t, r, 0, rest)
    ensures Mask(t + SEPARATOR() + rest, r) == Mask(t, r) + SEPARATOR() + Mask(rest, r)
  {
    hide TokenAt, Mask, Clean, Reach, MaskedChar;
    var all := t + SEPARATOR() + rest;
    var b := |t|;
    CleanScanStays(t, rest, all, r, 0);
    SeparatorIsReached(t, rest, all, r);
    assert all[b] == '\n' && all[b + 1] == ';' && all[b + 2] == '\n';
    assert all[0..b] == t && all[b + 3..|all|] == rest;
    assert Reach(all, r, 0, 0) by { ReachSelf(all, r, 0); }
    MaskOfPiece(all, r, 0, b, b + 1);
    ReachEnd(all, r, b + 3);
    MaskOfPiece(all, r, b + 3, |all|, |all|);
    var m := Mask(all, r);
    assert m[0..b] == Mask(t, r) && m[b + 3..|all|] == Mask(rest, r);
    assert m == m[0..b] + m[b..b + 3] + m[b + 3..|all|];
    assert m[b..b + 3] == SEPARATOR();
  }

  lemma ReachSelf(s: string, r: Rules, i: nat)
    requires i <= |s|
    ensures Reach(s, r, i, i)
  {
  }

  // --- the pieces of a script are clean ---

  lemma PieceTokenIsClean(u: string, s: string, r: Rules, from: nat, to: nat, b: nat, i: nat)
    requires IsPiece(s, r, from, to, b) && b < |s| && u == s[from..to] && from <= i < to && Reach(s, r, i, b)
    requires !DashAtEdge(s, r, to, i)
    ensures CleanToken(u, r, i - from, s[b..])
  {
    hide TokenAt, OpeningAt, Occurs, Reach;
    TokenInPiece(s, r, from, to, b, i);
    OpeningInWindow(u, s, r, from, to, i);
    var o := OpeningAt(s, r, i);
    if o.OpensSearch? && TokenAt(s, r, i).kind == Plain {
      PlainSearchFails(s, r, i, b);
    }
  }

  lemma PlainSearchFails(s: string, r: Rules, i: nat, b: nat)
    requires i < |s| && OpeningAt(s, r, i).OpensSearch? && TokenAt(s, r, i).kind == Plain
    requires i + OpeningAt(s, r, i).skip <= b <= |s|
    ensures !Occurs(OpeningAt(s, r, i).until, s[b..])
  {
    hide OpeningAt, IndexOf, MatchAt;
    var o := OpeningAt(s, r, i);
    forall k: nat ensures !MatchAt(s[b..], o.until, k) {
      MatchInWindow(s, b, |s|, o.until, k + b);
      assert s[b..|s|] == s[b..];
      if MatchAt(s, o.until, k + b) {
        IndexOfIsFirst(s, o.until, i + o.skip, k + b);
      }
    }
  }

  lemma {:induction false} PieceIsClean(u: string, s: string, r: Rules, from: nat, to: nat, b: nat, i: nat)
    requires IsPiece(s, r, from, to, b) && b < |s| && u == s[from..to] && from <= i <= to
    requires Reach(s, r, from, i) && (i < to ==> Reach(s, r, i, b))
    ensures Clean(u, r, i - from, s[b..])
    decreases |s| - i
  {
    hide TokenAt, OpeningAt, Occurs;
    if i < to {
      if DashAtEdge(s, r, to, i) {
        DashLostInPiece(s, r, from, to, b, i);
        LineCommentIsClean(u, r, i - from, s[b..]);
      } else {
        PieceTokenIsClean(u, s, r, from, to, b, i);
        TokenInPiece(s, r, from, to, b, i);
        ReachStep(s, r, from, i);
        if TokenAt(s, r, i).next <= to {
          PieceIsClean(u, s, r, from, to, b, TokenAt(s, r, i).next);
        }
      }
    }
  }

  lemma LineCommentIsClean(u: string, r: Rules, i: nat, tail: string)
    requires i < |u| && TokenAt(u, r, i) == Token(LineComment, i, |u|, |u|, true)
    ensures Clean(u, r, i, tail)
  {
  }

  // --- the round trip ---

  function MasksOf(ts: seq<string>, r: Rules): seq<string> {
    seq(|ts|, i requires 0 <= i < |ts| => Mask(ts[i], r))
  }

  /** Each text stands in `s` at `a` or later. */
  ghost predicate SlicesFrom(ts: seq<string>, s: string, a: nat) {
    forall t :: t in ts ==> exists f, g :: a <= f <= g <= |s| && t == s[f..g]
  }

  lemma OccursInSlice(w: string, s: string, a: nat, f: nat, g: nat)
    requires a <= f <= g <= |s| && Occurs(w, s[f..g])
    ensures Occurs(w, s[a..])
  {
    hide MatchAt;
    var k: nat :| MatchAt(s[f..g], w, k);
    MatchInWindow(s, f, g, w, k + f);
    MatchInWindow(s, a, |s|, w, k + f);
    assert s[a..|s|] == s[a..];
    assert MatchAt(s[a..], w, k + f - a);
  }

  lemma {:induction false} OccursInJoin(w: string, ts: seq<string>) returns (i: nat)
    requires Delimiters(w) && Occurs(w, Join(ts))
    ensures i < |ts| && Occurs(w, ts[i])
  {
    var k: nat :| MatchAt(Join(ts), w, k);
    if |ts| <= 1 {
      i := 0;
    } else if k + |w| <= |ts[0]| {
      i := 0;
      AfterSeparator(ts[0], Join(ts[1..]));
      MatchInWindow(Join(ts), 0, |ts[0]|, w, k);
      assert MatchAt(ts[0], w, k);
    } else {
      MatchBeyondSeparator(ts[0], Join(ts[1..]), Join(ts), w, k);
      var j := OccursInJoin(w, ts[1..]);
      i := j + 1;
    }
  }

  lemma JoinOccursInScript(ts: seq<string>, s: string, a: nat, w: string)
    requires a <= |s| && SlicesFrom(ts, s, a) && Delimiters(w) && Occurs(w, Join(ts))
    ensures Occurs(w, s[a..])
  {
    hide Occurs;
    var i := OccursInJoin(w, ts);
    assert ts[i] in ts;
    var f, g :| a <= f <= g <= |s| && ts[i] == s[f..g];
    OccursInSlice(w, s, a, f, g);
  }

  lemma {:induction false} TextsAreSlices(s: string, r: Rules, a: nat)
    requires SegStart(s, r, a)
    ensures SlicesFrom(TextsOf(Ranges(s, Mask(s, r), a)), s, a)
  {
    hide Mask, IsSpace, Reach;
    RangesInOrder(s, r, a);
    var rs := Ranges(s, Mask(s, r), a);
    forall t | t in TextsOf(rs) ensures exists f, g :: a <= f <= g <= |s| && t == s[f..g] {
      var i :| 0 <= i < |rs| && rs[i].text == t;
      assert IsSlice(s, rs[i], a);
    }
  }

  /** The mask of the joined texts is their masks joined. */
  ghost predicate MaskJoins(ts: seq<string>, r: Rules) {
    Mask(Join(ts), r) == Join(MasksOf(ts, r))
  }

  lemma NoTextsJoin(r: Rules)
    ensures MaskJoins([], r)
  {
  }

  lemma MaskOfJoinStep(t: string, ts: seq<string>, r: Rules)
    requires !r.keepIdent && (ts != [] ==> Clean(t, r, 0, Join(ts))) && MaskJoins(ts, r)
    ensures MaskJoins([t] + ts, r)
  {
    hide Mask, Clean, Join, MasksOf;
    MasksPush(t, ts, r);
    JoinPush(t, ts);
    JoinPush(Mask(t, r), MasksOf(ts, r));
    if ts != [] {
      MaskOfJoined(t, Join(ts), r);
    }
  }

  lemma MasksPush(t: string, ts: seq<string>, r: Rules)
    ensures MasksOf([t] + ts, r) == [Mask(t, r)] + MasksOf(ts, r) && |MasksOf(ts, r)| == |ts|
  {
    hide Mask;
  }

  lemma JoinPush(t: string, ts: seq<string>)
    ensures Join([t] + ts) == if ts == [] then t else t + SEPARATOR() + Join(ts)
  {
    assert ([t] + ts)[1..] == ts;
  }

  /** The first of several statements is clean with respect to the later ones. */
  lemma FirstIsClean(s: string, r: Rules, a: nat)
    requires SegStart(s, r, a)
    requires var e := NextSemi(Mask(s, r), a); e < |s| && HasExecutableSql(Mask(s, r)[a..e])
    ensures var e := NextSemi(Mask(s, r), a);
            Clean(RangeOf(s, a, e).text, r, 0, Join(TextsOf(Ranges(s, Mask(s, r), e + 1))))
  {
    hide *;
    var e := NextSemi(Mask(s, r), a);
    var g := RangeOf(s, a, e);
    var ts := TextsOf(Ranges(s, Mask(s, r), e + 1));
    SegmentEnd(s, r, a);
    RangeIsClean(s, r, a);
    TextsAreSlices(s, r, e + 1);
    SlicesFromEarlier(ts, s, e + 1, e);
    CleanBeforeSlices(g.text, r, ts, s, e);
  }

  /** A text that is clean with respect to the rest of a script is clean with respect to joined slices of that rest. */
  lemma CleanBeforeSlices(t: string, r: Rules, ts: seq<string>, s: string, e: nat)
    requires e <= |s| && SlicesFrom(ts, s, e) && Clean(t, r, 0, s[e..])
    ensures Clean(t, r, 0, Join(ts))
  {
    hide Clean, Join, SlicesFrom, Occurs, Delimiters;
    forall w | Delimiters(w) && Occurs(w, Join(ts)) ensures Occurs(w, s[e..]) {
      JoinOccursInScript(ts, s, e, w);
    }
    CleanBeforeOtherTail(t, r, 0, s[e..], Join(ts));
  }

  /** A statement is clean with respect to what follows its segment. */
  lemma RangeIsClean(s: string, r: Rules, a: nat)
    requires SegStart(s, r, a)
    requires var e := NextSemi(Mask(s, r), a); e < |s| && HasExecutableSql(Mask(s, r)[a..e])
    ensures var e := NextSemi(Mask(s, r), a); Clean(RangeOf(s, a, e).text, r, 0, s[e..])
  {
    hide Mask, NextSemi, RangeOf, HasExecutableSql, Clean, SegStart, IsPiece, IsSpace;
    var e := NextSemi(Mask(s, r), a);
    var g := RangeOf(s, a, e);
    RangeIsPiece(s, r, a);
    WholePieceIsClean(g.text, s, r, g.from, g.to, e);
  }

  lemma WholePieceIsClean(u: string, s: string, r: Rules, from: nat, to: nat, b: nat)
    requires IsPiece(s, r, from, to, b) && b < |s| && u == s[from..to]
    ensures Clean(u, r, 0, s[b..])
  {
    hide Clean, NeutralBefore, IsSpace;
    ReachSelf(s, r, from);
    PieceIsClean(u, s, r, from, to, b, from);
  }

  lemma SlicesFromEarlier(ts: seq<string>, s: string, a: nat, b: nat)
    requires SlicesFrom(ts, s, a) && b <= a
    ensures SlicesFrom(ts, s, b)
  {
  }

  lemma RangeTexts(s: string, m: string, a: nat)
    requires |m| == |s| && a <= |m|
    ensures var e := NextSemi(m, a);
            TextsOf(Ranges(s, m, a)) ==
            if HasExecutableSql(m[a..e]) then [RangeOf(s, a, e).text] + TextsOf(RestRanges(s, m, a))
            else TextsOf(RestRanges(s, m, a))
  {
    hide NextSemi, RangeOf, HasExecutableSql, Ranges, RestRanges;
    RangesUnfold(s, m, a);
  }

  lemma NoRestTexts(s: string, m: string, a: nat)
    requires |m| == |s| && a <= |m|
    ensures var e := NextSemi(m, a);
            TextsOf(RestRanges(s, m, a)) == if e < |m| then TextsOf(Ranges(s, m, e + 1)) else []
  {
    hide NextSemi, Ranges;
  }

  /** Joining the statements from a segment on joins their masks. */
  lemma {:induction false} MaskOfStatements(s: string, r: Rules, a: nat)
    requires SegStart(s, r, a)
    ensures MaskJoins(TextsOf(Ranges(s, Mask(s, r), a)), r)
    decreases |s| - a
  {
    hide NextSemi, Reach, RangeOf, HasExecutableSql, Mask, Clean, MaskJoins, Join, TextsOf, Ranges, RestRanges;
    var m := Mask(s, r);
    RangeTexts(s, m, a);
    NoRestTexts(s, m, a);
    SegmentEnd(s, r, a);
    var e := NextSemi(m, a);
    if e < |m| {
      MaskOfStatements(s, r, e + 1);
    } else {
      NoTextsJoin(r);
    }
    if HasExecutableSql(m[a..e]) {
      if e < |m| {
        FirstIsClean(s, r, a);
      }
      MaskOfJoinStep(RangeOf(s, a, e).text, TextsOf(RestRanges(s, m, a)), r);
    }
  }
}
