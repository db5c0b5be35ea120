/** Scripts written line by line: when statements between comment lines are read as the statements they are alone. */
module ScriptGaps {
  import opened Text
  import opened MaskSpec
  import opened MaskLocality
  import opened SqlScript
  import opened SplitLaws
  import opened ScriptRoundTrip

  // --- texts that end what they begin ---

  /** The token at `i` has its end in `u`, and if it opens a search, the search finds it there. */
  predicate SealedToken(u: string, r: Rules, i: nat)
    requires i < |u|
  {
    TokenAt(u, r, i).closed && (OpeningAt(u, r, i).OpensSearch? ==> TokenAt(u, r, i).kind != Plain)
  }

  /** Every token of `u` from `i` on is read the same whatever line follows. */
  predicate Sealed(u: string, r: Rules, i: nat)
    requires i <= |u|
    decreases |u| - i
  {
    i < |u| ==> SealedToken(u, r, i) && Sealed(u, r, TokenAt(u, r, i).next)
  }

  /** No token is still open at the end of `u`. */
  predicate Ended(u: string, r: Rules, i: nat)
    requires i <= |u|
    decreases |u| - i
  {
    i < |u| ==> TokenAt(u, r, i).closed && Ended(u, r, TokenAt(u, r, i).next)
  }

  /** `[a, b)` is a line, or several, of `s`. */
  ghost predicate IsLine(u: string, s: string, a: nat, b: nat) {
    a <= b <= |s| && u == s[a..b] && (a == 0 || s[a - 1] == '\n') && (b == |s| || s[b] == '\n')
  }

  lemma LineEdges(u: string, s: string, r: Rules, a: nat, b: nat, i: nat)
    requires IsLine(u, s, a, b) && a <= i < b
    ensures NeutralBefore(s, a) && QuietAfter(s, b) && !DashAtEdge(s, r, b, i)
  {
  }

  lemma LineOpening(u: string, s: string, r: Rules, a: nat, b: nat, i: nat)
    requires IsLine(u, s, a, b) && a <= i < b
    ensures OpeningAt(u, r, i - a) == OpeningAt(s, r, i) && OpeningFits(s, i, OpeningAt(s, r, i), b)
  {
    hide OpeningAt, OpeningFits, NeutralBefore, QuietAfter, DashAtEdge;
    LineEdges(u, s, r, a, b, i);
    OpeningInWindow(u, s, r, a, b, i);
  }

  lemma LineToken(u: string, s: string, r: Rules, a: nat, b: nat, i: nat)
    requires IsLine(u, s, a, b) && a <= i < b && !r.keepIdent && Cuttable(TokenAt(s, r, i), b)
    ensures TokenAt(s, r, i).lo <= b && TokenAt(u, r, i - a) == CutToken(TokenAt(s, r, i), a, b)
  {
    hide TokenAt, CutToken, NeutralBefore, QuietAfter, DashAtEdge, Cuttable;
    LineEdges(u, s, r, a, b, i);
    TokenInWindow(u, s, r, a, b, i);
  }

  /** A token of a whole line that ends within the line is the line's token. */
  lemma LineTokenWithin(u: string, s: string, r: Rules, a: nat, b: nat, i: nat)
    requires IsLine(u, s, a, b) && a <= i < b && !r.keepIdent && TokenAt(s, r, i).next <= b
    ensures var t := TokenAt(s, r, i); TokenAt(u, r, i - a) == t.(lo := t.lo - a, hi := t.hi - a, next := t.next - a)
  {
    hide TokenAt;
    LineToken(u, s, r, a, b, i);
  }

  lemma SealedTokenStays(u: string, s: string, r: Rules, a: nat, b: nat, i: nat)
    requires IsLine(u, s, a, b) && a <= i < b && !r.keepIdent && SealedToken(u, r, i - a)
    ensures TokenAt(s, r, i).next == TokenAt(u, r, i - a).next + a
  {
    hide OpeningAt, TokenFor, IndexOf;
    LineOpening(u, s, r, a, b, i);
    var o := OpeningAt(s, r, i);
    if o.OpensSearch? {
      SealedSearchStays(u, s, r, a, b, i, o);
    } else if b < |s| {
      CrossingIsOpen(u, s, r, b, i);
      LineToken(u, s, r, a, b, i);
    } else {
      LineToken(u, s, r, a, b, i);
    }
  }

  lemma SealedSearchStays(u: string, s: string, r: Rules, a: nat, b: nat, i: nat, o: Opening)
    requires IsLine(u, s, a, b) && a <= i < b && !r.keepIdent
    requires o == OpeningAt(s, r, i) == OpeningAt(u, r, i - a) && o.OpensSearch? && i + o.skip <= b
    requires TokenAt(u, r, i - a).kind != Plain
    ensures TokenAt(s, r, i).next == TokenAt(u, r, i - a).next + a
  {
    hide IndexOf, OpeningAt, MatchAt;
    IndexOfInWindow(s, a, b, o.until, i + o.skip);
  }

  lemma {:induction false} SealedIsReached(u: string, s: string, r: Rules, a: nat, b: nat, i: nat)
    requires IsLine(u, s, a, b) && a <= i <= b && !r.keepIdent && Sealed(u, r, i - a)
    ensures Reach(s, r, i, b)
    decreases b - i
  {
    hide TokenAt, SealedToken, IsLine;
    if i < b {
      LineBounds(u, s, a, b);
      SealedTokenStays(u, s, r, a, b, i);
      SealedIsReached(u, s, r, a, b, TokenAt(s, r, i).next);
    }
  }

  lemma LineBounds(u: string, s: string, a: nat, b: nat)
    requires IsLine(u, s, a, b)
    ensures a <= b <= |s| && |u| == b - a && (b < |s| ==> s[b] == '\n')
  {
  }

  /** If the scan stops at both ends of a line, it blanks in it what the line alone has blanked. */
  lemma {:induction false} LineBlanked(u: string, s: string, r: Rules, a: nat, b: nat, i: nat, k: nat)
    requires IsLine(u, s, a, b) && a <= i <= k < b && !r.keepIdent && Reach(s, r, i, b)
    ensures Blanked(u, r, i - a, k - a) == Blanked(s, r, i, k)
    decreases b - i
  {
    hide TokenAt, IsLine;
    LineBounds(u, s, a, b);
    LineTokenWithin(u, s, r, a, b, i);
    var next := TokenAt(s, r, i).next;
    if next <= k {
      LineBlanked(u, s, r, a, b, next, k);
    }
  }

  lemma {:induction false} LineEnded(u: string, s: string, r: Rules, a: nat, b: nat, i: nat)
    requires IsLine(u, s, a, b) && a <= i <= b < |s| && !r.keepIdent && Reach(s, r, i, b)
    ensures Ended(u, r, i - a)
    decreases b - i
  {
    hide TokenAt, IsLine;
    LineBounds(u, s, a, b);
    if i < b {
      LineTokenWithin(u, s, r, a, b, i);
      LineEnded(u, s, r, a, b, TokenAt(s, r, i).next);
    }
  }

  lemma LineMask(u: string, s: string, r: Rules, a: nat, b: nat)
    requires IsLine(u, s, a, b) && !r.keepIdent && Reach(s, r, 0, a) && Reach(s, r, a, b)
    ensures Mask(u, r) == Mask(s, r)[a..b]
  {
    hide TokenAt, Reach, Blanked, IsLine;
    LineBounds(u, s, a, b);
    forall k | a <= k < b ensures Mask(u, r)[k - a] == Mask(s, r)[k] {
      LineBlanked(u, s, r, a, b, a, k);
      BlankedFromReached(s, r, 0, a, k);
      LineChar(u, s, a, b, k);
    }
  }

  lemma LineChar(u: string, s: string, a: nat, b: nat, k: nat)
    requires IsLine(u, s, a, b) && a <= k < b
    ensures u[k - a] == s[k]
  {
  }

  // --- the beginning of a line ---

  /** A word character that follows a line break and survives is not part of a longer token before it. */
  lemma WordIsNoTail(s: string, r: Rules, i: nat, k: nat)
    requires i < k < |s| && !r.keepIdent && s[k - 1] == '\n' && IsWord(s[k]) && i < k < TokenAt(s, r, i).next
    ensures TokenAt(s, r, i).lo <= k < TokenAt(s, r, i).hi
  {
    match OpeningAt(s, r, i)
    case OpensSearch(w, skip) => SearchHasNoWordAfterBreak(s, r, i, k, OpeningAt(s, r, i));
    case OpensLineComment(skip) => RunHasNoBreak(s, i + skip, k - 1);
    case OpensBlock =>
    case _ =>
  }

  lemma RunHasNoBreak(s: string, i: nat, k: nat)
    requires i <= |s| && k < |s| && s[k] == '\n'
    ensures i <= k ==> RunEnd(s, i, NotNewline) <= k
  {
    if i <= k < RunEnd(s, i, NotNewline) {
      RunEndStays(s, i, NotNewline, k);
    }
  }

  lemma SearchHasNoWordAfterBreak(s: string, r: Rules, i: nat, k: nat, o: Opening)
    requires i < k < |s| && !r.keepIdent && s[k - 1] == '\n' && IsWord(s[k])
    requires o == OpeningAt(s, r, i) && o.OpensSearch? && k < TokenFor(s, r, i, o).next
    ensures TokenFor(s, r, i, o).lo <= k < TokenFor(s, r, i, o).hi
  {
    hide IndexOf, OpeningAt, DollarTag, IsWord, IsDelimiter;
    var t := TokenFor(s, r, i, o);
    SearchWord(s, r, i, o);
    if t.hi <= k {
      NoWordAfterBreakIn(s, o.until, t.hi, k);
    }
  }

  /** What a search looks for: the tag it begins with, or a bracket. */
  lemma SearchWord(s: string, r: Rules, i: nat, o: Opening)
    requires i < |s| && o == OpeningAt(s, r, i) && o.OpensSearch?
    ensures forall x :: i <= x < i + o.skip ==> s[x] != '\n'
    ensures o.until != "" && !IsWord(o.until[0]) && '\n' !in o.until
  {
    assert forall c :: c in o.until ==> IsDelimiter(c);
    if s[i] == '$' {
      forall x | i <= x < i + o.skip ensures s[x] != '\n' {
        assert o.until[x - i] in o.until;
      }
    }
  }

  lemma NoWordAfterBreakIn(s: string, w: string, p: nat, k: nat)
    requires MatchAt(s, w, p) && p <= k < p + |w| && '\n' !in w && !IsWord(w[0])
    requires k > 0 && s[k - 1] == '\n'
    ensures !IsWord(s[k])
  {
    if p < k {
      MatchedChar(s, w, p, k - 1);
    } else {
      assert s[p + 0] == w[0];
    }
  }

  /** A line that begins with a surviving word character begins a token. */
  lemma {:induction false} WordIsReached(s: string, r: Rules, i: nat, k: nat)
    requires i <= k < |s| && !r.keepIdent && (k == 0 || s[k - 1] == '\n') && IsWord(s[k]) && !Blanked(s, r, i, k)
    ensures Reach(s, r, i, k)
    decreases |s| - i
  {
    hide TokenAt, IsWord;
    if i < k {
      if k < TokenAt(s, r, i).next {
        WordIsNoTail(s, r, i, k);
      } else {
        WordIsReached(s, r, TokenAt(s, r, i).next, k);
      }
    }
  }

  /** A scan that stops behind a line break stops before it too. */
  lemma {:induction false} BreakIsReached(s: string, r: Rules, i: nat, b: nat)
    requires i <= b && b + 1 < |s| && s[b] == '\n' && Reach(s, r, i, b + 1)
    ensures Reach(s, r, i, b)
    decreases |s| - i
  {
    hide TokenAt;
    if i < b {
      if TokenAt(s, r, i).next <= b {
        BreakIsReached(s, r, TokenAt(s, r, i).next, b);
      } else {
        NoTokenEndsInBreak(s, r, i, b);
      }
    }
  }

  lemma NoTokenEndsInBreak(s: string, r: Rules, i: nat, b: nat)
    requires i < b < |s| && s[b] == '\n'
    ensures TokenAt(s, r, i).next == b + 1 ==> !TokenAt(s, r, i).closed && b + 1 == |s|
  {
    TokenEndIsSolid(s, r, i);
    match OpeningAt(s, r, i)
    case OpensLineComment(skip) => RunHasNoBreak(s, i + skip, b);
    case _ =>
  }

  lemma PlainBreak(s: string, r: Rules, b: nat)
    requires b < |s| && s[b] == '\n' && Reach(s, r, 0, b)
    ensures Reach(s, r, 0, b + 1)
  {
    PlainIsKept(s, r, b);
  }

  // --- a first line and the rest ---

  function Lines(u: string, rest: string): string { u + "\n" + rest }

  lemma FirstLine(u: string, rest: string)
    ensures IsLine(u, Lines(u, rest), 0, |u|) && Lines(u, rest)[|u|] == '\n' && |Lines(u, rest)| == |u| + 1 + |rest|
    ensures IsLine(rest, Lines(u, rest), |u| + 1, |Lines(u, rest)|)
  {
  }

  /** If the scan stops at the first line break, the mask is the mask of the first line and the mask of the rest. */
  lemma PeelLine(u: string, rest: string, r: Rules)
    requires !r.keepIdent && Reach(Lines(u, rest), r, 0, |u|)
    ensures var m := Mask(Lines(u, rest), r);
            |m| > |u| && m[..|u|] == Mask(u, r) && m[|u| + 1..] == Mask(rest, r) && Ended(u, r, 0)
  {
    hide Mask, Reach, Lines, IsLine, Ended;
    var s := Lines(u, rest);
    FirstLine(u, rest);
    ReachSelf(s, r, 0);
    LineMask(u, s, r, 0, |u|);
    LineEnded(u, s, r, 0, |u|, 0);
    PlainBreak(s, r, |u|);
    ReachEnd(s, r, |u| + 1);
    LineMask(rest, s, r, |u| + 1, |s|);
    var m := Mask(s, r);
    assert m[0..|u|] == m[..|u|] && m[|u| + 1..|s|] == m[|u| + 1..];
  }

  lemma SealedLine(u: string, rest: string, r: Rules)
    requires !r.keepIdent && Sealed(u, r, 0)
    ensures Reach(Lines(u, rest), r, 0, |u|)
  {
    hide Sealed, Reach, Lines, IsLine;
    FirstLine(u, rest);
    SealedIsReached(u, Lines(u, rest), r, 0, |u|, 0);
  }

  /** The last line is masked as it is alone, whatever it leaves open. */
  lemma LastLine(u: string, r: Rules)
    requires !r.keepIdent
    ensures Mask(Lines(u, ""), r)[..|u|] == Mask(u, r)
  {
    hide Mask, Reach;
    var s := Lines(u, "");
    ReachSelf(s, r, 0);
    ReachEnd(s, r, 0);
    MaskOfPiece(s, r, 0, |u|, |s|);
    var m := Mask(s, r);
    assert s[0..|u|] == u && m[0..|u|] == m[..|u|];
  }

  // --- idle lines ---

  /** Nothing in the text can be run: it is blank or a comment. */
  predicate Idle(u: string, r: Rules) { !HasExecutableSql(Mask(u, r)) }

  lemma {:induction false} IdleChars(m: string)
    requires !HasExecutableSql(m)
    ensures forall c :: c in m ==> IsSpace(c) || c == '*' || c == '/'
  {
    hide IsSpace;
    if m != "" {
      var rest := if StartsWithCloser(m) then m[2..] else m[1..];
      assert forall c :: c in RemoveClosers(rest) ==> c in RemoveClosers(m);
      IdleChars(rest);
      assert m == (if StartsWithCloser(m) then "*/" else [m[0]]) + rest;
      assert !StartsWithCloser(m) ==> m[0] in RemoveClosers(m);
    }
  }

  lemma IdleToken(u: string, r: Rules, i: nat)
    requires Idle(u, r) && i < |u| && Reach(u, r, 0, i) && TokenAt(u, r, i).closed
    ensures SealedToken(u, r, i)
  {
    hide HasExecutableSql, Reach;
    IdleAt(Mask(u, r), i);
    var t := TokenAt(u, r, i);
    if OpeningAt(u, r, i).OpensSearch? && t.kind == Plain {
      BlankedFromReached(u, r, 0, i, i);
    }
  }

  lemma IdleAt(m: string, i: nat)
    requires !HasExecutableSql(m) && i < |m|
    ensures IsSpace(m[i]) || m[i] == '*' || m[i] == '/'
  {
    hide HasExecutableSql, IsSpace;
    IdleChars(m);
    assert m[i] in m;
  }

  lemma {:induction false} IdleIsSealed(u: string, r: Rules, i: nat)
    requires Idle(u, r) && i <= |u| && Reach(u, r, 0, i) && Ended(u, r, i)
    ensures Sealed(u, r, i)
    decreases |u| - i
  {
    hide TokenAt, SealedToken, Idle;
    if i < |u| {
      IdleToken(u, r, i);
      ReachStep(u, r, 0, i);
      IdleIsSealed(u, r, TokenAt(u, r, i).next);
    }
  }

  // --- statements and the gaps between them ---

  /** A statement on lines of its own, or all the comment lines between two statements. */
  datatype Item = Gap(text: string) | Stmt(text: string)

  function ItemsText(items: seq<Item>): string {
    if items == [] then "" else Lines(items[0].text, ItemsText(items[1..]))
  }

  /** Where the items stand, `m` shows each statement as it is masked alone, and nothing to run between them. */
  predicate ReadsAsWritten(m: string, items: seq<Item>, r: Rules)
    decreases |items|
  {
    items == [] ||
    var n := |items[0].text|;
    && n < |m|
    && (if items[0].Gap? then !HasExecutableSql(m[..n]) else m[..n] == Mask(items[0].text, r))
    && ReadsAsWritten(m[n + 1..], items[1..], r)
  }

  /** Statements begin with a word and end what they begin; no gap stands next to another. */
  predicate WellWritten(items: seq<Item>, r: Rules) { forall i :: 0 <= i < |items| ==> ItemIsFine(items, r, i) }

  predicate ItemIsFine(items: seq<Item>, r: Rules, i: nat)
    requires i < |items|
  {
    if items[i].Stmt? then items[i].text != "" && IsWord(items[i].text[0]) && Sealed(items[i].text, r, 0)
    else i + 1 < |items| ==> items[i + 1].Stmt?
  }

  /** Each gap is idle as a whole, and none with a statement after it leaves a comment or literal open. */
  predicate GapsAreIdle(items: seq<Item>, r: Rules) {
    forall i :: 0 <= i < |items| && items[i].Gap? ==>
      Idle(items[i].text, r) && (i + 1 < |items| ==> Ended(items[i].text, r, 0))
  }

  predicate FirstIsIdle(items: seq<Item>, r: Rules)
    requires items != []
  {
    items[0].Gap? ==> Idle(items[0].text, r) && (|items| > 1 ==> Ended(items[0].text, r, 0))
  }

  lemma RestOfItems(items: seq<Item>, r: Rules)
    requires items != []
    ensures WellWritten(items, r) ==> WellWritten(items[1..], r)
    ensures GapsAreIdle(items, r) <==> FirstIsIdle(items, r) && GapsAreIdle(items[1..], r)
  {
    hide Idle, Ended, Sealed, IsWord;
    assert forall i :: 0 <= i < |items| - 1 ==> items[1..][i] == items[i + 1];
    if WellWritten(items, r) {
      forall i | 0 <= i < |items| - 1 ensures ItemIsFine(items[1..], r, i) {
        assert ItemIsFine(items, r, i + 1);
      }
    }
    if FirstIsIdle(items, r) && GapsAreIdle(items[1..], r) {
      forall i | 0 <= i < |items| && items[i].Gap?
        ensures Idle(items[i].text, r) && (i + 1 < |items| ==> Ended(items[i].text, r, 0))
      {
        assert i > 0 ==> items[1..][i - 1] == items[i];
      }
    }
  }

  lemma WordSurvives(u: string, r: Rules)
    requires u != "" && IsWord(u[0])
    ensures Mask(u, r)[0] == u[0]
  {
    assert TokenAt(u, r, 0) == Token(Plain, 0, 0, 1, true);
  }

  /** A statement that is read as it is alone shows that the line before it was read to its end. */
  lemma StatementIsReached(u: string, v: string, rest: string, r: Rules)
    requires !r.keepIdent && v != "" && IsWord(v[0])
    requires var s := Lines(u, Lines(v, rest)); Mask(s, r)[|u| + 1..][..|v|] == Mask(v, r)
    ensures Reach(Lines(u, Lines(v, rest)), r, 0, |u|)
  {
    hide IsWord;
    var s := Lines(u, Lines(v, rest));
    var k := |u| + 1;
    WordSurvives(v, r);
    assert Mask(s, r)[k] == v[0] == s[k];
    SpaceIsNoWord(s[k]);
    WordIsReached(s, r, 0, k);
    BreakIsReached(s, r, 0, |u|);
  }

  lemma SpaceIsNoWord(c: char)
    ensures IsWord(c) ==> c != ' ' && c != '\n'
  {
  }

  /**
   * A script of comment lines and statements is read as its statements and nothing else if and only if each gap is
   * idle as a whole and leaves nothing open for the statement after it.
   */
  lemma {:induction false} ReadsIffGapsAreIdle(items: seq<Item>, r: Rules)
    requires !r.keepIdent && WellWritten(items, r)
    ensures ReadsAsWritten(Mask(ItemsText(items), r), items, r) <==> GapsAreIdle(items, r)
    decreases |items|
  {
    hide Mask, Idle, Ended, Sealed, WellWritten, GapsAreIdle, Lines, Reach, HasExecutableSql;
    if items == [] {
      NothingIsIdle(r);
    } else {
      var u, rest := items[0].text, ItemsText(items[1..]);
      RestOfItems(items, r);
      ReadsIffGapsAreIdle(items[1..], r);
      if items[0].Stmt? {
        StatementIsSealed(items, r, 0);
        SealedLine(u, rest, r);
        PeelLine(u, rest, r);
      } else if |items| == 1 {
        OnlyGap(items, r);
      } else {
        GapBeforeStatement(items, r);
      }
    }
  }

  lemma NothingIsIdle(r: Rules)
    ensures GapsAreIdle([], r)
  {
  }

  lemma StatementIsSealed(items: seq<Item>, r: Rules, i: nat)
    requires WellWritten(items, r) && i < |items| && items[i].Stmt?
    ensures items[i].text != "" && IsWord(items[i].text[0]) && Sealed(items[i].text, r, 0)
  {
    assert ItemIsFine(items, r, i);
  }

  lemma SecondIsRead(m: string, items: seq<Item>, r: Rules)
    requires |items| > 1 && items[1].Stmt? && ReadsAsWritten(m, items, r)
    ensures var n := |items[0].text| + 1;
            n <= |m| && |items[1].text| < |m[n..]| && m[n..][..|items[1].text|] == Mask(items[1].text, r)
  {
    hide Mask, HasExecutableSql;
    assert items[1..][0] == items[1];
    assert ReadsAsWritten(m[|items[0].text| + 1..], items[1..], r);
  }

  lemma OnlyGap(items: seq<Item>, r: Rules)
    requires !r.keepIdent && |items| == 1 && items[0].Gap?
    ensures ReadsAsWritten(Mask(ItemsText(items), r), items, r) <==> Idle(items[0].text, r)
  {
    hide Mask, HasExecutableSql;
    LastLine(items[0].text, r);
    var m := Mask(ItemsText(items), r);
    assert items[1..] == [] && ReadsAsWritten(m[|items[0].text| + 1..], [], r);
  }

  lemma GapBeforeStatement(items: seq<Item>, r: Rules)
    requires !r.keepIdent && WellWritten(items, r) && |items| > 1 && items[0].Gap?
    requires ReadsAsWritten(Mask(ItemsText(items[1..]), r), items[1..], r) <==> GapsAreIdle(items[1..], r)
    ensures ReadsAsWritten(Mask(ItemsText(items), r), items, r) <==>
            Idle(items[0].text, r) && Ended(items[0].text, r, 0) && GapsAreIdle(items[1..], r)
  {
    hide Mask, Ended, Sealed, GapsAreIdle, Lines, Reach, HasExecutableSql;
    var u, rest := items[0].text, ItemsText(items[1..]);
    var v, more := items[1].text, ItemsText(items[2..]);
    assert ItemIsFine(items, r, 0);
    assert items[1].Stmt? && items[1..][0] == items[1] && items[1..][1..] == items[2..];
    hide WellWritten;
    StatementIsSealed(items, r, 1);
    assert rest == Lines(v, more);
    if Idle(u, r) && Ended(u, r, 0) {
      ReachSelf(u, r, 0);
      IdleIsSealed(u, r, 0);
      SealedLine(u, rest, r);
      PeelLine(u, rest, r);
    } else if ReadsAsWritten(Mask(ItemsText(items), r), items, r) {
      SecondIsRead(Mask(ItemsText(items), r), items, r);
      StatementIsReached(u, v, more, r);
      PeelLine(u, rest, r);
    }
  }

  // --- comment lines ---

  /** Nothing but comments and white space, all of them ended. */
  ghost predicate IsComment(u: string, r: Rules) { AllSpace(Mask(u, r)) && Ended(u, r, 0) }

  lemma CommentIsIdle(u: string, r: Rules)
    requires IsComment(u, r)
    ensures Idle(u, r) && Sealed(u, r, 0)
  {
    hide Mask, Reach;
    SpaceIsIdle(Mask(u, r));
    ReachSelf(u, r, 0);
    IdleIsSealed(u, r, 0);
  }

  /** A line after `-- ` is one comment. */
  lemma CommentLine(text: string, r: Rules)
    requires '\n' !in text
    ensures IsComment("-- " + text, r)
  {
    var s := "-- " + text;
    assert s[0] == '-' && s[1] == '-' && s[2] == ' ';
    forall k | 0 <= k < |s| ensures NotNewline(s[k]) {
      assert k >= 3 ==> s[k] in text;
    }
    NoRunEnd(s, 2);
    assert OpeningAt(s, r, 0) == OpensLineComment(2);
    assert TokenAt(s, r, 0) == Token(LineComment, 0, |s|, |s|, true);
    forall k | 0 <= k < |s| ensures Mask(s, r)[k] == ' ' {
      assert Blanked(s, r, 0, k);
    }
  }

  lemma NoRunEnd(s: string, i: nat)
    requires i <= |s| && forall k :: i <= k < |s| ==> NotNewline(s[k])
    ensures RunEnd(s, i, NotNewline) == |s|
  {
  }

  lemma {:induction false} EndedBefore(s: string, r: Rules, i: nat, j: nat)
    requires i <= j < |s| && Reach(s, r, i, j) && Ended(s, r, j)
    ensures Ended(s, r, i)
    decreases j - i
  {
    if i < j {
      EndedBefore(s, r, TokenAt(s, r, i).next, j);
    }
  }

  lemma {:induction false} EndedFrom(s: string, r: Rules, i: nat, j: nat)
    requires i <= j <= |s| && Reach(s, r, i, j) && Ended(s, r, i)
    ensures Ended(s, r, j)
    decreases j - i
  {
    if i < j {
      EndedFrom(s, r, TokenAt(s, r, i).next, j);
    }
  }

  lemma {:induction false} EndedAfter(u: string, s: string, r: Rules, a: nat, i: nat)
    requires IsLine(u, s, a, |s|) && a <= i <= |s| && !r.keepIdent
    ensures Ended(s, r, i) <==> Ended(u, r, i - a)
    decreases |s| - i
  {
    hide TokenAt, IsLine;
    LineBounds(u, s, a, |s|);
    if i < |s| {
      LineTokenWithin(u, s, r, a, |s|, i);
      EndedAfter(u, s, r, a, TokenAt(s, r, i).next);
    }
  }

  /** Below a comment a text can be run, or is left open, exactly as it is alone. */
  lemma BelowComment(u: string, v: string, r: Rules)
    requires !r.keepIdent && IsComment(u, r) && v != ""
    ensures Idle(Lines(u, v), r) <==> Idle(v, r)
    ensures Ended(Lines(u, v), r, 0) <==> Ended(v, r, 0)
  {
    hide Mask, Reach, Ended, Sealed, Lines, IsLine, TokenAt, HasExecutableSql;
    CommentIsIdle(u, r);
    SealedLine(u, v, r);
    PeelLine(u, v, r);
    FirstLine(u, v);
    var s := Lines(u, v);
    PlainBreak(s, r, |u|);
    EndedAfter(v, s, r, |u| + 1, |u| + 1);
    if Ended(s, r, 0) {
      EndedFrom(s, r, 0, |u| + 1);
    } else if Ended(s, r, |u| + 1) {
      EndedBefore(s, r, 0, |u| + 1);
    }
    BreakIsMasked(u, v, r);
    MaskBelow(Mask(u, r), Mask(v, r), Mask(s, r), |u|);
  }

  lemma MaskBelow(mu: string, mv: string, m: string, n: nat)
    requires n < |m| && m[..n] == mu && m[n] == '\n' && m[n + 1..] == mv && AllSpace(mu)
    ensures HasExecutableSql(m) == HasExecutableSql(mv)
  {
    hide HasExecutableSql;
    ExecutableOfPadded(mu + "\n", mv, "");
    assert m == mu + "\n" + mv + "";
  }

  /** Comment lines below each other are comments. */
  lemma CommentLines(u: string, v: string, r: Rules)
    requires !r.keepIdent && IsComment(u, r) && IsComment(v, r) && v != ""
    ensures IsComment(Lines(u, v), r)
  {
    hide Mask, Reach, Ended, Sealed, Lines, IsLine, TokenAt;
    CommentIsIdle(u, r);
    SealedLine(u, v, r);
    PeelLine(u, v, r);
    BelowComment(u, v, r);
    var m := Mask(Lines(u, v), r);
    BreakIsMasked(u, v, r);
    assert m == m[..|u|] + [m[|u|]] + m[|u| + 1..];
  }

  lemma BreakIsMasked(u: string, v: string, r: Rules)
    ensures |Mask(Lines(u, v), r)| > |u| && Mask(Lines(u, v), r)[|u|] == '\n'
  {
  }

  // --- texts that are no comment lines ---

  lemma WordCanRun(u: string, r: Rules)
    requires u != "" && IsWord(u[0])
    ensures !Idle(u, r)
  {
    hide HasExecutableSql;
    WordSurvives(u, r);
    WordIsExecutable("", Mask(u, r));
    assert "" + Mask(u, r) == Mask(u, r);
  }

  /** A block comment without its end: idle, but not ended, and idle still with whatever follows it. */
  lemma OpenComment(r: Rules)
    ensures Idle("/*", r) && !Ended("/*", r, 0)
  {
    var s := "/*";
    assert s[0] == '/' && s[1] == '*';
    assert OpeningAt(s, r, 0) == OpensBlock;
    assert TokenAt(s, r, 0) == Token(BlockComment, 0, 2, 2, false);
    assert Mask(s, r) == "  ";
    SpaceIsIdle("  ");
  }

  lemma OpenCommentTakesAll(v: string, r: Rules)
    requires !Occurs("*/", v)
    ensures Idle(Lines("/*", v), r)
  {
    var s := Lines("/*", v);
    assert s[0] == '/' && s[1] == '*' && s[2] == '\n';
    forall k: nat | 2 <= k ensures !MatchAt(s, "*/", k) {
      if k > 2 && MatchAt(s, "*/", k) {
        assert v[k - 3] == s[k] == "*/"[0] && v[k - 2] == s[k + 1] == "*/"[1];
        assert MatchAt(v, "*/", k - 3);
      } else {
        assert "*/"[0] == '*';
      }
    }
    assert OpeningAt(s, r, 0) == OpensBlock;
    assert TokenAt(s, r, 0) == Token(BlockComment, 0, |s|, |s|, false);
    AllBlanked(s, r);
  }

  lemma AllBlanked(s: string, r: Rules)
    requires s != "" && TokenAt(s, r, 0).lo == 0 && TokenAt(s, r, 0).hi == TokenAt(s, r, 0).next == |s|
    ensures Idle(s, r)
  {
    hide TokenAt, HasExecutableSql;
    forall k | 0 <= k < |s| ensures IsSpace(Mask(s, r)[k]) {
      assert Blanked(s, r, 0, k);
    }
    SpaceIsIdle(Mask(s, r));
  }

  // --- what the splitter finds ---

  /** One statement: it begins with a word, and its mask shows a `;` at its end and nowhere else. */
  predicate OneStatement(u: string, r: Rules) {
    && |u| >= 2 && IsWord(u[0]) && !IsSpace(u[|u| - 2])
    && Mask(u, r)[|u| - 1] == ';' && (forall k :: 0 <= k < |u| - 1 ==> Mask(u, r)[k] != ';')
  }

  function WrittenStatements(items: seq<Item>): seq<string> {
    if items == [] then [] else (if items[0].Stmt? then [items[0].text] else []) + WrittenStatements(items[1..])
  }

  /** Something idle that has been passed since the last `;`. */
  ghost predicate Passed(m: string) { !HasExecutableSql(m) && NoSemi(m) && (m == "" || m[|m| - 1] == '\n') }

  lemma GapIsPassed(mp: string, m: string)
    requires Passed(mp) && !HasExecutableSql(m)
    ensures Passed(mp + m + "\n")
  {
    hide HasExecutableSql, RemoveClosers;
    IdleChars(m);
    IdleJoin(mp, m);
    AddBreak(mp + m);
  }

  lemma IdleJoin(mp: string, m: string)
    requires !HasExecutableSql(mp) && !HasExecutableSql(m) && NoCloserAcross(mp, m)
    ensures !HasExecutableSql(mp + m)
  {
    RemoveClosersAppend(mp, m);
  }

  lemma AddBreak(m: string)
    requires !HasExecutableSql(m)
    ensures !HasExecutableSql(m + "\n")
  {
    hide HasExecutableSql;
    ExecutableOfPadded("", m, "\n");
    assert "" + m + "\n" == m + "\n";
  }

  lemma WordIsExecutable(mp: string, m: string)
    requires m != "" && IsWord(m[0]) && (mp == "" || mp[|mp| - 1] == '\n')
    ensures HasExecutableSql(mp + m)
  {
    RemoveClosersAppend(mp, m);
    assert RemoveClosers(m)[0] == m[0] && m[0] in RemoveClosers(m);
    assert m[0] in RemoveClosers(mp) + RemoveClosers(m);
  }

  /** Each text of `ts` ends with the statement of `us` at its place, without its `;`. */
  predicate Tells(ts: seq<string>, us: seq<string>) {
    |ts| == |us| && forall i :: 0 <= i < |ts| ==> EndsWithStatement(ts[i], us[i])
  }

  predicate EndsWithStatement(t: string, u: string) {
    u != "" && |t| >= |u| - 1 && t[|t| - (|u| - 1)..] == u[..|u| - 1]
  }

  lemma TrimKeepsEnd(p: string, body: string)
    requires body != "" && !IsSpace(body[0]) && !IsSpace(body[|body| - 1])
    ensures var t := Trim(p + body); |t| >= |body| && t[|t| - |body|..] == body
  {
    hide IsSpace;
    var s := p + body;
    assert s[|p|] == body[0] && s[|s| - 1] == body[|body| - 1];
    assert TrimStartAt(s) <= |p| && TrimEndAt(s) == |s|;
  }

  lemma TellsMore(t: string, u: string, ts: seq<string>, us: seq<string>)
    requires EndsWithStatement(t, u) && Tells(ts, us)
    ensures Tells([t] + ts, [u] + us)
  {
    hide EndsWithStatement;
  }

  ghost predicate KeepsBreaks(sql: string, m: string) {
    |sql| == |m| && forall k :: 0 <= k < |sql| && sql[k] == '\n' ==> m[k] == '\n'
  }

  /** Regrouped around the `;` of the statement. */
  lemma CutParts(p: string, u: string, rest: string)
    requires u != "" && u[|u| - 1] == ';'
    ensures CutAt(p + Lines(u, rest), p + u[..|u| - 1], ';', "\n" + rest)
  {
    var n := |u| - 1;
    assert u == u[..n] + [';'];
    assert p + (u[..n] + [';'] + "\n" + rest) == p + u[..n] + [';'] + ("\n" + rest);
  }

  lemma FirstBreak(u: string, rest: string, m: string)
    requires KeepsBreaks(Lines(u, rest), m)
    ensures |m| == |u| + 1 + |rest| && m == Lines(m[..|u|], m[|u| + 1..]) && KeepsBreaks(rest, m[|u| + 1..])
  {
    var s := Lines(u, rest);
    assert s[|u|] == '\n' && m[|u|] == '\n';
    assert forall k :: 0 <= k < |rest| ==> s[|u| + 1 + k] == rest[k];
  }

  /** A statement and the rest, behind something idle: the splitter cuts at the `;` of the statement. */
  lemma StatementIsCut(p: string, mp: string, u: string, mu: string, rest: string, mrest: string)
    requires |p| == |mp| && Passed(mp) && |u| == |mu| && |rest| == |mrest| && |u| >= 2
    requires mu[|u| - 1] == ';' == u[|u| - 1] && NoSemi(mu[..|u| - 1]) && IsWord(mu[..|u| - 1][0])
    ensures |p + Lines(u, rest)| == |mp + Lines(mu, mrest)|
    ensures Texts(p + Lines(u, rest), mp + Lines(mu, mrest)) ==
            [Trim(p + u[..|u| - 1])] + Texts("\n" + rest, "\n" + mrest)
  {
    hide HasExecutableSql, RemoveClosers, IsWord, Texts, Trim, Lines, CutAt, Passed, NoSemi;
    var body, mbody := u[..|u| - 1], mu[..|u| - 1];
    CutParts(p, u, rest);
    CutParts(mp, mu, mrest);
    LinesLength(u, rest);
    LinesLength(mu, mrest);
    PassedWord(mp, mbody);
    TextsAtSemi(p + Lines(u, rest), mp + Lines(mu, mrest), p + body, mp + mbody, "\n" + rest, "\n" + mrest);
  }

  lemma PassedWord(mp: string, m: string)
    requires Passed(mp) && NoSemi(m) && m != "" && IsWord(m[0])
    ensures NoSemi(mp + m) && HasExecutableSql(mp + m)
  {
    hide HasExecutableSql, IsWord;
    NoSemiAppend(mp, m);
    WordIsExecutable(mp, m);
  }

  lemma StatementIsTold(p: string, u: string)
    requires |u| >= 2 && IsWord(u[0]) && !IsSpace(u[|u| - 2])
    ensures EndsWithStatement(Trim(p + u[..|u| - 1]), u)
  {
    hide IsSpace, IsWord, Trim;
    WordIsNoSpace(u[0]);
    TrimKeepsEnd(p, u[..|u| - 1]);
  }

  lemma LinesLength(u: string, rest: string)
    ensures |Lines(u, rest)| == |u| + 1 + |rest|
  {
  }

  lemma WordIsNoSpace(c: char)
    ensures IsWord(c) ==> !IsSpace(c)
  {
  }

  lemma StatementMaskParts(u: string, r: Rules)
    requires OneStatement(u, r)
    ensures var m, n := Mask(u, r), |u| - 1;
            && n > 0 && m[n] == ';' && u[n] == ';' && NoSemi(m[..n])
            && IsWord(m[..n][0]) && IsWord(u[0]) && !IsSpace(u[n - 1])
  {
    WordSurvives(u, r);
    hide Blanked;
    assert MaskedChar(u, r, |u| - 1) == ';';
  }

  lemma {:induction false} TextsOfItems(p: string, mp: string, items: seq<Item>, m: string, r: Rules)
    requires |p| == |mp| && Passed(mp) && KeepsBreaks(ItemsText(items), m) && ReadsAsWritten(m, items, r)
    requires forall u :: u in WrittenStatements(items) ==> OneStatement(u, r)
    ensures Tells(Texts(p + ItemsText(items), mp + m), WrittenStatements(items))
    decreases |items|
  {
    hide HasExecutableSql, Mask, Texts, Passed, OneStatement, Tells, Lines, KeepsBreaks, IsSpace, IsWord, Trim, NoSemi;
    if items == [] {
      NoItems(p, mp, m);
    } else {
      var u, rest := items[0].text, ItemsText(items[1..]);
      var mu, mrest := m[..|u|], m[|u| + 1..];
      FirstBreak(u, rest, m);
      LinesLength(u, rest);
      if items[0].Stmt? {
        StatementMaskParts(u, r);
        StatementIsCut(p, mp, u, mu, rest, mrest);
        StatementIsTold(p, u);
        PassedBreak();
        TextsOfItems("\n", "\n", items[1..], mrest, r);
        TellsMore(Trim(p + u[..|u| - 1]), u, Texts("\n" + rest, "\n" + mrest), WrittenStatements(items[1..]));
      } else {
        assert WrittenStatements(items) == WrittenStatements(items[1..]);
        GapIsPassed(mp, mu);
        TextsOfItems(p + u + "\n", mp + mu + "\n", items[1..], mrest, r);
        RegroupLines(p, u, rest);
        RegroupLines(mp, mu, mrest);
      }
    }
  }

  lemma RegroupLines(p: string, u: string, rest: string)
    ensures p + Lines(u, rest) == p + u + "\n" + rest
  {
  }

  lemma NoItems(p: string, mp: string, m: string)
    requires |p| == |mp| && Passed(mp) && KeepsBreaks("", m)
    ensures Texts(p + "", mp + m) == [] && Tells([], [])
  {
    IdleHasNoTexts(p, mp);
    assert p + "" == p && mp + m == mp;
  }

  lemma IdleHasNoTexts(p: string, mp: string)
    requires |p| == |mp| && Passed(mp)
    ensures Texts(p, mp) == []
  {
    TextsWithoutSemi(p, mp);
  }

  lemma PassedBreak()
    ensures Passed("\n") && Passed("")
  {
    SpaceIsIdle("\n");
    SpaceIsIdle("");
  }

  /** A script that reads as written is split into its statements, each with the comments before it. */
  lemma SplitterFindsStatements(items: seq<Item>, r: Rules)
    requires ReadsAsWritten(Mask(ItemsText(items), r), items, r)
    requires forall u :: u in WrittenStatements(items) ==> OneStatement(u, r)
    ensures var s := ItemsText(items); Tells(TextsOf(Ranges(s, Mask(s, r), 0)), WrittenStatements(items))
  {
    hide Texts, Ranges, TextsOf, OneStatement, ReadsAsWritten, Blanked;
    var s := ItemsText(items);
    var m := Mask(s, r);
    PassedBreak();
    TextsOfItems("", "", items, m, r);
    TextsAreRanges(s, m, 0);
    assert s[0..] == s == "" + s && m[0..] == m == "" + m;
  }
}
