/** The column list of a cloned CREATE TABLE: taking the foreign keys to the table itself out, and nothing else. */
module CloneSegments {
  import opened Common
  import opened Text
  import opened CloneTokens

  predicate IsMark(t: Token, mark: string) { t.kind == Punct && t.text == mark }

  predicate IsGap(t: Token) { t.kind == Ws || t.kind == Comment }

  predicate IsName(t: Token) { t.kind == Word || t.kind == QIdent }

  function NameValue(t: Token): string { if t.kind == QIdent && t.value.Some? then t.value.value else t.text }

  function UpperChar(c: char): char { if 'a' <= c <= 'z' then (c as int - 32) as char else c }

  function Upper(s: string): string { seq(|s|, k requires 0 <= k < |s| => UpperChar(s[k])) }

  /** The next token at or after `from` that is not white space or a comment, or -1. */
  function NextSig(tokens: seq<Token>, from: nat): (i: int)
    ensures i == -1 || from <= i < |tokens|
    decreases |tokens| - from
  {
    if from >= |tokens| then -1 else if !IsGap(tokens[from]) then from else NextSig(tokens, from + 1)
  }

  /** The last part of the possibly qualified name that starts with the part ending at `end`. */
  function LastPart(tokens: seq<Token>, end: nat, last: string): string
    requires end <= |tokens|
    decreases |tokens| - end
  {
    var dot := NextSig(tokens, end);
    if dot < 0 || !IsMark(tokens[dot], ".") then last
    else
      var part := NextSig(tokens, dot + 1);
      if part < 0 || !IsName(tokens[part]) then last else LastPart(tokens, part + 1, NameValue(tokens[part]))
  }

  function ReadName(tokens: seq<Token>, from: nat): Option<string> {
    var start := NextSig(tokens, from);
    if start < 0 || !IsName(tokens[start]) then None else Some(LastPart(tokens, start + 1, NameValue(tokens[start])))
  }

  predicate IsWordToken(t: Token, word: string) { t.kind == Word && Upper(t.text) == word }

  function FindWord(tokens: seq<Token>, word: string, from: nat): (i: int)
    ensures i == -1 || from <= i < |tokens|
    decreases |tokens| - from
  {
    if from >= |tokens| then -1 else if IsWordToken(tokens[from], word) then from else FindWord(tokens, word, from + 1)
  }

  /** A foreign key, named or not, whose reference is the new table. */
  predicate IsSelfForeignKey(seg: seq<Token>, newName: string) {
    var first := NextSig(seg, 0);
    if first < 0 then false
    else
      var key :=
        if Upper(seg[first].text) != "CONSTRAINT" then first
        else (var n := NextSig(seg, first + 1); if n < 0 then -1 else NextSig(seg, n + 1));
      if key < 0 || Upper(seg[key].text) != "FOREIGN" then false
      else
        var ref := FindWord(seg, "REFERENCES", 0);
        ref >= 0 && ReadName(seg, ref + 1) == Some(newName)
  }

  // --- cutting the list at its commas ---

  datatype Cut = Cut(segs: seq<seq<Token>>, tail: seq<Token>)

  /** The segments up to the parenthesis that closes the list; `cur` is the part of the first one already read. */
  function CutList(ts: seq<Token>, depth: nat, cur: seq<Token>): Option<Cut>
    requires depth >= 1
    decreases |ts|
  {
    if ts == [] then None
    else if IsMark(ts[0], "(") then CutList(ts[1..], depth + 1, cur + [ts[0]])
    else if IsMark(ts[0], ")") then
      if depth == 1 then Some(Cut([cur], ts)) else CutList(ts[1..], depth - 1, cur + [ts[0]])
    else if IsMark(ts[0], ",") && depth == 1 then
      var rest := CutList(ts[1..], 1, []);
      if rest.None? then None else Some(Cut([cur] + rest.value.segs, rest.value.tail))
    else CutList(ts[1..], depth, cur + [ts[0]])
  }

  const COMMA := Token(Punct, ",", None)

  function JoinSegs(segs: seq<seq<Token>>): seq<Token> {
    if segs == [] then [] else if |segs| == 1 then segs[0] else segs[0] + ([COMMA] + JoinSegs(segs[1..]))
  }

  /** Read from `depth`, the parentheses of `seg` close again and no comma stands outside them. */
  predicate Closed(seg: seq<Token>, depth: nat)
    decreases |seg|
  {
    if seg == [] then depth == 1
    else if IsMark(seg[0], "(") then Closed(seg[1..], depth + 1)
    else if IsMark(seg[0], ")") then depth > 1 && Closed(seg[1..], depth - 1)
    else if IsMark(seg[0], ",") then depth > 1 && Closed(seg[1..], depth)
    else Closed(seg[1..], depth)
  }

  lemma {:induction false} CutSegment(seg: seq<Token>, rest: seq<Token>, depth: nat, cur: seq<Token>)
    requires depth >= 1 && Closed(seg, depth)
    ensures CutList(seg + rest, depth, cur) == CutList(rest, 1, cur + seg)
    decreases |seg|
  {
    if seg == [] {
      assert seg + rest == rest && cur + seg == cur;
    } else {
      var next := if IsMark(seg[0], "(") then depth + 1 else if IsMark(seg[0], ")") then depth - 1 else depth;
      CutSegment(seg[1..], rest, next, cur + [seg[0]]);
      assert (seg + rest)[1..] == seg[1..] + rest;
      assert cur + [seg[0]] + seg[1..] == cur + seg;
    }
  }

  /** Closed segments joined by commas and closed by a parenthesis are cut into just those segments. */
  lemma {:induction false} CutOfJoin(segs: seq<seq<Token>>, tail: seq<Token>)
    requires segs != [] && (forall i :: 0 <= i < |segs| ==> Closed(segs[i], 1)) && tail != [] && IsMark(tail[0], ")")
    ensures CutList(JoinSegs(segs) + tail, 1, []) == Some(Cut(segs, tail))
  {
    hide Closed;
    if |segs| == 1 {
      CutSegment(segs[0], tail, 1, []);
      assert [] + segs[0] == segs[0] && segs == [segs[0]];
    } else {
      var more := JoinSegs(segs[1..]) + tail;
      CutSegment(segs[0], [COMMA] + more, 1, []);
      CutAtComma(more, [] + segs[0]);
      CutOfJoin(segs[1..], tail);
      JoinRest(segs, tail);
      hide CutList, JoinSegs;
      assert [] + segs[0] == segs[0] && segs == [segs[0]] + segs[1..];
    }
  }

  lemma CutAtComma(rest: seq<Token>, cur: seq<Token>)
    ensures CutList([COMMA] + rest, 1, cur) ==
            if CutList(rest, 1, []).None? then None
            else Some(Cut([cur] + CutList(rest, 1, []).value.segs, CutList(rest, 1, []).value.tail))
  {
    assert ([COMMA] + rest)[1..] == rest;
  }

  lemma JoinRest(segs: seq<seq<Token>>, tail: seq<Token>)
    requires |segs| > 1
    ensures JoinSegs(segs) + tail == segs[0] + ([COMMA] + (JoinSegs(segs[1..]) + tail))
  {
    var rest := JoinSegs(segs[1..]);
    assert segs[0] + ([COMMA] + rest) + tail == segs[0] + ([COMMA] + (rest + tail));
  }

  predicate PlainMarks(ts: seq<Token>) { forall t :: t in ts && t.kind == Punct ==> t.value == None }

  /** The segments are closed, and joined again they are the tokens that were read. */
  predicate SoundCut(ts: seq<Token>, depth: nat, cur: seq<Token>, c: Cut) {
    && c.segs != [] && cur <= c.segs[0] && Closed(c.segs[0][|cur|..], depth)
    && (forall i :: 1 <= i < |c.segs| ==> Closed(c.segs[i], 1))
    && cur + ts == JoinSegs(c.segs) + c.tail && c.tail != [] && IsMark(c.tail[0], ")")
  }

  lemma {:induction false} CutIsSound(ts: seq<Token>, depth: nat, cur: seq<Token>)
    requires depth >= 1 && PlainMarks(ts) && CutList(ts, depth, cur).Some?
    ensures SoundCut(ts, depth, cur, CutList(ts, depth, cur).value)
    decreases |ts|
  {
    hide SoundCut, PlainMarks;
    PlainRest(ts);
    if IsMark(ts[0], ")") && depth == 1 {
      SoundAtClose(ts, cur);
    } else if IsMark(ts[0], ",") && depth == 1 {
      CutIsSound(ts[1..], 1, []);
      SoundAtComma(ts, cur, CutList(ts[1..], 1, []).value);
    } else {
      var next := if IsMark(ts[0], "(") then depth + 1 else if IsMark(ts[0], ")") then depth - 1 else depth;
      CutIsSound(ts[1..], next, cur + [ts[0]]);
      SoundAfterPush(ts, depth, next, cur, CutList(ts[1..], next, cur + [ts[0]]).value);
    }
  }

  lemma PlainRest(ts: seq<Token>)
    requires PlainMarks(ts) && ts != []
    ensures PlainMarks(ts[1..]) && (IsMark(ts[0], ",") ==> ts[0] == COMMA)
  {
    assert ts[0] in ts;
  }

  lemma SoundAtClose(ts: seq<Token>, cur: seq<Token>)
    requires ts != [] && IsMark(ts[0], ")")
    ensures SoundCut(ts, 1, cur, Cut([cur], ts))
  {
    assert cur[|cur|..] == [];
  }

  lemma SoundAtComma(ts: seq<Token>, cur: seq<Token>, rest: Cut)
    requires ts != [] && ts[0] == COMMA && SoundCut(ts[1..], 1, [], rest)
    ensures SoundCut(ts, 1, cur, Cut([cur] + rest.segs, rest.tail))
  {
    hide Closed, IsMark;
    var segs := [cur] + rest.segs;
    assert segs[1..] == rest.segs && rest.segs[0][0..] == rest.segs[0];
    JoinRest(segs, rest.tail);
    assert [] + ts[1..] == ts[1..] && ts == [COMMA] + ts[1..];
    hide JoinSegs;
    assert Closed(cur[|cur|..], 1) by {
      assert cur[|cur|..] == [];
      EmptyIsClosed();
    }
  }

  lemma EmptyIsClosed()
    ensures Closed([], 1)
  {
  }

  lemma SoundAfterPush(ts: seq<Token>, depth: nat, next: nat, cur: seq<Token>, c: Cut)
    requires ts != [] && depth >= 1 && SoundCut(ts[1..], next, cur + [ts[0]], c)
    requires next == (if IsMark(ts[0], "(") then depth + 1 else if IsMark(ts[0], ")") then depth - 1 else depth)
    requires IsMark(ts[0], ")") || IsMark(ts[0], ",") ==> depth > 1
    ensures SoundCut(ts, depth, cur, c)
  {
    hide Closed, JoinSegs;
    PushedIsClosed(c.segs[0], cur, ts[0], depth, next);
    assert cur + [ts[0]] + ts[1..] == cur + ts;
  }

  lemma PushedIsClosed(seg: seq<Token>, cur: seq<Token>, t: Token, depth: nat, next: nat)
    requires cur + [t] <= seg && Closed(seg[|cur| + 1..], next) && depth >= 1
    requires next == (if IsMark(t, "(") then depth + 1 else if IsMark(t, ")") then depth - 1 else depth)
    requires (IsMark(t, ")") || IsMark(t, ",")) ==> depth > 1
    ensures Closed(seg[|cur|..], depth)
  {
    var s := seg[|cur|..];
    assert s[0] == t && s[1..] == seg[|cur| + 1..];
  }

  // --- detaching ---

  predicate ParenFree(ts: seq<Token>) { forall i :: 0 <= i < |ts| ==> !IsMark(ts[i], "(") }

  function FirstOpen(ts: seq<Token>): (i: int)
    ensures i == -1 || (0 <= i < |ts| && IsMark(ts[i], "(") && ParenFree(ts[..i]))
    ensures i == -1 ==> ParenFree(ts)
  {
    if ts == [] then -1
    else if IsMark(ts[0], "(") then 0
    else
      var rest := FirstOpen(ts[1..]);
      if rest < 0 then ParenFreeBehind(ts, |ts|); -1 else ParenFreeBehind(ts, rest + 1); rest + 1
  }

  lemma ParenFreeBehind(ts: seq<Token>, n: nat)
    requires 0 < n <= |ts| && !IsMark(ts[0], "(") && ParenFree(ts[1..][..n - 1])
    ensures ParenFree(ts[..n])
  {
    hide IsMark;
    forall i | 0 <= i < n ensures !IsMark(ts[..n][i], "(") {
      assert i > 0 ==> ts[1..][..n - 1][i - 1] == ts[i];
    }
  }

  /** The segments that stay, or those that go, in their order. */
  function Select(segs: seq<seq<Token>>, newName: string, own: bool): seq<seq<Token>> {
    if segs == [] then []
    else
      var n := |segs| - 1;
      Select(segs[..n], newName, own) + if IsSelfForeignKey(segs[n], newName) == own then [segs[n]] else []
  }

  function Render(tokens: seq<Token>): string { Trim(Join(tokens)) }

  function AlterOf(newName: string, seg: seq<Token>): string { "ALTER TABLE " + newName + " ADD " + Render(seg) }

  function Alters(newName: string, segs: seq<seq<Token>>): seq<string> {
    seq(|segs|, i requires 0 <= i < |segs| => AlterOf(newName, segs[i]))
  }

  datatype Detached = Detached(tokens: seq<Token>, alters: seq<string>)

  /** The table definition without its foreign keys to itself, and the statements that add them afterwards. */
  function Detach(tokens: seq<Token>, newName: string): Detached {
    var open := FirstOpen(tokens);
    if open < 0 then Detached(tokens, [])
    else
      var cut := CutList(tokens[open + 1..], 1, []);
      if cut.None? then Detached(tokens, [])
      else
        var own := Select(cut.value.segs, newName, true);
        if own == [] then Detached(tokens, [])
        else
          var kept := JoinSegs(Select(cut.value.segs, newName, false));
          Detached(tokens[..open + 1] + kept + cut.value.tail, Alters(newName, own))
  }

  lemma SelectNothing(newName: string)
    ensures Select([], newName, true) == [] == Select([], newName, false) && JoinSegs([]) == []
    ensures Alters(newName, []) == []
  {
  }

  lemma SelectPush(segs: seq<seq<Token>>, i: nat, newName: string)
    requires i < |segs|
    ensures var own, rest := Select(segs[..i], newName, true), Select(segs[..i], newName, false);
            var isOwn := IsSelfForeignKey(segs[i], newName);
            && Select(segs[..i + 1], newName, true) == (if isOwn then own + [segs[i]] else own)
            && Select(segs[..i + 1], newName, false) == (if isOwn then rest else rest + [segs[i]])
            && Alters(newName, own + [segs[i]]) == Alters(newName, own) + [AlterOf(newName, segs[i])]
  {
    hide IsSelfForeignKey, AlterOf;
    assert segs[..i + 1][..i] == segs[..i];
  }

  lemma AltersCount(newName: string, segs: seq<seq<Token>>)
    ensures |Alters(newName, segs)| == |segs|
  {
  }

  method CutSegments(tokens: seq<Token>, open: nat) returns (segs: seq<seq<Token>>, close: int)
    requires open < |tokens| && IsMark(tokens[open], "(")
    ensures close >= 0 ==> close < |tokens| && CutList(tokens[open + 1..], 1, []) == Some(Cut(segs, tokens[close..]))
    ensures close < 0 ==> CutList(tokens[open + 1..], 1, []) == None
  {
    hide CutList;
    segs := [];
    PrefixNone(CutList(tokens[open + 1..], 1, []));
    CutOfNone();
    var cur: seq<Token> := [];
    var depth := 1;
    close := -1;
    for i := open + 1 to |tokens|
      invariant depth >= 1
      invariant CutList(tokens[open + 1..], 1, []) == Prefixed(segs, CutList(tokens[i..], depth, cur))
    {
      var t := tokens[i];
      CutStep(tokens[i..], depth, cur);
      assert tokens[i..][1..] == tokens[i + 1..];
      if IsMark(t, "(") {
        depth := depth + 1;
      } else if IsMark(t, ")") {
        depth := depth - 1;
        if depth == 0 {
          return segs + [cur], i;
        }
      } else if IsMark(t, ",") && depth == 1 {
        PrefixMore(segs, cur, CutList(tokens[i + 1..], 1, []));
        segs := segs + [cur];
        cur := [];
        continue;
      }
      cur := cur + [t];
    }
  }

  function Prefixed(segs: seq<seq<Token>>, c: Option<Cut>): Option<Cut> {
    if c.None? then None else Some(Cut(segs + c.value.segs, c.value.tail))
  }

  lemma CutStep(ts: seq<Token>, depth: nat, cur: seq<Token>)
    requires ts != [] && depth >= 1
    ensures var t := ts[0];
            CutList(ts, depth, cur) ==
            if IsMark(t, "(") then CutList(ts[1..], depth + 1, cur + [t])
            else if IsMark(t, ")") then
              (if depth == 1 then Some(Cut([cur], ts)) else CutList(ts[1..], depth - 1, cur + [t]))
            else if IsMark(t, ",") && depth == 1 then Prefixed([cur], CutList(ts[1..], 1, []))
            else CutList(ts[1..], depth, cur + [t])
  {
  }

  lemma CutOfNone()
    ensures forall depth: nat, cur: seq<Token> :: depth >= 1 ==> CutList([], depth, cur) == None
  {
  }

  lemma PrefixNone(c: Option<Cut>)
    ensures Prefixed([], c) == c
  {
    if c.Some? {
      assert [] + c.value.segs == c.value.segs;
    }
  }

  lemma PrefixMore(segs: seq<seq<Token>>, cur: seq<Token>, c: Option<Cut>)
    ensures Prefixed(segs, Prefixed([cur], c)) == Prefixed(segs + [cur], c)
  {
    if c.Some? {
      assert segs + ([cur] + c.value.segs) == segs + [cur] + c.value.segs;
    }
  }

  method DetachSelfForeignKeys(tokens: seq<Token>, newName: string) returns (d: Detached)
    ensures d == Detach(tokens, newName)
  {
    hide CutList, IsSelfForeignKey, Alters, JoinSegs, Select, FirstOpen;
    var open := FirstOpen(tokens);
    if open < 0 {
      return Detached(tokens, []);
    }
    var segs, close := CutSegments(tokens, open);
    if close < 0 {
      return Detached(tokens, []);
    }
    var kept, alters := [], [];
    SelectNothing(newName);
    for i := 0 to |segs|
      invariant kept == Select(segs[..i], newName, false)
      invariant alters == Alters(newName, Select(segs[..i], newName, true))
    {
      SelectPush(segs, i, newName);
      if IsSelfForeignKey(segs[i], newName) {
        alters := alters + [AlterOf(newName, segs[i])];
      } else {
        kept := kept + [segs[i]];
      }
    }
    assert segs[..|segs|] == segs;
    AltersCount(newName, Select(segs, newName, true));
    if alters == [] {
      return Detached(tokens, []);
    }
    var out := AppendSegments(tokens[..open + 1], kept);
    d := Detached(out + tokens[close..], alters);
  }

  /** The segments written behind the tokens before them, with commas between. */
  method AppendSegments(head: seq<Token>, kept: seq<seq<Token>>) returns (out: seq<Token>)
    ensures out == head + JoinSegs(kept)
  {
    hide JoinSegs;
    out := head;
    SelectNothing("");
    for i := 0 to |kept|
      invariant out == head + JoinSegs(kept[..i])
    {
      JoinPush(kept[..i], kept[i]);
      assert kept[..i + 1] == kept[..i] + [kept[i]];
      var joined := JoinSegs(kept[..i]);
      if i > 0 {
        assert head + (joined + [COMMA] + kept[i]) == head + joined + [COMMA] + kept[i];
        out := out + [COMMA];
      }
      out := out + kept[i];
    }
    assert kept[..|kept|] == kept;
  }

  lemma {:induction false} JoinPush(segs: seq<seq<Token>>, seg: seq<Token>)
    ensures JoinSegs(segs + [seg]) == if segs == [] then seg else JoinSegs(segs) + [COMMA] + seg
  {
    var more := segs + [seg];
    if segs != [] {
      JoinPush(segs[1..], seg);
      assert more[1..] == segs[1..] + [seg];
      if |segs| > 1 {
        assert segs[0] + ([COMMA] + (JoinSegs(segs[1..]) + [COMMA] + seg)) ==
               segs[0] + ([COMMA] + JoinSegs(segs[1..])) + [COMMA] + seg;
      }
    }
  }

  // --- what detaching guarantees ---

  lemma {:induction false} SelectSplits(segs: seq<seq<Token>>, newName: string)
    ensures multiset(segs) == multiset(Select(segs, newName, false)) + multiset(Select(segs, newName, true))
  {
    hide IsSelfForeignKey, Select, Alters;
    SelectNothing(newName);
    if segs != [] {
      var n := |segs| - 1;
      SelectSplits(segs[..n], newName);
      SelectPush(segs, n, newName);
      assert segs[..n + 1] == segs == segs[..n] + [segs[n]];
    }
  }

  lemma {:induction false} SelectedFrom(segs: seq<seq<Token>>, newName: string, own: bool)
    ensures forall seg :: seg in Select(segs, newName, own) ==> seg in segs && IsSelfForeignKey(seg, newName) == own
  {
    hide IsSelfForeignKey;
    if segs != [] {
      var n := |segs| - 1;
      SelectedFrom(segs[..n], newName, own);
      assert segs == segs[..n] + [segs[n]];
    }
  }

  lemma {:induction false} NoneSelected(segs: seq<seq<Token>>, newName: string)
    requires forall seg :: seg in segs ==> !IsSelfForeignKey(seg, newName)
    ensures Select(segs, newName, true) == []
  {
    hide IsSelfForeignKey;
    if segs != [] {
      NoneSelected(segs[..|segs| - 1], newName);
    }
  }

  lemma EmptyIsNoKey(newName: string)
    ensures !IsSelfForeignKey([], newName)
  {
  }

  lemma SoundSegments(ts: seq<Token>, c: Cut)
    requires SoundCut(ts, 1, [], c)
    ensures forall i :: 0 <= i < |c.segs| ==> Closed(c.segs[i], 1)
    ensures c.tail != [] && IsMark(c.tail[0], ")") && ts == JoinSegs(c.segs) + c.tail
  {
    hide Closed, JoinSegs;
    assert c.segs[0][0..] == c.segs[0] && [] + ts == ts;
  }

  lemma DetachParts(tokens: seq<Token>, newName: string, open: nat, c: Cut)
    requires FirstOpen(tokens) == open && CutList(tokens[open + 1..], 1, []) == Some(c) &&
             Detach(tokens, newName).alters != []
    ensures Detach(tokens, newName) ==
            Detached(tokens[..open + 1] + JoinSegs(Select(c.segs, newName, false)) + c.tail,
                     Alters(newName, Select(c.segs, newName, true)))
  {
    hide CutList, JoinSegs, Select, AlterOf;
  }

  /** The list of the kept segments, written back in place, is cut into those segments again. */
  lemma Recut(tokens: seq<Token>, open: nat, c: Cut, newName: string)
    requires open < |tokens| && FirstOpen(tokens) == open
    requires (forall i :: 0 <= i < |c.segs| ==> Closed(c.segs[i], 1)) && c.tail != [] && IsMark(c.tail[0], ")")
    ensures var kept := Select(c.segs, newName, false);
            var out := tokens[..open + 1] + JoinSegs(kept) + c.tail;
            && FirstOpen(out) == open && out[..open + 1] == tokens[..open + 1]
            && CutList(out[open + 1..], 1, []) == Some(Cut(if kept == [] then [[]] else kept, c.tail))
            && Detach(out, newName) == Detached(out, [])
  {
    hide IsSelfForeignKey, Closed, JoinSegs, CutList, Select, IsMark;
    SelectedFrom(c.segs, newName, false);
    var kept := Select(c.segs, newName, false);
    var back := if kept == [] then [[]] else kept;
    var out := tokens[..open + 1] + JoinSegs(kept) + c.tail;
    JoinOfBack(kept);
    BackIsClosed(c.segs, kept);
    CutOfJoin(back, c.tail);
    assert out[open + 1..] == JoinSegs(back) + c.tail;
    FirstOpenStays(tokens, out, open);
    EmptyIsNoKey(newName);
    NoneSelected(back, newName);
  }

  /**
   * Detaching neither loses nor doubles a part of the column list: kept and detached segments are the segments that
   * were there; the kept ones, in order, are the column list of the new text; and detaching again finds nothing.
   */
  lemma DetachConserves(tokens: seq<Token>, newName: string, open: nat, c: Cut)
    requires PlainMarks(tokens) && FirstOpen(tokens) == open && CutList(tokens[open + 1..], 1, []) == Some(c)
    requires Detach(tokens, newName).alters != []
    ensures tokens == tokens[..open + 1] + (JoinSegs(c.segs) + c.tail)
    ensures multiset(c.segs) == multiset(Select(c.segs, newName, false)) + multiset(Select(c.segs, newName, true))
    ensures Detach(tokens, newName).alters == Alters(newName, Select(c.segs, newName, true))
    ensures var kept, out := Select(c.segs, newName, false), Detach(tokens, newName).tokens;
            && FirstOpen(out) == open && out[..open + 1] == tokens[..open + 1]
            && CutList(out[open + 1..], 1, []) == Some(Cut(if kept == [] then [[]] else kept, c.tail))
            && Detach(out, newName) == Detached(out, [])
  {
    hide AlterOf, Closed, JoinSegs, CutList, PlainMarks, SoundCut, Select, Detach, IsMark, Alters, IsSelfForeignKey,
         ParenFree;
    DetachParts(tokens, newName, open, c);
    var ts := tokens[open + 1..];
    PlainSuffix(tokens, open + 1);
    CutIsSound(ts, 1, []);
    SoundSegments(ts, c);
    SelectSplits(c.segs, newName);
    Recut(tokens, open, c, newName);
    assert tokens == tokens[..open + 1] + ts;
  }

  lemma JoinOfBack(kept: seq<seq<Token>>)
    ensures JoinSegs(if kept == [] then [[]] else kept) == JoinSegs(kept)
  {
  }

  lemma BackIsClosed(segs: seq<seq<Token>>, kept: seq<seq<Token>>)
    requires (forall i :: 0 <= i < |segs| ==> Closed(segs[i], 1)) && forall seg :: seg in kept ==> seg in segs
    ensures forall i :: 0 <= i < |kept| ==> Closed(kept[i], 1)
    ensures Closed([], 1)
  {
    EmptyIsClosed();
    hide Closed;
    forall i | 0 <= i < |kept| ensures Closed(kept[i], 1) {
      assert kept[i] in segs;
    }
  }

  lemma PlainSuffix(ts: seq<Token>, i: nat)
    requires PlainMarks(ts) && i <= |ts|
    ensures PlainMarks(ts[i..])
  {
  }

  lemma {:induction false} FirstOpenStays(a: seq<Token>, b: seq<Token>, open: nat)
    requires FirstOpen(a) == open && open < |b| && a[..open + 1] == b[..open + 1]
    ensures FirstOpen(b) == open
    decreases open
  {
    assert a[0] == a[..open + 1][0] == b[..open + 1][0] == b[0];
    if open > 0 {
      assert a[1..][..open] == a[..open + 1][1..] == b[..open + 1][1..] == b[1..][..open];
      FirstOpenStays(a[1..], b[1..], open - 1);
    }
  }
}
