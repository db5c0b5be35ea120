/** Every text is a script of pieces, so the mask of any text is told by how the drivers spell comments and literals. */
module MaskReading {
  import opened Text
  import opened MaskSpec
  import opened MaskGrammar

  // --- a value written as a literal ---

  /** The text `v` as each driver spells it: quotes doubled, or behind backslashes where those escape. */
  function Escaped(v: string, quote: char, slashes: bool): seq<Inner> {
    if v == "" then []
    else
      [if slashes && v[0] in {quote, '\\'} then Slashed(v[0]) else if v[0] == quote then Doubled else Itself(v[0])] +
      Escaped(v[1..], quote, slashes)
  }

  /** The text a literal stands for. */
  function ValueOf(inner: seq<Inner>, quote: char): string {
    if inner == [] then "" else [if inner[0].Doubled? then quote else inner[0].c] + ValueOf(inner[1..], quote)
  }

  lemma {:induction false} EscapedFits(v: string, quote: char, slashes: bool)
    ensures InnerFits(Escaped(v, quote, slashes), quote, slashes)
    ensures ValueOf(Escaped(v, quote, slashes), quote) == v
  {
    if v != "" {
      EscapedFits(v[1..], quote, slashes);
    }
  }

  /** The literal of `v` behind the text `before`. */
  function LiteralOf(v: string, quote: char, d: Driver, before: string): Piece {
    Literal(quote, Escaped(v, quote, Slashes(d, quote, before)))
  }

  lemma {:induction false} MaskedParts(ps: seq<Piece>, qs: seq<Piece>, r: Rules)
    ensures MaskedScript(ps + qs, r) == MaskedScript(ps, r) + MaskedScript(qs, r)
    ensures Script(ps + qs) == Script(ps) + Script(qs)
  {
    hide Masked, Written;
    if ps == [] {
      assert ps + qs == qs;
    } else {
      assert (ps + qs)[1..] == ps[1..] + qs;
      MaskedParts(ps[1..], qs, r);
    }
  }

  /**
   * For every driver, every text `v` and every quote: the literal of `v` may stand before anything but its own quote,
   * and the mask keeps its two quotes, blanks what is between except newlines (a quoted name is kept on demand), and
   * goes on right behind it as it does without it.
   */
  lemma ValueIsMasked(ps: seq<Piece>, v: string, quote: char, qs: seq<Piece>, r: Rules)
    requires IsMark(quote)
    requires WellFormed(ps + [LiteralOf(v, quote, r.driver, Script(ps))] + qs, r, "")
    ensures var inside := InnerText(LiteralOf(v, quote, r.driver, Script(ps)).inner, quote);
            Mask(Script(ps) + ([quote] + inside + [quote]) + Script(qs), r) ==
            MaskedScript(ps, r) + ([quote] + Content(inside, KeptName(r, quote)) + [quote]) + MaskedScript(qs, r)
  {
    hide WellFormed, Script, MaskedScript, Mask, InnerText, Content;
    var lit := LiteralOf(v, quote, r.driver, Script(ps));
    MaskOfScript(ps + [lit] + qs, r);
    MaskedParts(ps + [lit], qs, r);
    MaskedParts(ps, [lit], r);
    OnePiece(lit, r);
  }

  lemma OnePiece(p: Piece, r: Rules)
    ensures Script([p]) == Written(p) && MaskedScript([p], r) == Masked(p, r)
  {
    hide Written, Masked;
    assert [p][1..] == [];
  }

  lemma LiteralFits(v: string, quote: char, r: Rules, before: string, after: string)
    requires IsMark(quote)
    ensures Fits(LiteralOf(v, quote, r.driver, before), r, before, after) <==> !([quote] <= after)
  {
    hide Slashes, InnerFits, Escaped;
    EscapedFits(v, quote, Slashes(r.driver, quote, before));
  }

  lemma PushPiece(p: Piece, ps: seq<Piece>, r: Rules, before: string)
    ensures Script([p] + ps) == Written(p) + Script(ps) &&
            MaskedScript([p] + ps, r) == Masked(p, r) + MaskedScript(ps, r)
    ensures WellFormed([p] + ps, r, before) <==>
            Fits(p, r, before, Script(ps)) && WellFormed(ps, r, before + Written(p))
  {
    hide Written, Masked, Fits;
    assert ([p] + ps)[1..] == ps;
  }

  lemma PushInner(x: Inner, inner: seq<Inner>, quote: char)
    ensures InnerText([x] + inner, quote) ==
            (match x case Itself(c) => [c] case Doubled => [quote, quote] case Slashed(c) => ['\\', c]) +
            InnerText(inner, quote)
  {
    assert ([x] + inner)[1..] == inner;
  }

  /** The same characters read two ways: `\'` stays inside MySQL's literal and ends any other driver's. */
  lemma BackslashQuote(d: Driver)
    ensures Mask("'it\\'s'", DefaultRules(d)) == if d == MySql then "'     '" else "'   's'"
  {
    if d == MySql {
      QuoteInside(DefaultRules(d));
    } else {
      QuoteEndsIt(DefaultRules(d));
    }
  }

  lemma QuoteInside(r: Rules)
    requires r == DefaultRules(MySql)
    ensures Mask("'it\\'s'", r) == "'     '"
  {
    hide Mask, WellFormed, Script, MaskedScript, InnerText, IsWord;
    var inner := [Itself('i')] + ([Itself('t')] + ([Slashed('\'')] + ([Itself('s')] + [])));
    PushInner(Itself('s'), [], '\'');
    PushInner(Slashed('\''), [Itself('s')] + [], '\'');
    PushInner(Itself('t'), [Slashed('\'')] + ([Itself('s')] + []), '\'');
    PushInner(Itself('i'), [Itself('t')] + ([Slashed('\'')] + ([Itself('s')] + [])), '\'');
    NoInner('\'');
    assert InnerText(inner, '\'') == "it\\'s";
    var ps := [Literal('\'', inner)] + [];
    PushPiece(Literal('\'', inner), [], r, "");
    NoPieces(r, "" + Written(Literal('\'', inner)));
    MaskOfScript(ps, r);
    assert Script(ps) == "'it\\'s'";
  }

  lemma QuoteEndsIt(r: Rules)
    requires r.driver != MySql && r == DefaultRules(r.driver)
    ensures Mask("'it\\'s'", r) == "'   's'"
  {
    hide Mask, WellFormed, Script, MaskedScript, InnerText, Fits, Written, Masked;
    var inner := [Itself('i'), Itself('t'), Itself('\\')];
    var lit, open := Literal('\'', inner), OpenLiteral('\'', []);
    LiteralIt(inner, r);
    TailIt(r);
    NoPieces(r, "'it\\'s" + "'");
    PushPiece(open, [], r, "'it\\'s");
    assert "'it\\'" + "s" == "'it\\'s" && "'" + "" == "'" && "" + "'it\\'" == "'it\\'" && "s" + "'" == "s'";
    PushPiece(Code('s'), [open] + [], r, "'it\\'");
    PushPiece(lit, [Code('s')] + ([open] + []), r, "");
    var ps := [lit] + ([Code('s')] + ([open] + []));
    MaskOfScript(ps, r);
    assert "'it\\'" + "s'" == "'it\\'s'" && "'   '" + "s'" == "'   's'";
  }

  lemma LiteralIt(inner: seq<Inner>, r: Rules)
    requires inner == [Itself('i'), Itself('t'), Itself('\\')] && r.driver != MySql && !r.keepIdent
    ensures Written(Literal('\'', inner)) == "'it\\'" && Masked(Literal('\'', inner), r) == "'   '"
    ensures Fits(Literal('\'', inner), r, "", "s'")
  {
    hide IsWord;
    var rest := [Itself('t'), Itself('\\')];
    assert inner == [Itself('i')] + rest && rest == [Itself('t')] + [Itself('\\')];
    assert [Itself('\\')] == [Itself('\\')] + [];
    PushInner(Itself('\\'), [], '\'');
    PushInner(Itself('t'), [Itself('\\')], '\'');
    PushInner(Itself('i'), rest, '\'');
    NoInner('\'');
    hide InnerText;
    assert InnerText(inner, '\'') == "it\\";
    assert !Slashes(r.driver, '\'', "") && "s'"[0] == 's';
    assert InnerFits(inner, '\'', false);
  }

  lemma TailIt(r: Rules)
    requires !r.keepIdent
    ensures Written(Code('s')) == "s" && Written(OpenLiteral('\'', [])) == "'"
    ensures Masked(Code('s'), r) == "s" && Masked(OpenLiteral('\'', []), r) == "'"
    ensures Fits(Code('s'), r, "'it\\'", "'") && Fits(OpenLiteral('\'', []), r, "'it\\'s", "")
  {
    hide IsWord;
  }

  lemma NoInner(quote: char)
    ensures InnerText([], quote) == ""
  {
  }

  lemma NoPieces(r: Rules, before: string)
    ensures Script([]) == "" && MaskedScript([], r) == "" && WellFormed([], r, before)
  {
  }

  // --- every text is written in pieces ---

  /** A token's text between what is before it and what comes after. */
  predicate Splits(s: string, i: nat, n: nat, before: string, after: string) {
    i < n <= |s| && before == s[..i] && after == s[n..]
  }

  lemma CodeFits(s: string, r: Rules, i: nat, before: string, after: string)
    requires Splits(s, i, i + 1, before, after) && TokenAt(s, r, i).kind == Plain
    ensures Fits(Code(s[i]), r, before, after) && s[i..] == Written(Code(s[i])) + after
  {
    hide DollarTag, RunEnd, QuoteEnd, IndexOf, IsWord, IsGap, DashStartsComment, DollarQuotes, EndsInWord;
    var c := s[i];
    assert s == before + Written(Code(c)) + after;
    if c == '-' {
      DashOpens(s, r, i, before, after);
    } else if c == '/' {
      SlashOpens(s, i, before, after);
    } else if c == '$' {
      LooksBack(s, i, Code('$'), before, after);
      if DollarMayOpen(s, i) {
        NoDollarQuote(s, i, after);
      }
    } else if c == '[' && r.driver == Sqlite && !r.keepBrackets {
      NoCloser(s, i, after);
    }
  }

  lemma NoCloser(s: string, i: nat, after: string)
    requires i < |s| && after == s[i + 1..] && IndexOf(s, "]", i + 1) < 0
    ensures ']' !in after
  {
    if ']' in after {
      var k :| 0 <= k < |after| && after[k] == ']';
      assert s[i + 1 + k + 0] == ']';
      assert MatchAt(s, "]", i + 1 + k);
      IndexOfIsFirst(s, "]", i + 1, i + 1 + k);
    }
  }

  lemma TagBehind(s: string, i: nat, after: string, name: string)
    requires i < |s| && s[i] == '$' && after == s[i + 1..] && name + "$" <= after
    ensures var rest := after[|name| + 1..];
            s[i..] == Tag(name) + rest && i + |Tag(name)| <= |s| && s[i + |Tag(name)|..] == rest
  {
    assert after == name + "$" + after[|name| + 1..];
    assert s[i..] == "$" + after;
  }

  /** Where no dollar quote is read, none is written. */
  lemma NoDollarQuote(s: string, i: nat, after: string)
    requires i < |s| && s[i] == '$' && after == s[i + 1..]
    requires DollarTag(s, i) == "" || IndexOf(s, DollarTag(s, i), i + |DollarTag(s, i)|) < 0
    ensures !DollarQuotes(after)
  {
    if DollarQuotes(after) {
      var name: string :| IsTagName(name) && name + "$" <= after &&
        FoundBefore(Tag(name), after[|name| + 1..], |after|);
      hide *;
      WrittenIsRead(s, i, after, name);
    }
  }

  lemma WrittenIsRead(s: string, i: nat, after: string, name: string)
    requires i < |s| && s[i] == '$' && after == s[i + 1..] && IsTagName(name) && name + "$" <= after
    requires FoundBefore(Tag(name), after[|name| + 1..], |after|)
    ensures DollarTag(s, i) != "" && IndexOf(s, DollarTag(s, i), i + |DollarTag(s, i)|) >= 0
  {
    hide *;
    TagBehind(s, i, after, name);
    DollarTagIs(s, i, name, after[|name| + 1..]);
    TagIsLong(name);
    FoundIsIndex(s, Tag(name), i + |Tag(name)|, after[|name| + 1..], |after|);
  }

  lemma TagIsLong(name: string)
    ensures Tag(name) != ""
  {
  }

  lemma FoundIsIndex(s: string, w: string, from: nat, rest: string, n: nat)
    requires from <= |s| && s[from..] == rest && FoundBefore(w, rest, n)
    ensures IndexOf(s, w, from) >= 0
  {
    hide IndexOf, MatchAt;
    var k :| 0 <= k < n && k <= |rest| && w <= rest[k..];
    assert rest[k..] == s[from + k..];
    MatchIsPrefix(s, w, from + k);
    IndexOfIsFirst(s, w, from, from + k);
  }

  /** Before the first occurrence there is none. */
  lemma NothingBefore(s: string, w: string, from: nat, k: nat)
    requires from <= |s| && from <= k && IndexOf(s, w, from) == k
    ensures k + |w| <= |s| && s[k..k + |w|] == w && !FoundBefore(w, s[from..k] + w, k - from)
  {
    hide IndexOf;
    MatchIsPrefix(s, w, k);
    var t := s[from..k] + w;
    assert s[k..k + |w|] == w;
    assert t == s[from..k + |w|];
    if FoundBefore(w, t, k - from) {
      var x :| 0 <= x < k - from && x <= |t| && w <= t[x..];
      assert t[x..] == s[from + x..k + |w|];
      assert w <= s[from + x..];
      MatchIsPrefix(s, w, from + x);
      IndexOfIsFirst(s, w, from, from + x);
    }
  }

  lemma LineOf(s: string, from: nat)
    requires from <= |s|
    ensures var e := RunEnd(s, from, NotNewline); IsLine(s[from..e], s[e..])
  {
    var e := RunEnd(s, from, NotNewline);
    forall k | from <= k < e ensures s[k] != '\n' {
      RunEndStays(s, from, NotNewline, k);
    }
  }

  lemma LineMarks(s: string, r: Rules, i: nat)
    requires i < |s| && OpeningAt(s, r, i).OpensLineComment?
    ensures var skip := OpeningAt(s, r, i).skip;
            && i + skip <= |s| && s[i..] == s[i..i + skip] + s[i + skip..]
            && (if skip == 2 then s[i..i + 2] == "--" && (r.dashSpace ==> IsGap(s[i + 2..]))
                else skip == 1 && s[i..i + 1] == "#" && r.driver !in {Postgres, Sqlite})
  {
    hide DollarTag, RunEnd, IndexOf, IsWord, IsDigit, BackslashEscapes;
  }

  lemma LineFits(s: string, r: Rules, i: nat) returns (p: Piece)
    requires i < |s| && OpeningAt(s, r, i).OpensLineComment?
    ensures var n := RunEnd(s, i + OpeningAt(s, r, i).skip, NotNewline);
            Fits(p, r, s[..i], s[n..]) && s[i..] == Written(p) + s[n..]
  {
    LineMarks(s, r, i);
    var skip := OpeningAt(s, r, i).skip;
    var n := RunEnd(s, i + skip, NotNewline);
    LineOf(s, i + skip);
    SliceJoins(s, i + skip, n);
    p := LinePiece(s[i..i + skip], s[i + skip..n], s[n..], r, s[..i]);
  }

  lemma SliceJoins(s: string, from: nat, to: nat)
    requires from <= to <= |s|
    ensures s[from..] == s[from..to] + s[to..]
  {
  }

  lemma LinePiece(head: string, text: string, after: string, r: Rules, before: string) returns (p: Piece)
    requires IsLine(text, after)
    requires (head == "--" && (r.dashSpace ==> IsGap(text + after))) || (head == "#" && r.driver !in {Postgres, Sqlite})
    ensures Fits(p, r, before, after) && head + (text + after) == Written(p) + after
  {
    hide IsLine, IsGap;
    p := if head == "--" then DashLine(text) else HashLine(text);
    JoinThree(head, text, after);
  }

  lemma JoinThree(a: string, b: string, c: string)
    ensures a + (b + c) == a + b + c
  {
  }

  lemma VersionFits(s: string, r: Rules, i: nat) returns (p: Piece)
    requires i < |s| && OpeningAt(s, r, i).OpensVersion?
    ensures var n := RunEnd(s, i + 3, IsDigit); Fits(p, r, s[..i], s[n..]) && s[i..] == Written(p) + s[n..]
  {
    hide DollarTag, RunEnd, IndexOf, IsWord, IsDigit, BackslashEscapes;
    var n := RunEnd(s, i + 3, IsDigit);
    p := VersionMark(s[i + 3..n]);
    forall k | i + 3 <= k < n ensures IsDigit(s[k]) {
      RunEndStays(s, i + 3, IsDigit, k);
    }
    assert s[i..i + 3] == "/*!";
    assert s[i..] == s[i..i + 3] + s[i + 3..n] + s[n..];
  }

  lemma CommentFits(s: string, r: Rules, i: nat) returns (p: Piece)
    requires i < |s| && (OpeningAt(s, r, i).OpensLineComment? || OpeningAt(s, r, i).OpensVersion?)
    ensures var n := TokenAt(s, r, i).next; Fits(p, r, s[..i], s[n..]) && s[i..] == Written(p) + s[n..]
  {
    hide OpeningAt, RunEnd, Fits, Written, IndexOf, QuoteEnd;
    if OpeningAt(s, r, i).OpensVersion? {
      p := VersionFits(s, r, i);
    } else {
      p := LineFits(s, r, i);
    }
  }

  lemma BlockMarks(s: string, r: Rules, i: nat)
    requires i < |s| && OpeningAt(s, r, i).OpensBlock?
    ensures i + 2 <= |s| && s[i..] == "/*" + s[i + 2..] && !("!" <= s[i + 2..])
    ensures var k := IndexOf(s, "*/", i + 2); TokenAt(s, r, i).next == if k >= 0 then k + 2 else |s|
  {
    hide DollarTag, RunEnd, IndexOf, IsWord, BackslashEscapes, QuoteEnd;
    assert s[i] == '/' && s[i + 1] == '*' && !Is(s, i + 2, '!');
  }

  lemma BlockFits(s: string, r: Rules, i: nat) returns (p: Piece)
    requires i < |s| && OpeningAt(s, r, i).OpensBlock?
    ensures var n := TokenAt(s, r, i).next; Fits(p, r, s[..i], s[n..]) && s[i..] == Written(p) + s[n..]
  {
    hide *;
    BlockMarks(s, r, i);
    var k := IndexOf(s, "*/", i + 2);
    if k >= 0 {
      p := ClosedBlock(s, r, i + 2, k, s[..i]);
    } else {
      p := UnclosedBlock(s, r, i + 2, s[i + 2..], s[..i]);
    }
  }

  lemma ClosedBlock(s: string, r: Rules, from: nat, k: nat, before: string) returns (p: Piece)
    requires from <= |s| && from <= k && IndexOf(s, "*/", from) == k && !("!" <= s[from..])
    ensures k + 2 <= |s| && Fits(p, r, before, s[k + 2..]) && "/*" + s[from..] == Written(p) + s[k + 2..]
  {
    hide *;
    NothingBefore(s, "*/", from, k);
    p := Block(s[from..k]);
    BlockParts(s, from, k);
    ClosedFits("/*" + s[from..], s[from..k], s[k + 2..], r, before);
  }

  lemma UnclosedBlock(s: string, r: Rules, from: nat, text: string, before: string) returns (p: Piece)
    requires from <= |s| && text == s[from..] && IndexOf(s, "*/", from) < 0 && !("!" <= text)
    ensures Fits(p, r, before, s[|s|..]) && "/*" + text == Written(p) + s[|s|..]
  {
    hide *;
    p := OpenBlock(text);
    if FoundBefore("*/", text, |text|) {
      FoundIsIndex(s, "*/", from, text, |text|);
    }
    OpenFits(text, r, before);
    assert s[|s|..] == "";
  }

  lemma BlockParts(s: string, from: nat, k: nat)
    requires from <= k && k + 2 <= |s| && s[k..k + 2] == "*/"
    ensures s[from..] == s[from..k] + "*/" + s[k + 2..]
  {
  }

  lemma ClosedFits(t: string, text: string, after: string, r: Rules, before: string)
    requires t == "/*" + (text + "*/" + after) && !("!" <= text + "*/" + after) &&
             !FoundBefore("*/", text + "*/", |text|)
    ensures Fits(Block(text), r, before, after) && t == Written(Block(text)) + after
  {
    hide FoundBefore;
    assert text != "" ==> (text + "*/" + after)[0] == text[0];
  }

  lemma OpenFits(text: string, r: Rules, before: string)
    requires !("!" <= text) && !FoundBefore("*/", text, |text|)
    ensures Fits(OpenBlock(text), r, before, "") && "/*" + text == Written(OpenBlock(text)) + ""
  {
    hide FoundBefore;
  }

  lemma DollarFits(s: string, r: Rules, i: nat) returns (p: Piece)
    requires i < |s| && DollarMayOpen(s, i) && DollarTag(s, i) != ""
    requires IndexOf(s, DollarTag(s, i), i + |DollarTag(s, i)|) >= 0
    ensures var n := IndexOf(s, DollarTag(s, i), i + |DollarTag(s, i)|) + |DollarTag(s, i)|;
            n <= |s| && Fits(p, r, s[..i], s[n..]) && s[i..] == Written(p) + s[n..]
  {
    hide DollarTag, IndexOf, IsWord, FoundBefore, IsTagName, MatchAt, Tag;
    TagName(s, i, s[i + 1..]);
    var tag := DollarTag(s, i);
    var name, from := tag[1..|tag| - 1], i + |tag|;
    var k := IndexOf(s, tag, from);
    NothingBefore(s, tag, from, k);
    p := Dollar(name, s[from..k]);
    DollarSplits(s, i, tag, from, k);
  }

  lemma BracketFits(s: string, r: Rules, i: nat) returns (p: Piece)
    requires i < |s| && BracketMayOpen(s, r, i) && IndexOf(s, "]", i + 1) >= 0
    ensures var n := IndexOf(s, "]", i + 1) + 1;
            n <= |s| && Fits(p, r, s[..i], s[n..]) && s[i..] == Written(p) + s[n..]
  {
    hide IndexOf, FoundBefore, MatchAt;
    var k := IndexOf(s, "]", i + 1);
    NothingBefore(s, "]", i + 1, k);
    p := BracketName(s[i + 1..k]);
    NoInnerBracket(s[i + 1..k]);
    assert s[i..] == "[" + s[i + 1..k] + s[k..k + 1] + s[k + 1..];
  }

  lemma SearchFits(s: string, r: Rules, i: nat) returns (p: Piece)
    requires i < |s| && OpeningAt(s, r, i).OpensSearch? && TokenAt(s, r, i).kind != Plain
    ensures var n := TokenAt(s, r, i).next; Fits(p, r, s[..i], s[n..]) && s[i..] == Written(p) + s[n..]
  {
    hide DollarTag, RunEnd, QuoteEnd, IndexOf, IsWord, BackslashEscapes, Fits, Written;
    if s[i] == '$' {
      p := DollarFits(s, r, i);
    } else {
      p := BracketFits(s, r, i);
    }
  }

  lemma DollarSplits(s: string, i: nat, tag: string, from: nat, k: nat)
    requires i <= from <= k && k + |tag| <= |s| && from == i + |tag| && s[i..from] == tag && s[k..k + |tag|] == tag
    ensures s[i..] == tag + s[from..k] + tag + s[k + |tag|..]
  {
    assert s[i..] == s[i..from] + s[from..k] + s[k..k + |tag|] + s[k + |tag|..];
  }

  lemma NoInnerBracket(body: string)
    requires !FoundBefore("]", body + "]", |body|)
    ensures ']' !in body
  {
    forall k | 0 <= k < |body| ensures body[k] == ']' ==> "]" <= (body + "]")[k..] {
    }
  }

  /** What stands at `j` inside a literal that goes on there. */
  function FirstOf(s: string, j: nat, q: char, slashes: bool): Inner
    requires j < |s|
  {
    if s[j] == q then Doubled
    else if slashes && s[j] == '\\' && j + 1 < |s| then Slashed(s[j + 1])
    else Itself(s[j])
  }

  lemma FirstFits(s: string, j: nat, q: char, slashes: bool)
    requires j < |s| && QuoteStep(s, j, q, slashes) > 0
    ensures var first, d := FirstOf(s, j, q, slashes), QuoteStep(s, j, q, slashes);
            && InnerText([first], q) == s[j..j + d]
            && (InnerFits([first], q, slashes) || (j + d == |s| && first == Itself('\\')))
            && QuoteEnd(s, j, q, slashes) == QuoteEnd(s, j + d, q, slashes)
  {
    var first := FirstOf(s, j, q, slashes);
    assert [first][1..] == [] && InnerText([], q) == "";
  }

  lemma FitsTogether(first: Inner, rest: seq<Inner>, q: char, slashes: bool)
    requires InnerFits([first], q, slashes)
    ensures InnerFits(rest, q, slashes) ==> InnerFits([first] + rest, q, slashes)
    ensures OpenInnerFits(rest, q, slashes) ==> OpenInnerFits([first] + rest, q, slashes)
  {
    assert [first][0] == first;
    var all := [first] + rest;
    if rest != [] && InnerFits(rest[..|rest| - 1], q, slashes) {
      assert all[..|all| - 1] == [first] + rest[..|rest| - 1];
    }
  }

  lemma LoneBackslash(q: char, slashes: bool)
    ensures OpenInnerFits([Itself('\\')], q, slashes)
  {
    assert [Itself('\\')][..0] == [];
  }

  /** What a literal scanned from `j` holds. */
  ghost predicate Holds(s: string, j: nat, q: char, slashes: bool, inner: seq<Inner>)
    requires j <= |s|
  {
    var (e, closed) := QuoteEnd(s, j, q, slashes);
    if closed then InnerFits(inner, q, slashes) && s[j..] == InnerText(inner, q) + ([q] + s[e..]) && !Is(s, e, q)
    else OpenInnerFits(inner, q, slashes) && s[j..] == InnerText(inner, q)
  }

  lemma HoldsNothing(s: string, j: nat, q: char, slashes: bool)
    requires j <= |s| && (j < |s| ==> QuoteStep(s, j, q, slashes) == 0)
    ensures Holds(s, j, q, slashes, [])
  {
    if j < |s| {
      assert s[j..] == [q] + s[j + 1..];
    }
  }

  lemma HoldsMore(s: string, j: nat, q: char, slashes: bool, rest: seq<Inner>)
    requires j < |s| && QuoteStep(s, j, q, slashes) > 0
    requires Holds(s, j + QuoteStep(s, j, q, slashes), q, slashes, rest)
    requires InnerFits([FirstOf(s, j, q, slashes)], q, slashes)
    ensures Holds(s, j, q, slashes, [FirstOf(s, j, q, slashes)] + rest)
  {
    hide InnerFits, OpenInnerFits, InnerText, FirstOf, QuoteEnd;
    var first, d := FirstOf(s, j, q, slashes), QuoteStep(s, j, q, slashes);
    hide QuoteStep;
    FirstFits(s, j, q, slashes);
    FitsTogether(first, rest, q, slashes);
    var (e, closed) := QuoteEnd(s, j, q, slashes);
    var tail := if closed then [q] + s[e..] else "";
    InnerSplits([first] + rest, q, tail);
    assert ([first] + rest)[1..] == rest;
    assert s[j..] == s[j..j + d] + s[j + d..];
    assert InnerText(rest, q) + "" == InnerText(rest, q);
    assert InnerText([first] + rest, q) + "" == InnerText([first] + rest, q);
  }

  lemma {:induction false} InnerOf(s: string, j: nat, q: char, slashes: bool) returns (inner: seq<Inner>)
    requires j <= |s|
    ensures Holds(s, j, q, slashes, inner)
    decreases |s| - j
  {
    hide Holds, QuoteStep, InnerFits, FirstOf, OpenInnerFits, InnerText, QuoteEnd;
    if j == |s| || QuoteStep(s, j, q, slashes) == 0 {
      inner := [];
      HoldsNothing(s, j, q, slashes);
    } else {
      var first, d := FirstOf(s, j, q, slashes), QuoteStep(s, j, q, slashes);
      FirstFits(s, j, q, slashes);
      if InnerFits([first], q, slashes) {
        var rest := InnerOf(s, j + d, q, slashes);
        HoldsMore(s, j, q, slashes, rest);
        inner := [first] + rest;
      } else {
        inner := [first];
        HoldsLast(s, j, q, slashes);
      }
    }
  }

  lemma HoldsLast(s: string, j: nat, q: char, slashes: bool)
    requires j < |s| && QuoteStep(s, j, q, slashes) > 0 && j + QuoteStep(s, j, q, slashes) == |s|
    requires FirstOf(s, j, q, slashes) == Itself('\\')
    ensures Holds(s, j, q, slashes, [Itself('\\')])
  {
    FirstFits(s, j, q, slashes);
    LoneBackslash(q, slashes);
  }

  lemma NotAhead(s: string, e: nat, c: char)
    requires e <= |s| && !Is(s, e, c)
    ensures !([c] <= s[e..])
  {
  }

  lemma JoinFour(a: string, b: string, c: string, d: string)
    ensures a + (b + (c + d)) == a + b + c + d
  {
  }

  lemma LiteralHolds(s: string, r: Rules, i: nat, slashes: bool, inner: seq<Inner>) returns (p: Piece)
    requires i < |s| && IsMark(s[i]) && Holds(s, i + 1, s[i], slashes, inner)
    requires slashes == Slashes(r.driver, s[i], s[..i])
    ensures var n := QuoteEnd(s, i + 1, s[i], slashes).0; Fits(p, r, s[..i], s[n..]) && s[i..] == Written(p) + s[n..]
  {
    hide Slashes, InnerFits, OpenInnerFits, InnerText, QuoteEnd;
    var q := s[i];
    var (e, closed) := QuoteEnd(s, i + 1, q, slashes);
    assert s[i..] == [q] + s[i + 1..];
    if closed {
      p := Literal(q, inner);
      JoinFour([q], InnerText(inner, q), [q], s[e..]);
      NotAhead(s, e, q);
    } else {
      p := OpenLiteral(q, inner);
      assert s[e..] == "";
    }
  }

  lemma QuoteFits(s: string, r: Rules, i: nat) returns (p: Piece)
    requires i < |s| && OpeningAt(s, r, i).OpensQuote?
    ensures var n := TokenAt(s, r, i).next; Fits(p, r, s[..i], s[n..]) && s[i..] == Written(p) + s[n..]
  {
    hide DollarTag, RunEnd, IndexOf, IsWord, BackslashEscapes, Slashes, QuoteEnd, Fits, Written, Holds;
    var slashes := Slashes(r.driver, s[i], s[..i]);
    SlashesIsEscapes(s, r, i, s[i], s[..i]);
    var inner := InnerOf(s, i + 1, s[i], slashes);
    p := LiteralHolds(s, r, i, slashes, inner);
  }

  lemma TokenFits(s: string, r: Rules, i: nat) returns (p: Piece)
    requires i < |s|
    ensures var n := TokenAt(s, r, i).next; Fits(p, r, s[..i], s[n..]) && s[i..] == Written(p) + s[n..]
  {
    hide Fits, Written;
    var o := OpeningAt(s, r, i);
    PlainByOpening(s, r, i);
    if TokenAt(s, r, i).kind == Plain {
      p := Code(s[i]);
      CodeFits(s, r, i, s[..i], s[i + 1..]);
    } else {
      hide TokenAt, OpeningAt;
      match o
      case OpensBlock => p := BlockFits(s, r, i);
      case OpensSearch(_, _) => p := SearchFits(s, r, i);
      case OpensQuote(_) => p := QuoteFits(s, r, i);
      case _ => p := CommentFits(s, r, i);
    }
  }

  lemma PlainByOpening(s: string, r: Rules, i: nat)
    requires i < |s|
    ensures OpeningAt(s, r, i).OpensNothing? ==> TokenAt(s, r, i).kind == Plain
  {
    hide OpeningAt;
  }

  /** Every text from a token on is written in pieces that fit. */
  lemma {:induction false} TextIsWritten(s: string, r: Rules, i: nat) returns (ps: seq<Piece>)
    requires i <= |s|
    ensures WellFormed(ps, r, s[..i]) && Script(ps) == s[i..]
    decreases |s| - i
  {
    hide Fits, Written, TokenAt;
    ps := [];
    if i < |s| {
      var n := TokenAt(s, r, i).next;
      var p := TokenFits(s, r, i);
      var rest := TextIsWritten(s, r, n);
      PieceEnds(s, i, n, p);
      PushPiece(p, rest, r, s[..i]);
      ps := [p] + rest;
    }
  }

  lemma PieceEnds(s: string, i: nat, n: nat, p: Piece)
    requires i <= n <= |s| && s[i..] == Written(p) + s[n..]
    ensures s[..i] + Written(p) == s[..n]
  {
    hide Written;
    assert s == s[..i] + s[i..];
    assert s[i..][..n - i] == Written(p);
  }

  /**
   * For every text, driver and options: the text is written in pieces, each spelled as the driver spells it and none
   * opening where it may not, and its mask is theirs put together.
   */
  lemma MaskIsToldByPieces(s: string, r: Rules) returns (ps: seq<Piece>)
    ensures WellFormed(ps, r, "") && Script(ps) == s && Mask(s, r) == MaskedScript(ps, r)
  {
    hide WellFormed, Script, MaskedScript, Mask;
    ps := TextIsWritten(s, r, 0);
    assert s[..0] == "" && s[0..] == s;
    MaskOfScript(ps, r);
  }
}
