/** How each token of a DDL text is spelled, and that whatever is spelled so is read as that token. */
module CloneSpelling {
  import opened Common
  import opened Text
  import opened CloneTokens
  import G = MaskGrammar

  /** Inside quotes: a character, the doubled closing quote, or a character behind a backslash. */
  type Inner = G.Inner

  function Between(inner: seq<Inner>, close: char): string { G.InnerText(inner, close) }

  /** What quoted characters stand for. */
  function Meant(inner: seq<Inner>, close: char): string {
    if inner == [] then "" else [if inner[0].Doubled? then close else inner[0].c] + Meant(inner[1..], close)
  }

  /** Backslashes escape in MySQL's strings and in PostgreSQL's behind an E of its own. */
  predicate Slashes(d: Driver, before: string) {
    d == MySql ||
    (d == Postgres && before != "" && before[|before| - 1] in {'e', 'E'} &&
     (|before| > 1 ==> !IsWord(before[|before| - 2])))
  }

  predicate InnerFits(inner: seq<Inner>, close: char, slashes: bool) {
    forall n :: 0 <= n < |inner| ==>
      match inner[n]
      case Itself(c) => c != close && !(slashes && c == '\\')
      case Doubled => true
      case Slashed(_) => slashes
  }

  /** The marks that begin and end a quoted name. */
  predicate NameMarks(open: char, close: char) { (open, close) in {('"', '"'), ('`', '`'), ('[', ']')} }

  const MARKS := {'(', ')', ',', ';', '.', '='}

  predicate BeginsComment(s: string) { "--" <= s || "/*" <= s }

  /** A character that goes on a word, `rest` being the text from it on. */
  predicate InWord(rest: string)
    requires rest != ""
  {
    !IsSpace(rest[0]) && rest[0] !in MARKS && rest[0] !in {'\'', '"', '`', '['} && !BeginsComment(rest)
  }

  /** The token `t` may be spelled between `before` and `after`. */
  ghost predicate Spelled(t: Token, d: Driver, before: string, after: string) {
    match t.kind
    case Ws =>
      t.value.None? && t.text != "" && (forall c :: c in t.text ==> IsSpace(c)) && (after != "" ==> !IsSpace(after[0]))
    case Punct => t.value.None? && |t.text| == 1 && t.text[0] in MARKS
    case Comment =>
      t.value.None? &&
      ((exists line: string :: IsLine(t.text, line, after)) ||
       (exists body: string :: IsBlock(t.text, body) && !("!" <= body)))
    case Versioned => t.value.None? && exists body: string :: IsBlock(t.text, body) && "!" <= body
    case Str =>
      t.value.None? && exists inner: seq<Inner> :: IsQuoted(t.text, '\'', '\'', inner, Slashes(d, before), after)
    case QIdent =>
      exists open: char, close: char, inner: seq<Inner> ::
        NameMarks(open, close) && IsQuoted(t.text, open, close, inner, false, after) &&
        t.value == Some(Meant(inner, close))
    case Word =>
      t.value.None? && t.text != "" && (after != "" ==> !InWord(after)) &&
      forall k :: 0 <= k < |t.text| ==> InWord(t.text[k..] + after)
  }

  predicate IsLine(text: string, line: string, after: string) {
    text == "--" + line && '\n' !in line && (after != "" ==> after[0] == '\n')
  }

  ghost predicate IsBlock(text: string, body: string) {
    text == "/*" + body + "*/" && !G.FoundBefore("*/", body + "*/", |body|)
  }

  predicate IsQuoted(text: string, open: char, close: char, inner: seq<Inner>, slashes: bool, after: string) {
    text == [open] + Between(inner, close) + [close] && InnerFits(inner, close, slashes) && !([close] <= after)
  }

  // --- what is spelled so is read so ---

  predicate Stands(s: string, i: nat, text: string, after: string) {
    text != "" && i + |text| <= |s| && s[i..i + |text|] == text && s[i + |text|..] == after && s[i..] == text + after
  }

  lemma RunOf(s: string, i: nat, text: string, after: string, p: char -> bool)
    requires Stands(s, i, text, after) && (after != "" ==> !p(after[0]))
    requires forall k :: 1 <= k < |text| ==> p(text[k])
    ensures RunEnd(s, i + 1, p) == i + |text|
  {
    forall k | i + 1 <= k < i + |text| ensures p(s[k]) {
      assert s[k] == s[i..i + |text|][k - i];
    }
    assert i + |text| < |s| ==> s[i + |text|] == after[0];
    G.RunReaches(s, i + 1, i + |text|, p);
  }

  lemma SpaceIsRead(s: string, d: Driver, i: nat, t: Token, before: string, after: string)
    requires Stands(s, i, t.text, after) && t.kind == Ws && Spelled(t, d, before, after)
    ensures TokenAt(s, d, i) == t
  {
    assert s[i] == t.text[0];
    RunOf(s, i, t.text, after, IsSpace);
  }

  lemma MarkIsRead(s: string, d: Driver, i: nat, t: Token, before: string, after: string)
    requires Stands(s, i, t.text, after) && t.kind == Punct && Spelled(t, d, before, after)
    ensures TokenAt(s, d, i) == t
  {
    hide QuoteEnd, WordEnd, BlockEnd, RunEnd;
    assert s[i] == t.text[0];
  }

  lemma LineIsRead(s: string, d: Driver, i: nat, t: Token, line: string, after: string)
    requires Stands(s, i, t.text, after) && t.kind == Comment && t.value.None? && IsLine(t.text, line, after)
    ensures TokenAt(s, d, i) == t
  {
    hide QuoteEnd, WordEnd, BlockEnd;
    assert s[i] == t.text[0] && s[i + 1] == t.text[1];
    forall k | i + 2 <= k < i + |t.text| ensures NotNewline(s[k]) {
      assert s[k] == t.text[k - i] == line[k - i - 2];
    }
    assert i + |t.text| < |s| ==> s[i + |t.text|] == after[0];
    G.RunReaches(s, i + 2, i + |t.text|, NotNewline);
  }

  lemma BlockEnds(s: string, i: nat, body: string, after: string)
    requires i + 2 <= |s| && s[i + 2..] == body + "*/" + after && !G.FoundBefore("*/", body + "*/", |body|)
    ensures BlockEnd(s, i) == i + 4 + |body|
    ensures Is(s, i + 2, '!') <==> "!" <= body
  {
    hide IndexOf;
    G.SearchFinds(s, "*/", i + 2, body, after);
    hide G.FoundBefore;
    var rest := body + "*/" + after;
    assert s[i + 2] == rest[0] == if body == "" then '*' else body[0];
  }

  lemma BlockIsRead(s: string, d: Driver, i: nat, t: Token, body: string, after: string)
    requires Stands(s, i, t.text, after) && t.value.None? && IsBlock(t.text, body)
    requires t.kind == if "!" <= body then Versioned else Comment
    ensures TokenAt(s, d, i) == t
  {
    hide QuoteEnd, WordEnd, RunEnd, BlockEnd, G.FoundBefore;
    assert s[i + 2..] == s[i..][2..];
    assert (t.text + after)[2..] == body + "*/" + after;
    assert s[i] == t.text[0] && s[i + 1] == t.text[1];
    BlockEnds(s, i, body, after);
  }

  /** The rest of a quoted text from `j` on. */
  predicate Closes(s: string, j: nat, close: char, slashes: bool, inner: seq<Inner>, after: string) {
    && j <= |s| && s[j..] == Between(inner, close) + ([close] + after)
    && InnerFits(inner, close, slashes) && !([close] <= after) && close in {'\'', '"', '`', ']'}
  }

  lemma ClosesNow(s: string, c: char, slashes: bool, j: nat, after: string)
    requires Closes(s, j, Close(c), slashes && c == '\'', [], after)
    ensures QuoteEnd(s, c, slashes, j) == j && Between([], Close(c)) == ""
  {
    assert s[j..] == [Close(c)] + after;
    assert s[j] == s[j..][0] == Close(c);
    assert s[j + 1..] == s[j..][1..] == after;
  }

  lemma ClosesLater(s: string, c: char, slashes: bool, j: nat, inner: seq<Inner>, after: string)
    requires Closes(s, j, Close(c), slashes && c == '\'', inner, after) && inner != []
    ensures var w := |Between([inner[0]], Close(c))|;
            && 0 < w && |Between(inner, Close(c))| == w + |Between(inner[1..], Close(c))|
            && Closes(s, j + w, Close(c), slashes && c == '\'', inner[1..], after)
            && QuoteEnd(s, c, slashes, j) == QuoteEnd(s, c, slashes, j + w)
  {
    var q, head := Close(c), Between([inner[0]], Close(c));
    var rest := Between(inner[1..], q) + ([q] + after);
    G.InnerSplits(inner, q, [q] + after);
    G.InnerAlone(inner[0], q);
    G.HeadStands(s, j, head, rest);
  }

  lemma {:induction false} QuoteIsRead(s: string, c: char, slashes: bool, j: nat, inner: seq<Inner>, after: string)
    requires Closes(s, j, Close(c), slashes && c == '\'', inner, after)
    ensures QuoteEnd(s, c, slashes, j) == j + |Between(inner, Close(c))|
    decreases |inner|
  {
    hide *;
    if inner == [] {
      ClosesNow(s, c, slashes, j, after);
    } else {
      ClosesLater(s, c, slashes, j, inner, after);
      QuoteIsRead(s, c, slashes, j + |Between([inner[0]], Close(c))|, inner[1..], after);
    }
  }

  lemma EscapesIsSlashes(s: string, d: Driver, i: nat)
    requires i <= |s|
    ensures Escapes(s, d, i) <==> Slashes(d, s[..i])
  {
  }

  lemma StringIsRead(s: string, d: Driver, i: nat, t: Token, inner: seq<Inner>, after: string)
    requires Stands(s, i, t.text, after) && t.kind == Str && t.value.None?
    requires IsQuoted(t.text, '\'', '\'', inner, Slashes(d, s[..i]), after)
    ensures TokenAt(s, d, i) == t
  {
    hide WordEnd, RunEnd, BlockEnd, QuoteEnd, Between, InnerFits, Escapes, Slashes;
    EscapesIsSlashes(s, d, i);
    QuotedStands(s, i, t.text, '\'', '\'', inner, after);
    QuoteIsRead(s, '\'', Escapes(s, d, i), i + 1, inner, after);
  }

  lemma QuotedStands(s: string, i: nat, text: string, open: char, close: char, inner: seq<Inner>, after: string)
    requires Stands(s, i, text, after) && text == [open] + Between(inner, close) + [close]
    ensures s[i] == open && s[i + 1..] == Between(inner, close) + ([close] + after)
    ensures |text| == |Between(inner, close)| + 2
  {
    hide Between;
    assert s[i] == text[0];
    assert s[i + 1..] == s[i..][1..];
  }

  lemma {:induction false} UndoubledIsMeant(inner: seq<Inner>, close: char)
    requires InnerFits(inner, close, false)
    ensures Undouble(Between(inner, close), close) == Meant(inner, close)
  {
    if inner != [] {
      var head, rest := Between([inner[0]], close), Between(inner[1..], close);
      G.InnerSplits(inner, close, "");
      G.InnerAlone(inner[0], close);
      assert Between(inner, close) == head + rest;
      UndoubledIsMeant(inner[1..], close);
      UndoubleHead(head, rest, close);
    }
  }

  lemma UndoubleHead(head: string, rest: string, close: char)
    requires head == [close, close] || (|head| == 1 && head[0] != close)
    ensures Undouble(head + rest, close) == [head[0]] + Undouble(rest, close)
  {
    var s := head + rest;
    if |head| == 2 {
      assert s[2..] == rest;
    } else {
      assert s[1..] == rest;
      assert |s| < 2 ==> rest == "";
    }
  }

  lemma NameExtent(s: string, d: Driver, i: nat, text: string, open: char, close: char, inner: seq<Inner>,
                   after: string)
    requires Stands(s, i, text, after) && NameMarks(open, close)
    requires IsQuoted(text, open, close, inner, false, after)
    ensures Extent(s, d, i) == (QIdent, i + |text|)
  {
    hide WordEnd, RunEnd, BlockEnd, QuoteEnd, Between, InnerFits, Escapes;
    QuotedStands(s, i, text, open, close, inner, after);
    QuoteIsRead(s, open, Escapes(s, d, i), i + 1, inner, after);
  }

  lemma NameIsMeant(text: string, open: char, close: char, inner: seq<Inner>)
    requires NameMarks(open, close) && text == [open] + Between(inner, close) + [close]
    requires InnerFits(inner, close, false)
    ensures Unquoted(text) == Meant(inner, close)
  {
    hide Between, InnerFits, Undouble, Meant;
    UndoubledIsMeant(inner, close);
    assert text[1..|text| - 1] == Between(inner, close);
  }

  lemma NameIsRead(s: string, d: Driver, i: nat, t: Token, open: char, close: char, inner: seq<Inner>, after: string)
    requires Stands(s, i, t.text, after) && t.kind == QIdent && t.value == Some(Meant(inner, close))
    requires NameMarks(open, close) && IsQuoted(t.text, open, close, inner, false, after)
    ensures TokenAt(s, d, i) == t
  {
    hide Extent, Between, InnerFits, Meant, Unquoted, NameMarks;
    NameExtent(s, d, i, t.text, open, close, inner, after);
    NameIsMeant(t.text, open, close, inner);
  }

  lemma WordGoesOn(s: string, i: nat, rest: string)
    requires i < |s| && rest == s[i..]
    ensures InWord(rest) <==> !EndsWord(s, i)
  {
    assert s[i] == rest[0];
    assert i + 1 < |s| ==> s[i + 1] == rest[1];
  }

  lemma {:induction false} WordEnds(s: string, j: nat, n: nat)
    requires j <= n <= |s| && (forall k :: j <= k < n ==> !EndsWord(s, k)) && (n < |s| ==> EndsWord(s, n))
    ensures WordEnd(s, j) == n
    decreases n - j
  {
    hide EndsWord;
    if j < n {
      WordEnds(s, j + 1, n);
    }
  }

  lemma WordIsRead(s: string, d: Driver, i: nat, t: Token, before: string, after: string)
    requires Stands(s, i, t.text, after) && t.kind == Word && Spelled(t, d, before, after)
    ensures TokenAt(s, d, i) == t
  {
    hide WordEnd, RunEnd, BlockEnd, QuoteEnd, InWord, EndsWord, Escapes;
    var n := i + |t.text|;
    forall k | i <= k < n ensures !EndsWord(s, k) {
      assert s[k..] == (t.text + after)[k - i..] == t.text[k - i..] + after;
      WordGoesOn(s, k, t.text[k - i..] + after);
    }
    if n < |s| {
      WordGoesOn(s, n, after);
    }
    WordEnds(s, i + 1, n);
    WordBegins(s, d, i);
  }

  lemma WordBegins(s: string, d: Driver, i: nat)
    requires i < |s| && !EndsWord(s, i)
    ensures Extent(s, d, i) == (Word, WordEnd(s, i + 1))
  {
    hide WordEnd, RunEnd, BlockEnd, QuoteEnd;
  }

  /** Whatever is spelled as a token, between any texts, is read as just that token: its kind, its extent, its name. */
  lemma SpelledIsRead(before: string, t: Token, after: string, d: Driver)
    requires t.text != "" && Spelled(t, d, before, after)
    ensures TokenAt(before + t.text + after, d, |before|) == t
  {
    var s, i := before + t.text + after, |before|;
    assert s[..i] == before && s[i..] == t.text + after && s[i..i + |t.text|] == t.text;
    hide TokenAt, IsLine, IsBlock, IsQuoted, NameMarks, Between, Meant;
    match t.kind
    case Ws => SpaceIsRead(s, d, i, t, before, after);
    case Punct => MarkIsRead(s, d, i, t, before, after);
    case Word => WordIsRead(s, d, i, t, before, after);
    case Versioned =>
      var body: string :| IsBlock(t.text, body) && "!" <= body;
      BlockIsRead(s, d, i, t, body, after);
    case Comment =>
      if line: string :| IsLine(t.text, line, after) {
        LineIsRead(s, d, i, t, line, after);
      } else {
        var body: string :| IsBlock(t.text, body) && !("!" <= body);
        BlockIsRead(s, d, i, t, body, after);
      }
    case Str =>
      var inner: seq<Inner> :| IsQuoted(t.text, '\'', '\'', inner, Slashes(d, before), after);
      StringIsRead(s, d, i, t, inner, after);
    case QIdent =>
      var open: char, close: char, inner: seq<Inner> :|
        NameMarks(open, close) && IsQuoted(t.text, open, close, inner, false, after) &&
        t.value == Some(Meant(inner, close));
      NameIsRead(s, d, i, t, open, close, inner, after);
  }
}
