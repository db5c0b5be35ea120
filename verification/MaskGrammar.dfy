/** Scripts written piece by piece, as each driver spells comments and literals, and what the mask makes of them. */
module MaskGrammar {
  import opened Text
  import opened MaskSpec

  /** A character inside a literal: itself, the doubled quote, or one behind a backslash. */
  datatype Inner = Itself(c: char) | Doubled | Slashed(c: char)

  /** A piece of a script; the open ones run to the end of the text. */
  datatype Piece =
    | Code(c: char)
    | DashLine(text: string)
    | HashLine(text: string)
    | Block(text: string)
    | OpenBlock(text: string)
    | VersionMark(digits: string)
    | Dollar(name: string, body: string)
    | BracketName(body: string)
    | Literal(quote: char, inner: seq<Inner>)
    | OpenLiteral(quote: char, inner: seq<Inner>)

  // --- how pieces are written ---

  function InnerText(inner: seq<Inner>, quote: char): string {
    if inner == [] then ""
    else
      (match inner[0] case Itself(c) => [c] case Doubled => [quote, quote] case Slashed(c) => ['\\', c]) +
      InnerText(inner[1..], quote)
  }

  function Tag(name: string): string { "$" + name + "$" }

  function Written(p: Piece): string {
    match p
    case Code(c) => [c]
    case DashLine(text) => "--" + text
    case HashLine(text) => "#" + text
    case Block(text) => "/*" + text + "*/"
    case OpenBlock(text) => "/*" + text
    case VersionMark(digits) => "/*!" + digits
    case Dollar(name, body) => Tag(name) + body + Tag(name)
    case BracketName(body) => "[" + body + "]"
    case Literal(quote, inner) => [quote] + InnerText(inner, quote) + [quote]
    case OpenLiteral(quote, inner) => [quote] + InnerText(inner, quote)
  }

  function Script(ps: seq<Piece>): string { if ps == [] then "" else Written(ps[0]) + Script(ps[1..]) }

  // --- where a piece may stand ---

  predicate IsMark(c: char) { c in {'\'', '"', '`'} }

  predicate AllWord(s: string) { forall c :: c in s ==> IsWord(c) }

  predicate AllDigit(s: string) { forall c :: c in s ==> IsDigit(c) }

  predicate EndsInWord(s: string) { s != "" && IsWord(s[|s| - 1]) }

  /** What MySQL asks for behind `--`: white space, a control character or the end. */
  predicate IsGap(s: string) { s == "" || s[0] as int <= 0x20 || s[0] as int == 0x7f }

  predicate IsTagName(name: string) { AllWord(name) && (name != "" ==> !IsDigit(name[0])) }

  /** `w` stands in `s` before position `n`. */
  ghost predicate FoundBefore(w: string, s: string, n: nat) { exists k :: 0 <= k < n && k <= |s| && w <= s[k..] }

  /** Some dollar quote begins with the `$` before `after`, and ends. */
  ghost predicate DollarQuotes(after: string) {
    exists name: string :: IsTagName(name) && name + "$" <= after &&
      FoundBefore(Tag(name), after[|name| + 1..], |after|)
  }

  /** The text ends in an `E` that is no part of a longer name. */
  predicate EndsInLoneE(s: string) {
    && s != "" && s[|s| - 1] in {'e', 'E'}
    && (|s| > 1 ==> var c := s[|s| - 2]; !(IsWord(c) || c == '$' || c as int >= 0x80))
  }

  /** Backslashes escape in MySQL's '…' and "…" and in PostgreSQL's E'…', and nowhere else. */
  predicate Slashes(d: Driver, quote: char, before: string) {
    (d == MySql && quote in {'\'', '"'}) || (d == Postgres && quote == '\'' && EndsInLoneE(before))
  }

  predicate InnerFits(inner: seq<Inner>, quote: char, slashes: bool) {
    forall n :: 0 <= n < |inner| ==>
      match inner[n]
      case Itself(c) => c != quote && !(slashes && c == '\\')
      case Doubled => true
      case Slashed(_) => slashes
  }

  /** A literal that runs to the end of the text may end in a backslash that escapes nothing. */
  predicate OpenInnerFits(inner: seq<Inner>, quote: char, slashes: bool) {
    InnerFits(inner, quote, slashes) ||
    (inner != [] && inner[|inner| - 1] == Itself('\\') && InnerFits(inner[..|inner| - 1], quote, slashes))
  }

  /** Whether a piece may stand between `before` and `after`. */
  ghost predicate Fits(p: Piece, r: Rules, before: string, after: string) {
    match p
    case Code(c) =>
      && !IsMark(c)
      && (c == '-' ==> !("-" <= after && (r.dashSpace ==> IsGap(after[1..]))))
      && (c == '#' ==> r.driver in {Postgres, Sqlite})
      && (c == '/' ==> !("*" <= after))
      && (c == '$' ==> EndsInWord(before) || !DollarQuotes(after))
      && (c == '[' ==> r.driver != Sqlite || r.keepBrackets || ']' !in after)
    case DashLine(text) => IsLine(text, after) && (r.dashSpace ==> IsGap(text + after))
    case HashLine(text) => IsLine(text, after) && r.driver !in {Postgres, Sqlite}
    case Block(text) => !("!" <= text) && !FoundBefore("*/", text + "*/", |text|)
    case OpenBlock(text) => !("!" <= text) && !FoundBefore("*/", text, |text|) && after == ""
    case VersionMark(digits) => AllDigit(digits) && (after != "" ==> !IsDigit(after[0]))
    case Dollar(name, body) =>
      IsTagName(name) && !EndsInWord(before) && !FoundBefore(Tag(name), body + Tag(name), |body|)
    case BracketName(body) => r.driver == Sqlite && !r.keepBrackets && ']' !in body
    case Literal(quote, inner) =>
      IsMark(quote) && InnerFits(inner, quote, Slashes(r.driver, quote, before)) && !([quote] <= after)
    case OpenLiteral(quote, inner) =>
      IsMark(quote) && OpenInnerFits(inner, quote, Slashes(r.driver, quote, before)) && after == ""
  }

  predicate IsLine(text: string, after: string) { '\n' !in text && (after != "" ==> after[0] == '\n') }

  ghost predicate WellFormed(ps: seq<Piece>, r: Rules, before: string)
    decreases |ps|
  {
    ps != [] ==> Fits(ps[0], r, before, Script(ps[1..])) && WellFormed(ps[1..], r, before + Written(ps[0]))
  }

  // --- what the mask makes of a piece ---

  function Blanks(s: string): (b: string)
    ensures |b| == |s| && forall k :: 0 <= k < |s| ==> b[k] == if s[k] == '\n' then '\n' else ' '
  {
    seq(|s|, k requires 0 <= k < |s| => if s[k] == '\n' then '\n' else ' ')
  }

  /** The content of a quoted name is kept on demand; MySQL's "…" is no name. */
  predicate KeptName(r: Rules, quote: char) {
    r.keepIdent && (quote == '`' || (quote == '"' && r.driver != MySql))
  }

  function Content(s: string, kept: bool): string { if kept then s else Blanks(s) }

  function Masked(p: Piece, r: Rules): string {
    match p
    case Code(c) => [c]
    case Dollar(name, body) => Tag(name) + Blanks(body) + Tag(name)
    case BracketName(body) => "[" + Content(body, r.keepIdent) + "]"
    case Literal(quote, inner) => [quote] + Content(InnerText(inner, quote), KeptName(r, quote)) + [quote]
    case OpenLiteral(quote, inner) => [quote] + Content(InnerText(inner, quote), KeptName(r, quote))
    case _ => Blanks(Written(p))
  }

  function MaskedScript(ps: seq<Piece>, r: Rules): string {
    if ps == [] then "" else Masked(ps[0], r) + MaskedScript(ps[1..], r)
  }

  // --- one piece is one token ---

  /** The token at `i` is exactly the piece `p` and is masked like it. */
  ghost predicate IsTokenOf(s: string, r: Rules, i: nat, p: Piece)
    requires i < |s|
  {
    var t, w, m := TokenAt(s, r, i), Written(p), Masked(p, r);
    && |m| == |w| && t.next == i + |w| && w == s[i..t.next]
    && forall k :: i <= k < t.next ==> m[k - i] == if s[k] != '\n' && t.lo <= k < t.hi then ' ' else s[k]
  }

  /** The piece `p` stands at `i`. */
  predicate Stands(s: string, i: nat, p: Piece, before: string, after: string) {
    s == before + Written(p) + after && i == |before|
  }

  lemma SearchFound(s: string, w: string, from: nat, n: nat)
    requires from <= |s| && w != "" && IndexOf(s, w, from) >= 0 && n >= |s| - from
    ensures FoundBefore(w, s[from..], n)
  {
    var k := IndexOf(s, w, from);
    MatchIsPrefix(s, w, k);
    assert s[from..][k - from..] == s[k..];
  }

  /** A match that begins in `body` lies within `body + w`. */
  lemma EarlierMatch(s: string, w: string, from: nat, body: string, rest: string, k: nat)
    requires from <= |s| && s[from..] == body + w + rest && from <= k < from + |body| && MatchAt(s, w, k)
    ensures w <= (body + w)[k - from..]
  {
    var t, x := body + w, k - from;
    forall n | 0 <= n < |w| ensures t[x + n] == w[n] {
      assert s[k + n] == s[from..][x + n];
    }
    assert t[x..][..|w|] == w;
  }

  lemma SearchFinds(s: string, w: string, from: nat, body: string, rest: string)
    requires from <= |s| && s[from..] == body + w + rest && w != "" && !FoundBefore(w, body + w, |body|)
    ensures IndexOf(s, w, from) == from + |body|
  {
    hide MatchAt, IndexOf;
    var at := from + |body|;
    BodyThenWord(s, w, from, body, rest);
    IndexOfIsFirst(s, w, from, at);
    var k := IndexOf(s, w, from);
    if k < at {
      EarlierMatch(s, w, from, body, rest, k);
    }
  }

  lemma BodyThenWord(s: string, w: string, from: nat, body: string, rest: string)
    requires from <= |s| && s[from..] == body + w + rest
    ensures MatchAt(s, w, from + |body|)
  {
    forall x | 0 <= x < |w| ensures s[from + |body| + x] == w[x] {
      assert s[from + (|body| + x)] == s[from..][|body| + x];
    }
  }

  lemma {:induction false} RunReaches(s: string, i: nat, n: nat, p: char -> bool)
    requires i <= n <= |s| && (forall k :: i <= k < n ==> p(s[k])) && (n < |s| ==> !p(s[n]))
    ensures RunEnd(s, i, p) == n
    decreases n - i
  {
    if i < n {
      RunReaches(s, i + 1, n, p);
    }
  }

  // --- code ---

  lemma DashOpens(s: string, r: Rules, i: nat, before: string, after: string)
    requires Stands(s, i, Code('-'), before, after)
    ensures DashComment(s, r, i) <==> "-" <= after && (r.dashSpace ==> IsGap(after[1..]))
  {
    assert s[i + 1..] == after;
  }

  lemma SlashOpens(s: string, i: nat, before: string, after: string)
    requires Stands(s, i, Code('/'), before, after)
    ensures Is(s, i + 1, '*') <==> "*" <= after
  {
    assert s[i..] == "/" + after;
  }

  lemma LooksBack(s: string, i: nat, p: Piece, before: string, after: string)
    requires Stands(s, i, p, before, after)
    ensures i > 0 && IsWord(s[i - 1]) <==> EndsInWord(before)
  {
  }

  /** The name of the tag at `i`, up to the second `$` at `j`. */
  lemma TagParts(s: string, i: nat, j: nat)
    requires i < j < |s| && s[i] == '$' && s[j] == '$'
    ensures s[i..j + 1] == Tag(s[i + 1..j]) && s[i..j + 1][1..j - i] == s[i + 1..j]
    ensures s[i + 1..j] + "$" <= s[i + 1..] && s[j + 1..] == s[i + 1..][j - i..]
  {
    assert s[i + 1..][..j - i] == s[i + 1..j] + "$";
  }

  lemma TagName(s: string, i: nat, rest: string)
    requires i < |s| && s[i] == '$' && s[i + 1..] == rest
    ensures var tag := DollarTag(s, i);
            tag != "" ==>
              var name := tag[1..|tag| - 1];
              IsTagName(name) && tag == Tag(name) && name + "$" <= rest && s[i + |tag|..] == rest[|name| + 1..]
  {
    var tag := DollarTag(s, i);
    if tag != "" {
      WordChars(s, i);
      var j := RunEnd(s, i + 1, IsWord);
      hide RunEnd, IsWord;
      TagParts(s, i, j);
    }
  }

  lemma DollarIsPlain(s: string, r: Rules, i: nat, before: string, after: string)
    requires Stands(s, i, Code('$'), before, after) && (EndsInWord(before) || !DollarQuotes(after))
    ensures TokenAt(s, r, i) == Token(Plain, i, i, i + 1, true)
  {
    hide DollarTag, IndexOf, DollarQuotes, IsWord, EndsInWord, RunEnd, QuoteEnd;
    LooksBack(s, i, Code('$'), before, after);
    BehindCode(s, i, '$', before, after);
    if DollarMayOpen(s, i) && DollarTag(s, i) != "" {
      NoDollarEnd(s, i, after);
    }
  }

  lemma BehindCode(s: string, i: nat, c: char, before: string, after: string)
    requires Stands(s, i, Code(c), before, after)
    ensures i < |s| && s[i] == c && s[i + 1..] == after
  {
  }

  lemma NoDollarEnd(s: string, i: nat, after: string)
    requires i < |s| && s[i] == '$' && s[i + 1..] == after && DollarTag(s, i) != "" && !DollarQuotes(after)
    ensures IndexOf(s, DollarTag(s, i), i + |DollarTag(s, i)|) == -1
  {
    hide *;
    TagName(s, i, after);
    var tag := DollarTag(s, i);
    var name := tag[1..|tag| - 1];
    NotFound(after, name);
    if IndexOf(s, tag, i + |tag|) >= 0 {
      SearchFound(s, tag, i + |tag|, |after|);
    }
  }

  lemma NotFound(after: string, name: string)
    requires !DollarQuotes(after) && IsTagName(name) && name + "$" <= after
    ensures !FoundBefore(Tag(name), after[|name| + 1..], |after|)
  {
    hide FoundBefore, Tag, IsTagName;
  }

  lemma BracketIsPlain(s: string, r: Rules, i: nat, before: string, after: string)
    requires Stands(s, i, Code('['), before, after) && (r.driver != Sqlite || r.keepBrackets || ']' !in after)
    ensures TokenAt(s, r, i) == Token(Plain, i, i, i + 1, true)
  {
    assert s[i + 1..] == after;
    var k := IndexOf(s, "]", i + 1);
    if k >= 0 {
      MatchedChar(s, "]", k, k);
      assert s[k] == after[k - (i + 1)];
    }
  }

  lemma CodeToken(s: string, r: Rules, i: nat, c: char, before: string, after: string)
    requires Stands(s, i, Code(c), before, after) && Fits(Code(c), r, before, after)
    ensures TokenAt(s, r, i) == Token(Plain, i, i, i + 1, true)
  {
    hide DollarTag, RunEnd, QuoteEnd, IndexOf, IsWord, IsGap, DashStartsComment, DollarQuotes;
    assert s[i] == c;
    if c == '-' {
      DashOpens(s, r, i, before, after);
    } else if c == '/' {
      SlashOpens(s, i, before, after);
    } else if c == '$' {
      DollarIsPlain(s, r, i, before, after);
    } else if c == '[' {
      BracketIsPlain(s, r, i, before, after);
    }
  }

  // --- comments ---

  lemma LineEnds(s: string, from: nat, text: string, after: string)
    requires from <= |s| && s[from..] == text + after && IsLine(text, after)
    ensures RunEnd(s, from, NotNewline) == from + |text|
  {
    forall k | from <= k < from + |text| ensures NotNewline(s[k]) {
      assert s[k] == s[from..][k - from] == text[k - from];
    }
    if from + |text| < |s| {
      assert s[from + |text|] == s[from..][|text|] == after[0];
    }
    RunReaches(s, from, from + |text|, NotNewline);
  }

  lemma DashToken(s: string, r: Rules, i: nat, text: string, after: string)
    requires i < |s| && s[i..] == "--" + text + after && IsLine(text, after) && (r.dashSpace ==> IsGap(text + after))
    ensures var n := i + 2 + |text|; TokenAt(s, r, i) == Token(LineComment, i, n, n, true)
  {
    hide DollarTag, RunEnd, QuoteEnd, IndexOf, IsWord, IsLine, IsDigit, BackslashEscapes;
    assert s[i + 2..] == s[i..][2..] == text + after;
    LineEnds(s, i + 2, text, after);
    assert s[i] == s[i..][0] == '-' && s[i + 1] == s[i..][1] == '-';
    assert i + 2 < |s| ==> s[i + 2] == (text + after)[0];
  }

  lemma HashToken(s: string, r: Rules, i: nat, text: string, after: string)
    requires i < |s| && s[i..] == "#" + text + after && IsLine(text, after) && r.driver !in {Postgres, Sqlite}
    ensures var n := i + 1 + |text|; TokenAt(s, r, i) == Token(LineComment, i, n, n, true)
  {
    hide DollarTag, RunEnd, QuoteEnd, IndexOf, IsWord, IsLine, IsDigit, BackslashEscapes;
    assert s[i + 1..] == s[i..][1..] == text + after;
    LineEnds(s, i + 1, text, after);
    assert s[i] == s[i..][0] == '#';
  }

  lemma BlockOpens(s: string, r: Rules, i: nat, rest: string)
    requires i < |s| && s[i..] == "/*" + rest && !("!" <= rest)
    ensures OpeningAt(s, r, i) == OpensBlock && s[i + 2..] == rest
  {
    hide DollarTag, RunEnd, QuoteEnd, IndexOf, IsWord, BackslashEscapes;
    assert s[i + 2..] == s[i..][2..] == rest;
    assert s[i] == s[i..][0] == '/' && s[i + 1] == s[i..][1] == '*';
    assert |s| > i + 2 ==> s[i + 2] == rest[0];
  }

  lemma BlockToken(s: string, r: Rules, i: nat, text: string, after: string)
    requires i < |s| && s[i..] == "/*" + (text + "*/" + after) && !("!" <= text)
    requires !FoundBefore("*/", text + "*/", |text|)
    ensures var n := i + 4 + |text|; TokenAt(s, r, i) == Token(BlockComment, i, n, n, true)
  {
    hide DollarTag, RunEnd, QuoteEnd, IndexOf, IsWord, BackslashEscapes, OpeningAt, FoundBefore, MatchAt;
    var rest := text + "*/" + after;
    assert rest[0] == (if text == "" then '*' else text[0]);
    BlockOpens(s, r, i, rest);
    SearchFinds(s, "*/", i + 2, text, after);
  }

  lemma OpenBlockToken(s: string, r: Rules, i: nat, text: string)
    requires i < |s| && s[i..] == "/*" + text && !("!" <= text) && !FoundBefore("*/", text, |text|)
    ensures TokenAt(s, r, i) == Token(BlockComment, i, |s|, |s|, false)
  {
    hide DollarTag, RunEnd, QuoteEnd, IndexOf, IsWord, BackslashEscapes, OpeningAt, FoundBefore, MatchAt;
    BlockOpens(s, r, i, text);
    if IndexOf(s, "*/", i + 2) >= 0 {
      SearchFound(s, "*/", i + 2, |text|);
    }
  }

  lemma VersionToken(s: string, r: Rules, i: nat, digits: string, after: string)
    requires i < |s| && s[i..] == "/*!" + digits + after && AllDigit(digits) && (after != "" ==> !IsDigit(after[0]))
    ensures var n := i + 3 + |digits|; TokenAt(s, r, i) == Token(VersionOpen, i, n, n, true)
  {
    hide DollarTag, RunEnd, QuoteEnd, IndexOf, IsWord, BackslashEscapes, IsDigit;
    var n := i + 3 + |digits|;
    assert s[i] == s[i..][0] == '/' && s[i + 1] == s[i..][1] == '*' && s[i + 2] == s[i..][2] == '!';
    forall k | i + 3 <= k < n ensures IsDigit(s[k]) {
      assert s[k] == s[i..][k - i] == digits[k - i - 3];
    }
    assert n < |s| ==> s[n] == s[i..][n - i] == after[0];
    RunReaches(s, i + 3, n, IsDigit);
  }

  // --- quoted text ---

  lemma DollarTagIs(s: string, i: nat, name: string, rest: string)
    requires i < |s| && s[i..] == Tag(name) + rest && IsTagName(name)
    ensures s[i] == '$' && DollarTag(s, i) == Tag(name)
  {
    hide IsWord;
    var n := i + 1 + |name|;
    assert forall k :: i <= k < |s| ==> s[k] == s[i..][k - i];
    assert s[n] == '$';
    DollarIsNoWord();
    forall k | i + 1 <= k < n ensures IsWord(s[k]) {
      assert s[k] == name[k - i - 1];
    }
    RunReaches(s, i + 1, n, IsWord);
    assert s[i..n + 1] == Tag(name);
  }

  lemma DollarIsNoWord()
    ensures !IsWord('$') && !IsDigit('$')
  {
  }

  lemma DollarToken(s: string, r: Rules, i: nat, name: string, body: string, after: string)
    requires i < |s| && s[i..] == Tag(name) + (body + Tag(name) + after) && IsTagName(name)
    requires (i == 0 || !IsWord(s[i - 1])) && !FoundBefore(Tag(name), body + Tag(name), |body|)
    ensures var lo := i + |Tag(name)|;
            TokenAt(s, r, i) == Token(DollarQuote, lo, lo + |body|, lo + |body| + |Tag(name)|, true)
  {
    hide DollarTag, RunEnd, QuoteEnd, IndexOf, IsWord, BackslashEscapes, FoundBefore, IsTagName, MatchAt;
    var tag := Tag(name);
    DollarTagIs(s, i, name, body + tag + after);
    hide Tag;
    assert s[i + |tag|..] == s[i..][|tag|..] == body + tag + after;
    SearchFinds(s, tag, i + |tag|, body, after);
  }

  lemma BracketToken(s: string, r: Rules, i: nat, body: string, after: string)
    requires i < |s| && s[i..] == "[" + (body + "]" + after) && ']' !in body && r.driver == Sqlite && !r.keepBrackets
    ensures var lo := i + 1;
            TokenAt(s, r, i) == Token(Bracket, lo, if r.keepIdent then lo else lo + |body|, lo + |body| + 1, true)
  {
    hide DollarTag, RunEnd, QuoteEnd, IndexOf, IsWord, BackslashEscapes, MatchAt;
    assert s[i] == s[i..][0] == '[';
    assert s[i + 1..] == s[i..][1..] == body + "]" + after;
    NoBracketBefore(body);
    SearchFinds(s, "]", i + 1, body, after);
  }

  lemma NoBracketBefore(body: string)
    requires ']' !in body
    ensures !FoundBefore("]", body + "]", |body|)
  {
    forall k | 0 <= k < |body| ensures !("]" <= (body + "]")[k..]) {
      assert (body + "]")[k..][0] == body[k];
    }
  }

  /** The first character of a literal's body is taken in one step of the scan. */
  lemma InnerStep(s: string, j: nat, q: char, slashes: bool, first: Inner, rest: string)
    requires j <= |s| && s[j..] == InnerText([first], q) + rest && IsMark(q) && InnerFits([first], q, slashes)
    ensures var w := |InnerText([first], q)|;
            && 0 < w && j + w <= |s| && s[j + w..] == rest
            && QuoteEnd(s, j, q, slashes) == QuoteEnd(s, j + w, q, slashes)
  {
    var head := InnerText([first], q);
    InnerAlone(first, q);
    hide InnerText;
    HeadStands(s, j, head, rest);
    assert first == [first][0];
  }

  lemma HeadStands(s: string, j: nat, head: string, rest: string)
    requires j <= |s| && s[j..] == head + rest
    ensures j + |head| <= |s| && s[j + |head|..] == rest && forall x :: 0 <= x < |head| ==> s[j + x] == head[x]
  {
    assert s[j + |head|..] == s[j..][|head|..];
    forall x | 0 <= x < |head| ensures s[j + x] == head[x] {
      assert s[j + x] == s[j..][x];
    }
  }

  lemma InnerAlone(first: Inner, q: char)
    ensures InnerText([first], q) ==
            match first case Itself(c) => [c] case Doubled => [q, q] case Slashed(c) => ['\\', c]
  {
    assert [first][1..] == [] && InnerText([], q) == "";
  }

  lemma InnerSplits(inner: seq<Inner>, q: char, rest: string)
    requires inner != []
    ensures InnerText(inner, q) + rest == InnerText([inner[0]], q) + (InnerText(inner[1..], q) + rest)
    ensures |InnerText(inner, q)| == |InnerText([inner[0]], q)| + |InnerText(inner[1..], q)|
  {
    assert [inner[0]][1..] == [] && InnerText([], q) == "";
  }

  /** The rest of a closed literal from `j` on, and the text behind it. */
  predicate Closes(s: string, j: nat, q: char, slashes: bool, inner: seq<Inner>, after: string) {
    && j <= |s| && s[j..] == InnerText(inner, q) + ([q] + after)
    && IsMark(q) && InnerFits(inner, q, slashes) && !([q] <= after)
  }

  lemma ClosesAt(s: string, j: nat, q: char, slashes: bool, after: string)
    requires Closes(s, j, q, slashes, [], after)
    ensures QuoteEnd(s, j, q, slashes) == (j + 1, true) && InnerText([], q) == ""
  {
    assert s[j..] == [q] + after;
    assert s[j] == s[j..][0] == q;
    assert s[j + 1..] == s[j..][1..] == after;
  }

  lemma ClosesLater(s: string, j: nat, q: char, slashes: bool, inner: seq<Inner>, after: string)
    requires Closes(s, j, q, slashes, inner, after) && inner != []
    ensures var w := |InnerText([inner[0]], q)|;
            && |InnerText(inner, q)| == w + |InnerText(inner[1..], q)|
            && Closes(s, j + w, q, slashes, inner[1..], after)
            && QuoteEnd(s, j, q, slashes) == QuoteEnd(s, j + w, q, slashes)
  {
    hide InnerText, QuoteEnd;
    InnerSplits(inner, q, [q] + after);
    InnerStep(s, j, q, slashes, inner[0], InnerText(inner[1..], q) + ([q] + after));
  }

  lemma {:induction false} QuoteEnds(s: string, j: nat, q: char, slashes: bool, inner: seq<Inner>, after: string)
    requires Closes(s, j, q, slashes, inner, after)
    ensures QuoteEnd(s, j, q, slashes) == (j + |InnerText(inner, q)| + 1, true)
    decreases |inner|
  {
    hide *;
    if inner == [] {
      ClosesAt(s, j, q, slashes, after);
    } else {
      ClosesLater(s, j, q, slashes, inner, after);
      QuoteEnds(s, j + |InnerText([inner[0]], q)|, q, slashes, inner[1..], after);
    }
  }

  lemma OpenInnerRest(inner: seq<Inner>, q: char, slashes: bool)
    requires OpenInnerFits(inner, q, slashes) && inner != [] && (|inner| == 1 ==> inner[0] != Itself('\\'))
    ensures InnerFits([inner[0]], q, slashes) && OpenInnerFits(inner[1..], q, slashes)
  {
    if |inner| > 1 && !InnerFits(inner, q, slashes) {
      assert inner[..|inner| - 1][0] == inner[0];
      assert inner[1..][..|inner[1..]| - 1] == inner[..|inner| - 1][1..];
    }
  }

  lemma LastBackslash(s: string, j: nat, q: char, slashes: bool)
    requires j <= |s| && s[j..] == InnerText([Itself('\\')], q) && IsMark(q)
    ensures QuoteEnd(s, j, q, slashes) == (|s|, false)
  {
    assert s[j..] == "\\";
    assert s[j] == s[j..][0] == '\\' && j + 1 == |s|;
  }

  lemma TextEnds(s: string, j: nat, q: char, slashes: bool)
    requires j <= |s| && s[j..] == InnerText([], q)
    ensures QuoteEnd(s, j, q, slashes) == (|s|, false)
  {
  }

  lemma {:induction false} QuoteRuns(s: string, j: nat, q: char, slashes: bool, inner: seq<Inner>)
    requires j <= |s| && s[j..] == InnerText(inner, q) && IsMark(q) && OpenInnerFits(inner, q, slashes)
    ensures QuoteEnd(s, j, q, slashes) == (|s|, false)
    decreases |inner|
  {
    hide *;
    if inner == [] {
      TextEnds(s, j, q, slashes);
    } else if |inner| == 1 && inner[0] == Itself('\\') {
      assert inner == [Itself('\\')];
      LastBackslash(s, j, q, slashes);
    } else {
      InnerSplits(inner, q, "");
      assert InnerText(inner, q) + "" == InnerText(inner, q);
      OpenInnerRest(inner, q, slashes);
      InnerStep(s, j, q, slashes, inner[0], InnerText(inner[1..], q) + "");
      assert InnerText(inner[1..], q) + "" == InnerText(inner[1..], q);
      QuoteRuns(s, j + |InnerText([inner[0]], q)|, q, slashes, inner[1..]);
    }
  }

  /** Behind which characters a backslash escapes is what the scan looks up before the quote. */
  lemma SlashesIsEscapes(s: string, r: Rules, i: nat, q: char, before: string)
    requires i < |s| && s[i] == q && IsMark(q) && before == s[..i]
    ensures BackslashEscapes(s, r, i) <==> Slashes(r.driver, q, before)
  {
  }

  lemma LiteralToken(s: string, r: Rules, i: nat, q: char, inner: seq<Inner>, before: string, after: string)
    requires i < |s| && before == s[..i] && s[i..] == [q] + (InnerText(inner, q) + ([q] + after))
    requires IsMark(q) && InnerFits(inner, q, Slashes(r.driver, q, before)) && !([q] <= after)
    ensures var lo := i + 1;
            var hi := lo + |InnerText(inner, q)|;
            TokenAt(s, r, i) == Token(Quoted, lo, if KeptName(r, q) then lo else hi, hi + 1, true)
  {
    hide DollarTag, RunEnd, QuoteEnd, IndexOf, IsWord, BackslashEscapes, InnerText, InnerFits, Slashes;
    assert s[i] == s[i..][0] == q;
    assert s[i + 1..] == s[i..][1..];
    SlashesIsEscapes(s, r, i, q, before);
    QuoteEnds(s, i + 1, q, BackslashEscapes(s, r, i), inner, after);
  }

  lemma OpenLiteralToken(s: string, r: Rules, i: nat, q: char, inner: seq<Inner>, before: string)
    requires i < |s| && before == s[..i] && s[i..] == [q] + InnerText(inner, q)
    requires IsMark(q) && OpenInnerFits(inner, q, Slashes(r.driver, q, before))
    ensures TokenAt(s, r, i) == Token(Quoted, i + 1, if KeptName(r, q) then i + 1 else |s|, |s|, false)
  {
    hide DollarTag, RunEnd, QuoteEnd, IndexOf, IsWord, BackslashEscapes, InnerText, OpenInnerFits, Slashes;
    assert s[i] == s[i..][0] == q;
    assert s[i + 1..] == s[i..][1..];
    SlashesIsEscapes(s, r, i, q, before);
    QuoteRuns(s, i + 1, q, BackslashEscapes(s, r, i), inner);
  }

  // --- from pieces to the whole script ---

  /** A token that keeps `head` and `tail` and blanks what is between, unless that is kept too. */
  lemma Framed(s: string, r: Rules, i: nat, p: Piece, head: string, body: string, tail: string, kept: bool)
    requires i < |s| && Written(p) == head + body + tail && Masked(p, r) == head + Content(body, kept) + tail
    requires i + |Written(p)| <= |s| && s[i..i + |Written(p)|] == Written(p)
    requires var t, lo := TokenAt(s, r, i), i + |head|;
             t.lo == lo && t.hi == (if kept then lo else lo + |body|) && t.next == i + |Written(p)|
    ensures IsTokenOf(s, r, i, p)
  {
    hide Written, Masked, TokenAt;
    var w, m := Written(p), Masked(p, r);
    forall k | i <= k < i + |w| ensures s[k] == w[k - i] {
      assert s[k] == s[i..i + |w|][k - i];
    }
  }

  lemma StandsAt(s: string, i: nat, p: Piece, before: string, after: string)
    requires Stands(s, i, p, before, after)
    ensures i < |s| && s[..i] == before && s[i..] == Written(p) + after
    ensures i + |Written(p)| <= |s| && s[i..i + |Written(p)|] == Written(p) && s[i + |Written(p)|..] == after
  {
    hide Tag, InnerText;
    WrittenIsLong(p);
    hide Written;
  }

  lemma WrittenIsLong(p: Piece)
    ensures Written(p) != ""
  {
    hide InnerText;
  }

  lemma BlankIsToken(s: string, r: Rules, i: nat, p: Piece, before: string, after: string)
    requires Stands(s, i, p, before, after) && Fits(p, r, before, after)
    requires p.DashLine? || p.HashLine? || p.Block? || p.OpenBlock? || p.VersionMark?
    ensures IsTokenOf(s, r, i, p)
  {
    hide TokenAt, IsTokenOf, IsLine, FoundBefore, Blanks, AllDigit, IsDigit, IsGap;
    StandsAt(s, i, p, before, after);
    match p {
      case DashLine(text) => DashToken(s, r, i, text, after);
      case HashLine(text) => HashToken(s, r, i, text, after);
      case Block(text) =>
        assert "/*" + text + "*/" + after == "/*" + (text + "*/" + after);
        BlockToken(s, r, i, text, after);
      case OpenBlock(text) =>
        assert s[i..] == "/*" + text;
        OpenBlockToken(s, r, i, text);
      case VersionMark(digits) => VersionToken(s, r, i, digits, after);
    }
    AllBlank(s, r, i, p);
  }

  lemma AllBlank(s: string, r: Rules, i: nat, p: Piece)
    requires i < |s| && Masked(p, r) == Blanks(Written(p))
    requires i + |Written(p)| <= |s| && s[i..i + |Written(p)|] == Written(p)
    requires var t := TokenAt(s, r, i); t.lo == i && t.hi == i + |Written(p)| && t.next == i + |Written(p)|
    ensures IsTokenOf(s, r, i, p)
  {
    hide Written, Masked, TokenAt, IsTokenOf;
    assert "" + Written(p) + "" == Written(p) && "" + Blanks(Written(p)) + "" == Blanks(Written(p));
    Framed(s, r, i, p, "", Written(p), "", false);
  }

  lemma CodeIsToken(s: string, r: Rules, i: nat, c: char, before: string, after: string)
    requires Stands(s, i, Code(c), before, after) && Fits(Code(c), r, before, after)
    ensures IsTokenOf(s, r, i, Code(c))
  {
    hide TokenAt, Fits, IsTokenOf;
    StandsAt(s, i, Code(c), before, after);
    CodeToken(s, r, i, c, before, after);
    assert Blanks("") == "";
    Framed(s, r, i, Code(c), "", "", [c], false);
  }

  lemma QuotedIsToken(s: string, r: Rules, i: nat, p: Piece, before: string, after: string)
    requires Stands(s, i, p, before, after) && Fits(p, r, before, after) && (p.Literal? || p.OpenLiteral?)
    ensures IsTokenOf(s, r, i, p)
  {
    hide TokenAt, IsTokenOf, InnerText, InnerFits, OpenInnerFits, Slashes, Content, KeptName;
    StandsAt(s, i, p, before, after);
    var w := InnerText(p.inner, p.quote);
    if p.Literal? {
      assert [p.quote] + w + [p.quote] + after == [p.quote] + (w + ([p.quote] + after));
      LiteralToken(s, r, i, p.quote, p.inner, before, after);
      Framed(s, r, i, p, [p.quote], w, [p.quote], KeptName(r, p.quote));
    } else {
      assert s[i..] == [p.quote] + w && s == before + ([p.quote] + w);
      OpenLiteralToken(s, r, i, p.quote, p.inner, before);
      Unclosed(p, r);
      Framed(s, r, i, p, [p.quote], w, "", KeptName(r, p.quote));
    }
  }

  lemma Unclosed(p: Piece, r: Rules)
    requires p.OpenLiteral?
    ensures Written(p) == [p.quote] + InnerText(p.inner, p.quote) + ""
    ensures Masked(p, r) == [p.quote] + Content(InnerText(p.inner, p.quote), KeptName(r, p.quote)) + ""
  {
    hide InnerText, Content;
  }

  lemma SearchedIsToken(s: string, r: Rules, i: nat, p: Piece, before: string, after: string)
    requires Stands(s, i, p, before, after) && Fits(p, r, before, after) && (p.Dollar? || p.BracketName?)
    ensures IsTokenOf(s, r, i, p)
  {
    hide TokenAt, IsTokenOf, FoundBefore, IsTagName, EndsInWord, Content, Tag, IsWord;
    StandsAt(s, i, p, before, after);
    match p {
      case Dollar(name, body) =>
        LooksBack(s, i, p, before, after);
        assert Tag(name) + body + Tag(name) + after == Tag(name) + (body + Tag(name) + after);
        DollarToken(s, r, i, name, body, after);
        ContentBlanked(body);
        Framed(s, r, i, p, Tag(name), body, Tag(name), false);
      case BracketName(body) =>
        assert "[" + body + "]" + after == "[" + (body + "]" + after);
        BracketToken(s, r, i, body, after);
        Framed(s, r, i, p, "[", body, "]", r.keepIdent);
    }
  }

  lemma ContentBlanked(body: string)
    ensures Content(body, false) == Blanks(body)
  {
  }

  lemma PieceIsToken(s: string, r: Rules, i: nat, p: Piece, before: string, after: string)
    requires Stands(s, i, p, before, after) && Fits(p, r, before, after)
    ensures i < |s| && IsTokenOf(s, r, i, p)
  {
    hide Fits, TokenAt, IsTokenOf, Stands;
    StandsAt(s, i, p, before, after);
    match p
    case Code(c) => CodeIsToken(s, r, i, c, before, after);
    case Dollar(_, _) => SearchedIsToken(s, r, i, p, before, after);
    case BracketName(_) => SearchedIsToken(s, r, i, p, before, after);
    case Literal(_, _) => QuotedIsToken(s, r, i, p, before, after);
    case OpenLiteral(_, _) => QuotedIsToken(s, r, i, p, before, after);
    case _ => BlankIsToken(s, r, i, p, before, after);
  }

  /** What the scan that stands at `i` makes of the text from there on. */
  function MaskFrom(s: string, r: Rules, i: nat): (m: string)
    requires i <= |s|
    ensures |m| == |s| - i
  {
    seq(|s| - i, x requires 0 <= x < |s| - i => if s[i + x] != '\n' && Blanked(s, r, i, i + x) then ' ' else s[i + x])
  }

  lemma MaskFromToken(s: string, r: Rules, i: nat, p: Piece)
    requires i < |s| && IsTokenOf(s, r, i, p)
    ensures i + |Written(p)| <= |s| && MaskFrom(s, r, i) == Masked(p, r) + MaskFrom(s, r, i + |Written(p)|)
  {
    hide TokenAt, Written, Masked;
    var n, m := i + |Written(p)|, Masked(p, r);
    var all, rest := MaskFrom(s, r, i), MaskFrom(s, r, n);
    forall x | 0 <= x < |all| ensures all[x] == (m + rest)[x] {
      var k := i + x;
      assert Blanked(s, r, i, k) == (var t := TokenAt(s, r, i); if k < t.next then t.lo <= k < t.hi
                                     else Blanked(s, r, t.next, k));
      if k < n {
        assert m[k - i] == all[x];
      } else {
        assert rest[k - n] == all[x];
      }
    }
  }

  lemma {:induction false} ScriptIsMasked(s: string, r: Rules, ps: seq<Piece>, before: string)
    requires s == before + Script(ps) && WellFormed(ps, r, before)
    ensures MaskFrom(s, r, |before|) == MaskedScript(ps, r)
    decreases |ps|
  {
    hide Fits, TokenAt, IsTokenOf, Written, Masked, MaskFrom;
    if ps != [] {
      assert s == before + Written(ps[0]) + Script(ps[1..]);
      PieceIsToken(s, r, |before|, ps[0], before, Script(ps[1..]));
      MaskFromToken(s, r, |before|, ps[0]);
      ScriptIsMasked(s, r, ps[1..], before + Written(ps[0]));
    }
  }

  /** The mask of a script is its pieces' masks, whatever the driver and the options. */
  lemma MaskOfScript(ps: seq<Piece>, r: Rules)
    requires WellFormed(ps, r, "")
    ensures Mask(Script(ps), r) == MaskedScript(ps, r)
  {
    hide WellFormed, Script, MaskedScript, Blanked;
    assert "" + Script(ps) == Script(ps);
    ScriptIsMasked(Script(ps), r, ps, "");
    assert Mask(Script(ps), r) == MaskFrom(Script(ps), r, 0);
  }
}
