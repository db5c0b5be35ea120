/** What the SQL mask means: a lexer that tiles the text with tokens, each with a blanked part. */
module MaskSpec {
  import opened Text

  /** `Unknown` is an omitted driver. */
  datatype Driver = MySql | Postgres | Sqlite | Unknown

  datatype Rules = Rules(driver: Driver, keepIdent: bool, keepBrackets: bool, dashSpace: bool)

  /** The rules every safety check uses when it passes no option. */
  function DefaultRules(d: Driver): Rules { Rules(d, false, false, d == MySql) }

  datatype Kind = Plain | LineComment | VersionOpen | BlockComment | DollarQuote | Bracket | Quoted

  /** A token ends before `next` and is blanked on `[lo, hi)`; `closed` is false when it ran off the text. */
  datatype Token = Token(kind: Kind, lo: nat, hi: nat, next: nat, closed: bool)

  predicate IsPgIdent(c: char) { IsWord(c) || c == '$' || c as int >= 0x80 }

  predicate HashIsComment(d: Driver) { d != Postgres && d != Sqlite }

  /** MySQL's rule: `--` starts a comment only before white space, a control character or the end. */
  predicate DashStartsComment(s: string, i: nat) {
    i >= |s| || s[i] as int <= 0x20 || s[i] as int == 0x7f
  }

  predicate DashComment(s: string, r: Rules, i: nat)
    requires i < |s|
  {
    s[i] == '-' && Is(s, i + 1, '-') && (!r.dashSpace || DashStartsComment(s, i + 2))
  }

  predicate DollarMayOpen(s: string, i: nat)
    requires i < |s|
  {
    s[i] == '$' && (i == 0 || !IsWord(s[i - 1]))
  }

  lemma WordChars(s: string, i: nat)
    requires i < |s|
    ensures forall k :: i < k < RunEnd(s, i + 1, IsWord) ==> IsWord(s[k])
  {
    forall k | i < k < RunEnd(s, i + 1, IsWord) ensures IsWord(s[k]) { RunEndStays(s, i + 1, IsWord, k); }
  }

  /** The opening tag `$$` or `$tag$` at `i`, or the empty string when there is no valid one. */
  function DollarTag(s: string, i: nat): (tag: string)
    requires i < |s| && s[i] == '$'
    ensures tag != "" ==> |tag| >= 2 && i + |tag| <= |s| && tag == s[i..i + |tag|]
    ensures forall c :: c in tag ==> IsWord(c) || c == '$'
  {
    if i + 1 < |s| && IsDigit(s[i + 1]) then ""
    else
      var j := RunEnd(s, i + 1, IsWord);
      WordChars(s, i);
      if Is(s, j, '$') then s[i..j + 1] else ""
  }

  /** Whether `\` escapes inside a literal opened at `i`: MySQL, or PostgreSQL after a lone `E`. */
  predicate BackslashEscapes(s: string, r: Rules, i: nat)
    requires i < |s|
  {
    s[i] != '`' &&
    (r.driver == MySql ||
     (r.driver == Postgres && s[i] == '\'' && i >= 1 && (s[i - 1] == 'e' || s[i - 1] == 'E') &&
      (i == 1 || !IsPgIdent(s[i - 2]))))
  }

  /** How many characters of a literal's body the scan takes at `j`; 0 at the closing quote. */
  function QuoteStep(s: string, j: nat, q: char, escapes: bool): (d: nat)
    requires j < |s|
    ensures j + d <= |s| && d <= 2
  {
    if s[j] == q then (if Is(s, j + 1, q) then 2 else 0)
    else if escapes && s[j] == '\\' && j + 1 < |s| then 2
    else 1
  }

  /** Scans a literal's body from `j`: the position after the closing quote, or the end of the text. */
  function QuoteEnd(s: string, j: nat, q: char, escapes: bool): (e: (nat, bool))
    requires j <= |s|
    ensures j <= e.0 <= |s| && (j < |s| ==> j < e.0)
    ensures e.1 ==> j < e.0 && s[e.0 - 1] == q
    ensures !e.1 ==> e.0 == |s|
    decreases |s| - j
  {
    if j == |s| then (j, false)
    else if QuoteStep(s, j, q, escapes) == 0 then (j + 1, true)
    else QuoteEnd(s, j + QuoteStep(s, j, q, escapes), q, escapes)
  }

  predicate IsQuote(c: char) { c == '\'' || c == '"' || c == '`' }

  /** Delimiters and kept words are the only characters of a non-plain token that can survive. */
  predicate IsDelimiter(c: char) { IsWord(c) || IsQuote(c) || c == '$' || c == '[' || c == ']' }

  predicate KeepsContent(r: Rules, q: char) {
    r.keepIdent && (q == '`' || (q == '"' && r.driver != MySql))
  }

  predicate BracketMayOpen(s: string, r: Rules, i: nat)
    requires i < |s|
  {
    s[i] == '[' && r.driver == Sqlite && !r.keepBrackets
  }

  /** What the characters at a position open; `skip` characters belong to the opening itself. */
  datatype Opening =
    | OpensNothing
    | OpensLineComment(skip: nat)
    | OpensVersion
    | OpensBlock
    | OpensSearch(until: string, skip: nat)
    | OpensQuote(escapes: bool)

  predicate OpeningFits(s: string, i: nat, o: Opening, b: nat)
    requires i < |s|
  {
    match o
    case OpensNothing => i + 1 <= b
    case OpensLineComment(skip) => 1 <= skip && i + skip <= b
    case OpensVersion => i + 3 <= b
    case OpensBlock => i + 2 <= b
    case OpensSearch(w, skip) => 1 <= skip && i + skip <= b && w != ""
    case OpensQuote(_) => i + 1 <= b && IsQuote(s[i])
  }

  /** The decision at `i`, with the branches in the order the scanner tries them. */
  function OpeningAt(s: string, r: Rules, i: nat): (o: Opening)
    requires i < |s|
    ensures OpeningFits(s, i, o, |s|)
    ensures o.OpensSearch? ==> !IsQuote(s[i]) && forall c :: c in o.until ==> IsDelimiter(c)
  {
    if DashComment(s, r, i) then OpensLineComment(2)
    else if s[i] == '#' && HashIsComment(r.driver) then OpensLineComment(1)
    else if s[i] == '/' && Is(s, i + 1, '*') then
      if Is(s, i + 2, '!') then OpensVersion else OpensBlock
    else if DollarMayOpen(s, i) then
      if DollarTag(s, i) != "" then OpensSearch(DollarTag(s, i), |DollarTag(s, i)|) else OpensNothing
    else if BracketMayOpen(s, r, i) then OpensSearch("]", 1)
    else if IsQuote(s[i]) then OpensQuote(BackslashEscapes(s, r, i))
    else OpensNothing
  }

  /** The token an opening makes; a search whose end is missing opens nothing. */
  function TokenFor(s: string, r: Rules, i: nat, o: Opening): (t: Token)
    requires i < |s| && OpeningFits(s, i, o, |s|)
    ensures i <= t.lo <= t.hi <= t.next <= |s| && i < t.next
    ensures !t.closed ==> t.next == |s| && (t.kind == BlockComment || t.kind == Quoted)
    ensures t.kind == Plain ==> t == Token(Plain, i, i, i + 1, true)
  {
    match o
    case OpensNothing =>
      Token(Plain, i, i, i + 1, true)
    case OpensLineComment(skip) =>
      var e := RunEnd(s, i + skip, NotNewline);
      Token(LineComment, i, e, e, true)
    case OpensVersion =>
      var e := RunEnd(s, i + 3, IsDigit);
      Token(VersionOpen, i, e, e, true)
    case OpensBlock =>
      var k := IndexOf(s, "*/", i + 2);
      if k >= 0 then Token(BlockComment, i, k + 2, k + 2, true) else Token(BlockComment, i, |s|, |s|, false)
    case OpensSearch(w, skip) =>
      var k := IndexOf(s, w, i + skip);
      if k < 0 then Token(Plain, i, i, i + 1, true)
      else if s[i] == '$' then Token(DollarQuote, i + skip, k, k + |w|, true)
      else Token(Bracket, i + skip, if r.keepIdent then i + skip else k, k + |w|, true)
    case OpensQuote(escapes) =>
      var (e, closed) := QuoteEnd(s, i + 1, s[i], escapes);
      Token(Quoted, i + 1, if KeepsContent(r, s[i]) then i + 1 else if closed then e - 1 else e, e, closed)
  }

  function TokenAt(s: string, r: Rules, i: nat): (t: Token)
    requires i < |s|
    ensures i <= t.lo <= t.hi <= t.next <= |s| && i < t.next
    ensures !t.closed ==> t.next == |s| && (t.kind == BlockComment || t.kind == Quoted)
    ensures t.kind == Plain ==> t == Token(Plain, i, i, i + 1, true)
  {
    TokenFor(s, r, i, OpeningAt(s, r, i))
  }

  /** Whether the scan that stands at `i` blanks position `k`. */
  predicate Blanked(s: string, r: Rules, i: nat, k: nat)
    requires i <= k < |s|
    decreases |s| - i
  {
    var t := TokenAt(s, r, i);
    if k < t.next then t.lo <= k < t.hi else Blanked(s, r, t.next, k)
  }

  /** Whether the scan that stands at `i` starts a token (or ends) at `k`. */
  predicate Reach(s: string, r: Rules, i: nat, k: nat)
    requires i <= k <= |s|
    decreases |s| - i
  {
    i == k || (TokenAt(s, r, i).next <= k && Reach(s, r, TokenAt(s, r, i).next, k))
  }

  /** The masked character at `k`: newlines always survive. */
  function MaskedChar(s: string, r: Rules, k: nat): char
    requires k < |s|
  {
    if s[k] != '\n' && Blanked(s, r, 0, k) then ' ' else s[k]
  }

  function Mask(s: string, r: Rules): (m: string)
    ensures |m| == |s|
    ensures forall k :: 0 <= k < |s| ==> m[k] == MaskedChar(s, r, k)
  {
    seq(|s|, k requires 0 <= k < |s| => MaskedChar(s, r, k))
  }

  // --- scanning facts ---

  lemma {:induction false} ReachTrans(s: string, r: Rules, i: nat, j: nat, k: nat)
    requires i <= j <= k <= |s| && Reach(s, r, i, j) && Reach(s, r, j, k)
    ensures Reach(s, r, i, k)
    decreases |s| - i
  {
    if i < j {
      ReachTrans(s, r, TokenAt(s, r, i).next, j, k);
    }
  }

  lemma {:induction false} ReachEnd(s: string, r: Rules, i: nat)
    requires i <= |s|
    ensures Reach(s, r, i, |s|)
    decreases |s| - i
  {
    if i < |s| {
      ReachEnd(s, r, TokenAt(s, r, i).next);
    }
  }

  /** Two reached positions are ordered stops of one scan. */
  lemma {:induction false} ReachBetween(s: string, r: Rules, i: nat, j: nat, k: nat)
    requires i <= j <= k <= |s| && Reach(s, r, i, j) && Reach(s, r, i, k)
    ensures Reach(s, r, j, k)
    decreases |s| - i
  {
    if i < j {
      ReachBetween(s, r, TokenAt(s, r, i).next, j, k);
    }
  }

  lemma {:induction false} BlankedFromReached(s: string, r: Rules, i: nat, j: nat, k: nat)
    requires i <= j <= k < |s| && Reach(s, r, i, j)
    ensures Blanked(s, r, i, k) == Blanked(s, r, j, k)
    decreases |s| - i
  {
    if i < j {
      BlankedFromReached(s, r, TokenAt(s, r, i).next, j, k);
    }
  }

  lemma SearchSurvivor(s: string, r: Rules, i: nat, o: Opening, k: nat)
    requires i < |s| && o.OpensSearch? && OpeningFits(s, i, o, |s|) && !r.keepIdent
    requires forall c :: c in o.until ==> IsDelimiter(c)
    requires forall x :: i <= x < i + o.skip ==> IsDelimiter(s[x])
    requires var t := TokenFor(s, r, i, o); i <= k < t.next && !(t.lo <= k < t.hi) && t.kind != Plain
    ensures IsDelimiter(s[k])
  {
    hide IsDelimiter, IndexOf;
    var t := TokenFor(s, r, i, o);
    if t.hi <= k {
      MatchedChar(s, o.until, t.hi, k);
    }
  }

  /** What a non-plain token leaves unblanked is delimiter or word characters. */
  lemma TokenSurvivor(s: string, r: Rules, i: nat, k: nat)
    requires i < |s| && !r.keepIdent
    requires var t := TokenAt(s, r, i); i <= k < t.next && !(t.lo <= k < t.hi) && t.kind != Plain
    ensures IsDelimiter(s[k])
  {
    var o := OpeningAt(s, r, i);
    match o
    case OpensSearch(w, skip) =>
      assert forall x :: i <= x < i + skip ==> IsDelimiter(s[x]) by {
        if s[i] == '$' {
          assert w == s[i..i + skip];
          forall x | i <= x < i + skip ensures IsDelimiter(s[x]) { assert w[x - i] in w; }
        }
      }
      SearchSurvivor(s, r, i, o, k);
    case _ =>
  }

  /** A surviving character that is no delimiter, such as `;` or `-`, is a token of its own. */
  lemma {:induction false} SurvivorIsPlain(s: string, r: Rules, i: nat, k: nat)
    requires !r.keepIdent && i <= k < |s| && !Blanked(s, r, i, k) && !IsDelimiter(s[k])
    ensures Reach(s, r, i, k) && TokenAt(s, r, k) == Token(Plain, k, k, k + 1, true)
    decreases |s| - i
  {
    hide TokenAt, IsDelimiter;
    var t := TokenAt(s, r, i);
    if t.next <= k {
      SurvivorIsPlain(s, r, t.next, k);
    } else if t.kind != Plain {
      TokenSurvivor(s, r, i, k);
    }
  }

  /** The mask keeps length and newlines, and otherwise keeps a character or blanks it. */
  lemma MaskShape(s: string, r: Rules, k: nat)
    requires k < |s|
    ensures Mask(s, r)[k] == s[k] || Mask(s, r)[k] == ' '
    ensures s[k] == '\n' <==> Mask(s, r)[k] == '\n'
  {
  }

  lemma Survives(s: string, r: Rules, k: nat)
    requires !r.keepIdent && k < |s| && !IsDelimiter(Mask(s, r)[k]) && !IsSpace(Mask(s, r)[k])
    ensures s[k] == Mask(s, r)[k]
    ensures Reach(s, r, 0, k) && TokenAt(s, r, k) == Token(Plain, k, k, k + 1, true)
  {
    SurvivorIsPlain(s, r, 0, k);
  }
}
