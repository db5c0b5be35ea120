/** Splitting a DDL text into tokens without losing a character, and reading back the names the writer quotes. */
module CloneTokens {
  import opened Common
  import opened Text

  datatype Driver = MySql | Postgres | Sqlite

  datatype Kind = Ws | Comment | Versioned | Str | QIdent | Word | Punct

  /** `value` is the identifier behind a quoted name, its quotes and doublings taken off. */
  datatype Token = Token(kind: Kind, text: string, value: Option<string>)

  predicate IsPunct(c: char) { c in "(),;.=" }

  predicate OpensQuote(c: char) { c == '\'' || c == '"' || c == '`' || c == '[' }

  function Close(c: char): char { if c == '[' then ']' else c }

  predicate StartsComment(s: string, i: nat)
    requires i < |s|
  {
    (s[i] == '-' && Is(s, i + 1, '-')) || (s[i] == '/' && Is(s, i + 1, '*'))
  }

  predicate Escapes(s: string, d: Driver, i: nat)
    requires i <= |s|
  {
    d == MySql || (d == Postgres && i >= 1 && (s[i - 1] == 'e' || s[i - 1] == 'E') && !(i >= 2 && IsWord(s[i - 2])))
  }

  // --- where a token ends ---

  /** The position of the closing quote of a literal, or at least the length when it never closes. */
  function QuoteEnd(s: string, c: char, esc: bool, j: nat): (e: nat)
    requires j <= |s| + 1
    ensures j <= e <= |s| + 1
    ensures e < |s| ==> s[e] == Close(c)
    decreases |s| + 1 - j
  {
    if j >= |s| then j
    else if s[j] == '\\' && c == '\'' && esc then QuoteEnd(s, c, esc, j + 2)
    else if s[j] == Close(c) then
      if Is(s, j + 1, Close(c)) then QuoteEnd(s, c, esc, j + 2) else j
    else QuoteEnd(s, c, esc, j + 1)
  }

  predicate EndsWord(s: string, j: nat)
    requires j < |s|
  {
    IsSpace(s[j]) || IsPunct(s[j]) || OpensQuote(s[j]) || StartsComment(s, j)
  }

  function WordEnd(s: string, j: nat): (e: nat)
    requires j <= |s|
    ensures j <= e <= |s|
    ensures forall k :: j <= k < e ==> !EndsWord(s, k)
    ensures e < |s| ==> EndsWord(s, e)
    decreases |s| - j
  {
    if j == |s| || EndsWord(s, j) then j else WordEnd(s, j + 1)
  }

  function BlockEnd(s: string, i: nat): (e: nat)
    requires i + 2 <= |s|
    ensures i + 2 <= e <= |s|
  {
    var end := IndexOf(s, "*/", i + 2);
    if end == -1 then |s| else end + 2
  }

  /** `split(cc).join(c)`: every doubled character, read from the left, once. */
  function Undouble(s: string, c: char): string {
    if |s| < 2 then s
    else if s[0] == c && s[1] == c then [c] + Undouble(s[2..], c)
    else [s[0]] + Undouble(s[1..], c)
  }

  /** The identifier behind a quoted name; a name cut off by the end of the text keeps what there is. */
  function Unquoted(text: string): string
    requires text != ""
  {
    var c := Close(text[0]);
    var inner := if |text| > 1 && text[|text| - 1] == c then text[1..|text| - 1] else text[1..];
    Undouble(inner, c)
  }

  function SpaceEnd(s: string, i: nat): (e: nat)
    requires i < |s|
    ensures i < e <= |s|
  {
    RunEnd(s, i + 1, IsSpace)
  }

  function LineEnd(s: string, i: nat): (e: nat)
    requires i + 2 <= |s|
    ensures i < e <= |s|
  {
    RunEnd(s, i + 2, NotNewline)
  }

  /** What begins at `i`: the kind of a token and where it ends. */
  function Extent(s: string, d: Driver, i: nat): (e: (Kind, nat))
    requires i < |s|
    ensures i < e.1 <= |s|
  {
    var c := s[i];
    if IsSpace(c) then (Ws, SpaceEnd(s, i))
    else if c == '-' && Is(s, i + 1, '-') then (Comment, LineEnd(s, i))
    else if c == '/' && Is(s, i + 1, '*') then (if Is(s, i + 2, '!') then Versioned else Comment, BlockEnd(s, i))
    else if OpensQuote(c) then
      (if c == '\'' then Str else QIdent, Min(QuoteEnd(s, c, Escapes(s, d, i), i + 1) + 1, |s|))
    else if IsPunct(c) then (Punct, i + 1)
    else (Word, WordEnd(s, i + 1))
  }

  /** The token that starts at `i`. */
  function TokenAt(s: string, d: Driver, i: nat): (t: Token)
    requires i < |s|
    ensures t.text != "" && i + |t.text| <= |s| && t.text == s[i..i + |t.text|]
    ensures t.value.Some? <==> t.kind == QIdent
  {
    var (kind, end) := Extent(s, d, i);
    var text := s[i..end];
    Token(kind, text, if kind == QIdent then Some(Unquoted(text)) else None)
  }

  function TokensFrom(s: string, d: Driver, i: nat): seq<Token>
    requires i <= |s|
    decreases |s| - i
  {
    if i == |s| then []
    else
      var t := TokenAt(s, d, i);
      [t] + TokensFrom(s, d, i + |t.text|)
  }

  function Join(tokens: seq<Token>): string { if tokens == [] then "" else tokens[0].text + Join(tokens[1..]) }

  method Tokenize(s: string, d: Driver) returns (out: seq<Token>)
    ensures out == TokensFrom(s, d, 0)
  {
    hide TokensFrom, TokenAt;
    out := [];
    var i := 0;
    TokensEnd(s, d);
    while i < |s|
      invariant 0 <= i <= |s|
      invariant out + TokensFrom(s, d, i) == TokensFrom(s, d, 0)
    {
      TokensStep(s, d, i);
      var t := ScanToken(s, d, i);
      Regroup(out, t, TokensFrom(s, d, i + |t.text|));
      out := out + [t];
      i := i + |t.text|;
    }
  }

  method ScanToken(s: string, d: Driver, i: nat) returns (t: Token)
    requires i < |s|
    ensures t == TokenAt(s, d, i)
  {
    hide Extent, Unquoted;
    var kind, end := ScanExtent(s, d, i);
    var text := s[i..end];
    t := Token(kind, text, if kind == QIdent then Some(Unquoted(text)) else None);
  }

  method ScanExtent(s: string, d: Driver, i: nat) returns (kind: Kind, end: nat)
    requires i < |s|
    ensures (kind, end) == Extent(s, d, i)
  {
    hide QuoteEnd, RunEnd, WordEnd, Escapes, EndsWord, IsPunct, IsSpace, OpensQuote, NotNewline, BlockEnd;
    var c := s[i];
    if IsSpace(c) {
      end := ScanRun(s, i + 1, IsSpace);
      kind := Ws;
    } else if c == '-' && Is(s, i + 1, '-') {
      end := ScanRun(s, i + 2, NotNewline);
      kind := Comment;
    } else if c == '/' && Is(s, i + 1, '*') {
      end := ScanBlock(s, i);
      kind := if Is(s, i + 2, '!') then Versioned else Comment;
    } else if OpensQuote(c) {
      var j := ScanQuote(s, c, Escapes(s, d, i), i + 1);
      kind, end := if c == '\'' then Str else QIdent, Min(j + 1, |s|);
    } else if IsPunct(c) {
      kind, end := Punct, i + 1;
    } else {
      end := ScanWord(s, i + 1);
      kind := Word;
    }
  }

  method ScanBlock(s: string, i: nat) returns (j: nat)
    requires i + 2 <= |s|
    ensures j == BlockEnd(s, i)
  {
    var end := IndexOf(s, "*/", i + 2);
    j := if end == -1 then |s| else end + 2;
  }

  method ScanWord(s: string, from: nat) returns (j: nat)
    requires from <= |s|
    ensures j == WordEnd(s, from)
  {
    j := from;
    while j < |s| && !EndsWord(s, j)
      invariant from <= j <= |s| && WordEnd(s, j) == WordEnd(s, from)
    {
      j := j + 1;
    }
  }

  method ScanRun(s: string, from: nat, p: char -> bool) returns (j: nat)
    requires from <= |s|
    ensures j == RunEnd(s, from, p)
  {
    j := from;
    while j < |s| && p(s[j])
      invariant from <= j <= |s| && RunEnd(s, j, p) == RunEnd(s, from, p)
    {
      j := j + 1;
    }
  }

  method ScanQuote(s: string, c: char, esc: bool, from: nat) returns (j: nat)
    requires from <= |s|
    ensures j == QuoteEnd(s, c, esc, from)
  {
    j := from;
    while j < |s|
      invariant from <= j <= |s| + 1 && QuoteEnd(s, c, esc, j) == QuoteEnd(s, c, esc, from)
    {
      if s[j] == '\\' && c == '\'' && esc {
        j := j + 2;
        continue;
      }
      if s[j] == Close(c) {
        if Is(s, j + 1, Close(c)) {
          j := j + 2;
          continue;
        }
        break;
      }
      j := j + 1;
    }
  }

  lemma TokensEnd(s: string, d: Driver)
    ensures TokensFrom(s, d, |s|) == []
  {
  }

  lemma TokensStep(s: string, d: Driver, i: nat)
    requires i < |s|
    ensures TokensFrom(s, d, i) == [TokenAt(s, d, i)] + TokensFrom(s, d, i + |TokenAt(s, d, i).text|)
  {
  }

  lemma Regroup(before: seq<Token>, t: Token, rest: seq<Token>)
    ensures before + ([t] + rest) == before + [t] + rest
  {
  }

  // --- no character is lost, and names come back ---

  /** The texts of the tokens put together are the input, for every text and driver. */
  lemma {:induction false} Lossless(s: string, d: Driver, i: nat)
    requires i <= |s|
    ensures Join(TokensFrom(s, d, i)) == s[i..]
    decreases |s| - i
  {
    hide TokenAt;
    if i < |s| {
      var t := TokenAt(s, d, i);
      Lossless(s, d, i + |t.text|);
      assert s[i..] == s[i..i + |t.text|] + s[i + |t.text|..];
    }
  }

  /** A name in quotes, its closing quotes doubled. */
  function Quoted(c: char, name: string): string { [c] + Doubled(name, Close(c)) + [Close(c)] }

  function Doubled(name: string, c: char): string {
    if name == "" then "" else (if name[0] == c then [c, c] else [name[0]]) + Doubled(name[1..], c)
  }

  lemma {:induction false} UndoubleDoubled(name: string, c: char)
    ensures Undouble(Doubled(name, c), c) == name
  {
    if name != "" {
      UndoubleDoubled(name[1..], c);
      var d, rest := Doubled(name, c), Doubled(name[1..], c);
      if name[0] == c {
        assert d[2..] == rest;
      } else {
        assert d[1..] == rest;
        if rest == "" {
          assert name[1..] == "";
        }
      }
    }
  }

  lemma {:induction false} QuoteEndOfDoubled(s: string, c: char, esc: bool, name: string, j: nat)
    requires c != '\'' && j + |Doubled(name, Close(c))| < |s|
    requires s[j..j + |Doubled(name, Close(c))|] == Doubled(name, Close(c)) &&
             s[j + |Doubled(name, Close(c))|] == Close(c)
    requires !Is(s, j + |Doubled(name, Close(c))| + 1, Close(c))
    ensures QuoteEnd(s, c, esc, j) == j + |Doubled(name, Close(c))|
    decreases |name|
  {
    if name != "" {
      var d, rest := Doubled(name, Close(c)), Doubled(name[1..], Close(c));
      var head := |d| - |rest|;
      assert s[j..j + |d|][0] == d[0];
      assert d[head..] == rest;
      assert s[j + head..j + |d|] == s[j..j + |d|][head..];
      if name[0] == Close(c) {
        assert s[j..j + |d|][1] == d[1];
      }
      QuoteEndOfDoubled(s, c, esc, name[1..], j + head);
    }
  }

  /** A quoted name followed by anything but another quote reads back as one token that holds exactly the name. */
  lemma QuotedNameReadsBack(c: char, name: string, after: string, d: Driver)
    requires OpensQuote(c) && c != '\'' && (after != "" ==> after[0] != Close(c))
    ensures TokenAt(Quoted(c, name) + after, d, 0) == Token(QIdent, Quoted(c, name), Some(name))
  {
    var s, text := Quoted(c, name) + after, Quoted(c, name);
    QuotedEnds(c, name, after, Escapes(s, d, 0));
    QuotedUnquotes(c, name);
    assert s[0] == c && s[0..|text|] == text;
    hide Quoted, QuoteEnd, Unquoted;
  }

  lemma QuotedEnds(c: char, name: string, after: string, esc: bool)
    requires OpensQuote(c) && c != '\'' && (after != "" ==> after[0] != Close(c))
    ensures QuoteEnd(Quoted(c, name) + after, c, esc, 1) == |Quoted(c, name)| - 1
  {
    var s, q, body := Quoted(c, name) + after, Close(c), Doubled(name, Close(c));
    hide Doubled;
    assert s == [c] + body + [q] + after;
    assert s[1..1 + |body|] == body && s[1 + |body|] == q;
    if after != "" {
      assert s[2 + |body|] == after[0];
    }
    hide QuoteEnd;
    QuoteEndOfDoubled(s, c, esc, name, 1);
  }

  lemma QuotedUnquotes(c: char, name: string)
    requires OpensQuote(c)
    ensures Unquoted(Quoted(c, name)) == name && Quoted(c, name)[0] == c && |Quoted(c, name)| >= 2
  {
    hide Doubled, Undouble;
    var text := Quoted(c, name);
    assert text[1..|text| - 1] == Doubled(name, Close(c));
    UndoubleDoubled(name, Close(c));
  }
}
