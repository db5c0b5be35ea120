/** What the danger check lists, told from the mask: which words a statement begins with and which stand where. */
module DangerMeaning {
  import opened Common
  import opened Text
  import opened MaskSpec
  import opened SqlScript
  import opened ScriptMeaning
  import opened DangerousSql
  import opened DangerTheorems

  // --- where a statement begins ---

  predicate IsSkipped(c: char) { IsSpace(c) || c in {'(', '\U{0085}', '\U{FEFF}'} }

  /** The statement without the white space and the `(` before it. */
  ghost predicate IsBody(text: string, body: string) {
    && (body != "" ==> !IsSkipped(body[0]))
    && exists lead: string :: text == lead + body && forall c :: c in lead ==> IsSkipped(c)
  }

  predicate Begins(body: string, word: string) {
    word <= body && (|body| > |word| ==> !IsWord(body[|word|]))
  }

  // --- a `where` outside all parentheses ---

  /** However far back one starts, no more parentheses are opened than closed up to `i`. */
  ghost predicate AllClosed(body: string, i: nat)
    requires i <= |body|
  {
    forall p :: 0 <= p <= i ==> multiset(body[p..i])['('] <= multiset(body[p..i])[')']
  }

  ghost predicate HasOwnWhere(body: string) {
    exists i :: 0 <= i < |body| && AllClosed(body, i) && "where" <= body[i..] &&
      (i > 0 ==> !IsWord(body[i - 1])) && (i + 5 < |body| ==> !IsWord(body[i + 5]))
  }

  // --- the words of ALTER TABLE ---

  /** A longest run of word characters, or the mark that opens a quoted name. */
  predicate IsToken(body: string, from: nat, to: nat) {
    && from < to <= |body|
    && (|| (&& (forall k :: from <= k < to ==> IsWord(body[k]))
            && (from > 0 ==> !IsWord(body[from - 1])) && (to < |body| ==> !IsWord(body[to])))
        || (to == from + 1 && body[from] in {'`', '"', '['}))
  }

  /** All tokens from `i` on, in order. */
  ghost predicate AreTokens(body: string, i: nat, tokens: seq<(nat, nat)>) {
    && (forall n :: 0 <= n < |tokens| ==> i <= tokens[n].0 && IsToken(body, tokens[n].0, tokens[n].1))
    && (forall n :: 0 < n < |tokens| ==> tokens[n - 1].1 <= tokens[n].0)
    && (forall k :: i <= k < |body| && (IsWord(body[k]) || body[k] in {'`', '"', '['}) ==>
          exists n :: 0 <= n < |tokens| && tokens[n].0 <= k < tokens[n].1)
  }

  function TokenTexts(body: string, tokens: seq<(nat, nat)>): (words: seq<string>)
    requires forall n :: 0 <= n < |tokens| ==> tokens[n].0 <= tokens[n].1 <= |body|
  {
    seq(|tokens|, n requires 0 <= n < |tokens| => body[tokens[n].0..tokens[n].1])
  }

  /** What the `drop` at `i` names: the next word, or the one behind `if exists`. */
  function Dropped(words: seq<string>, i: nat): Option<string> {
    if i + 1 >= |words| || words[i] != "drop" then None
    else if i + 3 < |words| && words[i + 1] == "if" && words[i + 2] == "exists" then Some(words[i + 3])
    else Some(words[i + 1])
  }

  /** Words behind `drop` that leave the columns alone. */
  const OTHERS :=
    {"index", "key", "partition", "default", "not", "expression", "identity", "system", "period", "if"}

  predicate DropsColumnOrConstraint(words: seq<string>, i: nat) {
    Dropped(words, i).Some? && Dropped(words, i).value !in OTHERS
  }

  /** The first `drop` of an `alter table` that removes a column or a constraint removes one of `kind`. */
  ghost predicate AltersAway(words: seq<string>, kind: DangerKind) {
    && |words| >= 2 && words[1] == "table"
    && exists i :: 2 <= i < |words| && DropsColumnOrConstraint(words, i) &&
         (forall k :: 2 <= k < i ==> !DropsColumnOrConstraint(words, k)) &&
         kind == (if Dropped(words, i).value in {"constraint", "foreign", "primary", "check"}
                  then DropConstraint else DropColumn)
  }

  /** What is listed for the masked text of a statement: exactly this kind, or nothing. */
  ghost predicate Lists(text: string, k: Option<DangerKind>) {
    exists body, tokens :: IsBody(Lower(text), body) && AreTokens(body, 0, tokens) && ListsBody(body, tokens, k)
  }

  ghost predicate ListsBody(body: string, tokens: seq<(nat, nat)>, k: Option<DangerKind>)
    requires AreTokens(body, 0, tokens)
  {
    var words := TokenTexts(body, tokens);
    && (k == Some(DeleteNoWhere) <==> Begins(body, "delete") && !HasOwnWhere(body))
    && (k == Some(UpdateNoWhere) <==> Begins(body, "update") && !HasOwnWhere(body))
    && (k == Some(Truncate) <==> Begins(body, "truncate"))
    && (k == Some(Drop) <==> Begins(body, "drop"))
    && (k == Some(DropColumn) <==> Begins(body, "alter") && AltersAway(words, DropColumn))
    && (k == Some(DropConstraint) <==> Begins(body, "alter") && AltersAway(words, DropConstraint))
  }

  // --- proofs ---

  lemma StripLeadIsBody(l: string)
    ensures IsBody(l, StripLead(l))
  {
    var e := RunEnd(l, 0, IsLead);
    var lead := l[..e];
    forall c | c in lead ensures IsSkipped(c) {
      var k :| 0 <= k < e && lead[k] == c;
      RunEndStays(l, 0, IsLead, k);
    }
    assert l == lead + l[e..];
  }

  lemma KeywordBegins(body: string, kw: string)
    ensures StartsWithKeyword(body, kw) <==> Begins(body, kw)
  {
    hide MatchAt, IsWord;
    MatchIsPrefix(body, kw, 0);
    assert body[0..] == body;
  }

  /** More parentheses opened than closed between `p` and `i`. */
  ghost function Excess(body: string, p: nat, i: nat): int
    requires p <= i <= |body|
  {
    multiset(body[p..i])['('] as int - multiset(body[p..i])[')'] as int
  }

  lemma ExcessGrows(body: string, p: nat, i: nat)
    requires p <= i < |body|
    ensures Excess(body, p, i + 1) ==
            Excess(body, p, i) + if body[i] == '(' then 1 else if body[i] == ')' then -1 else 0
  {
    assert body[p..i + 1] == body[p..i] + [body[i]];
  }

  /** The depth is the greatest excess. */
  lemma {:induction false} DepthIsExcess(body: string, i: nat) returns (q: nat)
    requires i <= |body|
    ensures q <= i && Excess(body, q, i) == Depth(body, i)
    ensures forall p :: 0 <= p <= i ==> Excess(body, p, i) <= Depth(body, i)
  {
    hide Excess;
    NoExcess(body, i);
    q := i;
    if i > 0 {
      q := DepthIsExcess(body, i - 1);
      ExcessGrows(body, q, i - 1);
      forall p | 0 <= p < i ensures Excess(body, p, i) <= Depth(body, i) {
        ExcessGrows(body, p, i - 1);
      }
      if Excess(body, q, i) != Depth(body, i) {
        q := i;
      }
    }
  }

  lemma NoExcess(body: string, i: nat)
    requires i <= |body|
    ensures Excess(body, i, i) == 0
  {
    assert body[i..i] == [];
  }

  lemma DepthZero(body: string, i: nat)
    requires i <= |body|
    ensures Depth(body, i) == 0 <==> AllClosed(body, i)
  {
    var q := DepthIsExcess(body, i);
    NoExcess(body, i);
    forall p | 0 <= p <= i
      ensures Excess(body, p, i) <= 0 <==> multiset(body[p..i])['('] <= multiset(body[p..i])[')']
    {
    }
    hide Excess;
    if AllClosed(body, i) {
      assert multiset(body[q..i])['('] <= multiset(body[q..i])[')'];
    }
  }

  lemma WordIsWhere(body: string, i: nat)
    requires i < |body|
    ensures WordAt(body, "where", i) <==>
            "where" <= body[i..] && (i > 0 ==> !IsWord(body[i - 1])) && (i + 5 < |body| ==> !IsWord(body[i + 5]))
  {
    hide MatchAt, IsWord;
    MatchIsPrefix(body, "where", i);
  }

  lemma TopLevelIsOwn(body: string)
    ensures TopLevelWhere(body) <==> HasOwnWhere(body)
  {
    hide WordAt, Depth, IsWord, AllClosed;
    forall i | 0 <= i < |body|
      ensures WordAt(body, "where", i) && Depth(body, i) == 0 <==>
              AllClosed(body, i) && "where" <= body[i..] && (i > 0 ==> !IsWord(body[i - 1])) &&
              (i + 5 < |body| ==> !IsWord(body[i + 5]))
    {
      DepthZero(body, i);
      WordIsWhere(body, i);
    }
  }

  // --- tokens ---

  predicate IsLowered(s: string) { forall c :: c in s ==> !('A' <= c <= 'Z') }

  lemma LoweredSuffix(text: string, e: nat)
    requires e <= |text|
    ensures IsLowered(Lower(text)[e..])
  {
  }

  /** The tokens as `Words` meets them. */
  ghost function Tokens(body: string, i: nat): seq<(nat, nat)>
    requires i <= |body|
    decreases |body| - i
  {
    if i == |body| then []
    else if IsLowerWord(body[i]) then
      var j := RunEnd(body, i, IsLowerWord);
      [(i, j)] + Tokens(body, j)
    else if IsOpenQuote(body[i]) then [(i, i + 1)] + Tokens(body, i + 1)
    else Tokens(body, i + 1)
  }

  lemma PushToken(body: string, i: nat, j: nat, rest: seq<(nat, nat)>)
    requires IsToken(body, i, j) && AreTokens(body, j, rest)
    ensures AreTokens(body, i, [(i, j)] + rest)
    ensures TokenTexts(body, [(i, j)] + rest) == [body[i..j]] + TokenTexts(body, rest)
  {
    hide IsToken, IsWord;
    var all := [(i, j)] + rest;
    forall n | 0 <= n < |all| ensures i <= all[n].0 && IsToken(body, all[n].0, all[n].1) {
      TokenBounds(body, i, j);
    }
    forall k | i <= k < |body| && (IsWord(body[k]) || body[k] in {'`', '"', '['})
      ensures exists n :: 0 <= n < |all| && all[n].0 <= k < all[n].1
    {
      if k < j {
        assert all[0].0 <= k < all[0].1;
      } else {
        var n :| 0 <= n < |rest| && rest[n].0 <= k < rest[n].1;
        assert all[n + 1] == rest[n];
      }
    }
  }

  lemma TokenBounds(body: string, i: nat, j: nat)
    requires IsToken(body, i, j)
    ensures i < j <= |body|
  {
  }

  lemma SkipChar(body: string, i: nat, rest: seq<(nat, nat)>)
    requires i < |body| && !IsWord(body[i]) && body[i] !in {'`', '"', '['} && AreTokens(body, i + 1, rest)
    ensures AreTokens(body, i, rest)
  {
    hide IsToken, IsWord;
  }

  lemma {:induction false} WordsAreTokens(body: string, i: nat)
    requires IsLowered(body) && i <= |body| && (i > 0 && i < |body| && IsWord(body[i]) ==> !IsWord(body[i - 1]))
    ensures AreTokens(body, i, Tokens(body, i)) && TokenTexts(body, Tokens(body, i)) == Words(body, i)
    decreases |body| - i
  {
    hide AreTokens, TokenTexts;
    if i == |body| {
      NoTokens(body);
    } else {
      LowerWordIsWord(body, i);
      if IsLowerWord(body[i]) {
        var j := RunEnd(body, i, IsLowerWord);
        RunIsToken(body, i);
        WordsAreTokens(body, j);
        PushToken(body, i, j, Tokens(body, j));
      } else {
        WordsAreTokens(body, i + 1);
        if IsOpenQuote(body[i]) {
          PushToken(body, i, i + 1, Tokens(body, i + 1));
          assert body[i..i + 1] == [body[i]];
        } else {
          SkipChar(body, i, Tokens(body, i + 1));
        }
      }
    }
  }

  lemma NoTokens(body: string)
    ensures AreTokens(body, |body|, []) && TokenTexts(body, []) == []
  {
  }

  lemma LowerWordIsWord(body: string, i: nat)
    requires IsLowered(body) && i < |body|
    ensures IsLowerWord(body[i]) == IsWord(body[i])
  {
    assert body[i] in body;
  }

  lemma RunIsToken(body: string, i: nat)
    requires IsLowered(body) && i < |body| && IsWord(body[i]) && (i > 0 ==> !IsWord(body[i - 1]))
    ensures var j := RunEnd(body, i, IsLowerWord);
            i < j && IsToken(body, i, j) && (j < |body| ==> !IsWord(body[j]))
  {
    hide RunEnd, IsWord, IsLowerWord;
    var j := RunEnd(body, i, IsLowerWord);
    LowerWordIsWord(body, i);
    RunStarts(body, i);
    forall k | i <= k < j ensures IsWord(body[k]) {
      RunEndStays(body, i, IsLowerWord, k);
      LowerWordIsWord(body, k);
    }
    if j < |body| {
      LowerWordIsWord(body, j);
    }
  }

  lemma RunStarts(body: string, i: nat)
    requires i < |body| && IsLowerWord(body[i])
    ensures i < RunEnd(body, i, IsLowerWord)
  {
  }

  // --- the drop clause ---

  lemma {:induction false} DropClauseIsFirst(words: seq<string>, i: nat)
    ensures match DropClause(words, i)
            case None => forall k :: i <= k < |words| ==> !DropsColumnOrConstraint(words, k)
            case Some(kind) =>
              exists n :: i <= n < |words| && DropsColumnOrConstraint(words, n) &&
                (forall k :: i <= k < n ==> !DropsColumnOrConstraint(words, k)) &&
                kind == (if Dropped(words, n).value in {"constraint", "foreign", "primary", "check"}
                         then DropConstraint else DropColumn)
    decreases |words| - i
  {
    if i + 1 < |words| && !DropsColumnOrConstraint(words, i) {
      DropClauseIsFirst(words, i + 1);
    }
  }

  lemma AlterDropIsAltersAway(body: string, tokens: seq<(nat, nat)>, kind: DangerKind)
    requires AreTokens(body, 0, tokens) && TokenTexts(body, tokens) == Words(body, 0)
    requires StartsWithKeyword(body, "alter") && IsLowered(body)
    ensures AlterDropKind(body) == Some(kind) <==> AltersAway(TokenTexts(body, tokens), kind)
  {
    hide AreTokens, TokenTexts, Words, DropsColumnOrConstraint, DropClause;
    var words := Words(body, 0);
    FirstWord(body, "alter");
    DropClauseIsFirst(words, 2);
  }

  lemma FirstWord(body: string, kw: string)
    requires IsLowered(body) && StartsWithKeyword(body, kw) && kw != "" && forall c :: c in kw ==> IsLowerWord(c)
    ensures |Words(body, 0)| > 0 && Words(body, 0)[0] == kw
  {
    var n := |kw|;
    forall k | 0 <= k < n ensures IsLowerWord(body[k]) {
      assert body[0 + k] == kw[k];
    }
    RunEndReaches(body, 0, n);
    if n < |body| {
      LowerWordIsWord(body, n);
    }
    assert body[0..n] == kw;
  }

  lemma {:induction false} RunEndReaches(body: string, i: nat, n: nat)
    requires i <= n <= |body| && forall k :: i <= k < n ==> IsLowerWord(body[k])
    requires n < |body| ==> !IsLowerWord(body[n])
    ensures RunEnd(body, i, IsLowerWord) == n
    decreases n - i
  {
    if i < n {
      RunEndReaches(body, i + 1, n);
    }
  }

  lemma BodyKindLists(body: string)
    requires IsLowered(body)
    ensures AreTokens(body, 0, Tokens(body, 0)) && ListsBody(body, Tokens(body, 0), BodyKind(body))
  {
    hide AreTokens, TokenTexts, Words, StartsWithKeyword, TopLevelWhere, HasOwnWhere, Begins, AltersAway, AlterDropKind;
    WordsAreTokens(body, 0);
    TopLevelIsOwn(body);
    KeywordBegins(body, "delete");
    KeywordBegins(body, "update");
    KeywordBegins(body, "truncate");
    KeywordBegins(body, "drop");
    KeywordBegins(body, "alter");
    OneKeyword(body);
    if StartsWithKeyword(body, "alter") {
      AlterDropIsAltersAway(body, Tokens(body, 0), DropColumn);
      AlterDropIsAltersAway(body, Tokens(body, 0), DropConstraint);
      AlterDropKinds(body);
    }
  }

  /** A statement begins with one word only. */
  lemma OneKeyword(body: string)
    ensures Begins(body, "delete") ==> !Begins(body, "update") && !Begins(body, "truncate") && !Begins(body, "drop")
    ensures Begins(body, "update") ==> !Begins(body, "truncate") && !Begins(body, "drop")
    ensures Begins(body, "truncate") ==> !Begins(body, "drop")
    ensures Begins(body, "alter") ==> !Begins(body, "delete") && !Begins(body, "update") && !Begins(body, "truncate")
    ensures Begins(body, "alter") ==> !Begins(body, "drop")
  {
    assert forall kw: string :: kw != "" && Begins(body, kw) ==> body[0] == kw[0];
    assert forall kw: string :: |kw| > 1 && Begins(body, kw) ==> body[1] == kw[1];
  }

  lemma AlterDropKinds(body: string)
    ensures AlterDropKind(body) in {None, Some(DropColumn), Some(DropConstraint)}
  {
    hide Words;
    DropKinds(Words(body, 0), 2);
  }

  lemma {:induction false} DropKinds(words: seq<string>, i: nat)
    ensures DropClause(words, i) in {None, Some(DropColumn), Some(DropConstraint)}
    decreases |words| - i
  {
    if i + 1 < |words| {
      DropKinds(words, i + 1);
    }
  }

  /**
   * The kind found for the masked text of a statement is the one its words call for, and nothing without such words.
   */
  lemma KindIsListed(text: string)
    ensures Lists(text, ClassifyStatement(text))
  {
    hide BodyKind, AreTokens, ListsBody, IsBody;
    var l := Lower(text);
    StripLeadIsBody(l);
    LoweredSuffix(text, RunEnd(l, 0, IsLead));
    BodyKindLists(StripLead(l));
  }

  ghost predicate AllListed(m: string, a: nat, segs: seq<(nat, nat)>, kinds: seq<Option<DangerKind>>)
    requires SegmentsFrom(m, a, segs)
  {
    |kinds| == |segs| && forall j :: 0 <= j < |segs| ==> Lists(m[segs[j].0..segs[j].1], kinds[j])
  }

  lemma PushListed(m: string, a: nat, e: nat, segs: seq<(nat, nat)>, k: Option<DangerKind>,
                   kinds: seq<Option<DangerKind>>)
    requires a <= e <= |m| && ';' !in m[a..e] && Lists(m[a..e], k)
    requires if e == |m| then segs == [] && kinds == []
             else m[e] == ';' && SegmentsFrom(m, e + 1, segs) && AllListed(m, e + 1, segs, kinds)
    ensures SegmentsFrom(m, a, [(a, e)] + segs) && AllListed(m, a, [(a, e)] + segs, [k] + kinds)
  {
    hide Lists;
    PushSegment(m, a, e, segs);
  }

  lemma {:induction false} KindsAreListed(m: string, a: nat)
    returns (segs: seq<(nat, nat)>, kinds: seq<Option<DangerKind>>)
    requires a <= |m|
    ensures SegmentsFrom(m, a, segs) && AllListed(m, a, segs, kinds) && KindsFrom(m, a) == Present(kinds)
    decreases |m| - a
  {
    hide ClassifyStatement, Lists, NextSemi, KindsFrom, Listed, Present, SegmentsFrom, AllListed;
    var e := NextSemi(m, a);
    NoSemiBefore(m, a);
    KindIsListed(m[a..e]);
    KindsUnfold(m, a);
    var more, rest := [], [];
    if e < |m| {
      more, rest := KindsAreListed(m, e + 1);
    }
    var k := ClassifyStatement(m[a..e]);
    PushListed(m, a, e, more, k, rest);
    PushPresent(k, rest);
    segs, kinds := [(a, e)] + more, [k] + rest;
  }

  /**
   * For every script: the findings are, in order, those its statements call for, each told from the words that survive
   * the mask, and nothing else is listed.
   */
  lemma FindingsAreListed(sql: string, d: Driver) returns (segs: seq<(nat, nat)>, kinds: seq<Option<DangerKind>>)
    ensures var m := Mask(sql, Rules(d, false, false, d == MySql));
            && SegmentsFrom(m, 0, segs) && |kinds| == |segs|
            && (forall j :: 0 <= j < |segs| ==> Lists(m[segs[j].0..segs[j].1], kinds[j]))
            && DangerKinds(sql, d) == Present(kinds)
  {
    hide Mask, Lists, KindsFrom, Present;
    segs, kinds := KindsAreListed(Mask(sql, DefaultRules(d)), 0);
  }

  // --- the read-only gate ---

  /** A masked script without the white space before it and the white space and `;` behind it. */
  ghost predicate IsCore(l: string, body: string) {
    && (body != "" ==> !IsSpace(body[0]) && !IsSpace(body[|body| - 1]) && body[|body| - 1] != ';')
    && exists lead: string, tail: string ::
         l == lead + body + tail && (forall c :: c in lead ==> IsSpace(c)) &&
         forall c :: c in tail ==> IsSpace(c) || c == ';'
  }

  /** `word` stands at `i` as a word of its own. */
  ghost predicate StandsAt(body: string, word: string, i: nat) {
    && i <= |body| && word <= body[i..]
    && (i > 0 ==> !IsWord(body[i - 1])) && (i + |word| < |body| ==> !IsWord(body[i + |word|]))
  }

  ghost predicate HasWord(body: string, word: string) { exists i: nat :: StandsAt(body, word, i) }

  const READING := {"select", "show", "describe", "desc", "explain", "with", "values", "table"}

  const WRITING :=
    {"insert", "update", "delete", "into", "create", "alter", "drop", "truncate", "call", "merge", "grant", "revoke"}

  lemma WordIsAt(body: string, word: string, i: nat)
    requires i <= |body|
    ensures WordAt(body, word, i) <==> StandsAt(body, word, i)
  {
    hide MatchAt, IsWord;
    MatchIsPrefix(body, word, i);
  }

  lemma ContainsIsHas(body: string, word: string)
    ensures ContainsWord(body, word) <==> HasWord(body, word)
  {
    hide WordAt, StandsAt;
    forall i | 0 <= i <= |body| ensures WordAt(body, word, i) <==> StandsAt(body, word, i) {
      WordIsAt(body, word, i);
    }
    if i: nat :| StandsAt(body, word, i) {
      StandsWithin(body, word, i);
    }
  }

  lemma StandsWithin(body: string, word: string, i: nat)
    requires StandsAt(body, word, i)
    ensures i <= |body|
  {
  }

  lemma CoreOfMask(m: string)
    ensures IsCore(Lower(m), ReadOnlyBody(m))
  {
    var l := Lower(m);
    var end := SeparatorsAt(l);
    var from := TrimStartAt(l[..end]);
    hide IsSpace, TrimStartAt, SeparatorsAt, Lower;
    TrimmedIsCore(l, from, end);
    assert ReadOnlyBody(m) == l[from..end];
  }

  lemma TrimmedIsCore(l: string, from: nat, end: nat)
    requires from <= end <= |l|
    requires forall k :: 0 <= k < from ==> IsSpace(l[..end][k])
    requires forall k :: end <= k < |l| ==> IsSeparator(l[k])
    requires from < end ==> !IsSpace(l[..end][from]) && !IsSeparator(l[end - 1])
    ensures IsCore(l, l[from..end])
  {
    hide IsSpace;
    var lead, tail := l[..from], l[end..];
    assert l == lead + l[from..end] + tail;
    forall c | c in lead ensures IsSpace(c) {
      var k :| 0 <= k < |lead| && lead[k] == c;
      assert l[..end][k] == c;
    }
  }

  /**
   * The masked text, trimmed, begins with a reading word, goes on to the end without a `;`, has no writing word
   * anywhere and passes the remaining tests.
   */
  ghost predicate ReadsOnly(sql: string, m: string, vetoes: (string, string) -> bool) {
    exists body ::
      && IsCore(Lower(m), body)
      && (exists w :: w in READING && Begins(body, w))
      && ';' !in body
      && (forall w :: w in WRITING ==> !HasWord(body, w))
      && !vetoes(sql, body)
  }

  /** `a` is what is left of `l` without `lead` and `tail`. */
  predicate Framed(l: string, lead: string, a: string, tail: string) {
    && l == lead + a + tail && (a != "" ==> !IsSpace(a[0]) && !IsSpace(a[|a| - 1]) && a[|a| - 1] != ';')
    && (forall k :: 0 <= k < |lead| ==> IsSpace(lead[k]))
    && forall k :: 0 <= k < |tail| ==> IsSpace(tail[k]) || tail[k] == ';'
  }

  /** The core that starts first starts where any other does, and ends no earlier. */
  lemma CoreWithin(l: string, p: string, a: string, t: string, q: string, b: string, u: string)
    requires Framed(l, p, a, t) && Framed(l, q, b, u) && a != ""
    ensures b != "" && |p| >= |q| && |p| + |a| <= |q| + |b|
  {
    hide IsSpace;
    var last := |p| + |a| - 1;
    assert l[|p|] == a[0] && l[last] == a[|a| - 1];
    assert forall k :: 0 <= k < |q| ==> l[k] == q[k];
    assert forall k :: |q| + |b| <= k < |l| ==> l[k] == u[k - |q| - |b|];
  }

  /** A text has one core. */
  lemma OneCore(l: string, a: string, b: string)
    requires IsCore(l, a) && IsCore(l, b)
    ensures a == b
  {
    var p, t := FrameOf(l, a);
    var q, u := FrameOf(l, b);
    if a != "" {
      CoreWithin(l, p, a, t, q, b, u);
    }
    if b != "" {
      CoreWithin(l, q, b, u, p, a, t);
      assert l[|p|..|p| + |a|] == a && l[|q|..|q| + |b|] == b;
    }
  }

  lemma FrameOf(l: string, a: string) returns (lead: string, tail: string)
    requires IsCore(l, a)
    ensures Framed(l, lead, a, tail)
  {
    hide IsSpace;
    lead, tail :| l == lead + a + tail && (forall c :: c in lead ==> IsSpace(c)) &&
      forall c :: c in tail ==> IsSpace(c) || c == ';';
  }

  lemma MaskedGateIsTold(sql: string, r: Rules, vetoes: (string, string) -> bool)
    ensures IsReadOnlyMasked(sql, r, vetoes) <==> ReadsOnly(sql, Mask(sql, r), vetoes)
  {
    hide Mask, ReadOnlyBody, StartsWithKeyword, ContainsWord, Begins, HasWord, IsCore;
    var body := ReadOnlyBody(Mask(sql, r));
    CoreOfMask(Mask(sql, r));
    forall w ensures StartsWithKeyword(body, w) <==> Begins(body, w) {
      KeywordBegins(body, w);
    }
    forall w ensures ContainsWord(body, w) <==> HasWord(body, w) {
      ContainsIsHas(body, w);
    }
    NothingBegins();
    forall other | IsCore(Lower(Mask(sql, r)), other) ensures other == body {
      OneCore(Lower(Mask(sql, r)), other, body);
    }
  }

  /**
   * The gate accepts a script exactly when it only reads as the driver masks it, a text whose driver is not known under
   * both readings of `--`.
   */
  lemma GateIsTold(sql: string, d: Driver, vetoes: (string, string) -> bool)
    ensures IsReadOnlySql(sql, d, vetoes) <==>
            if d == Unknown then
              ReadsOnly(sql, Mask(sql, Rules(d, false, false, false)), vetoes) &&
              ReadsOnly(sql, Mask(sql, Rules(d, false, false, true)), vetoes)
            else ReadsOnly(sql, Mask(sql, Rules(d, false, false, d == MySql)), vetoes)
  {
    hide IsReadOnlyMasked, ReadsOnly, Mask;
    MaskedGateIsTold(sql, DefaultRules(d), vetoes);
    MaskedGateIsTold(sql, DefaultRules(d).(dashSpace := true), vetoes);
  }

  lemma NothingBegins()
    ensures forall w: string :: w != "" ==> !Begins("", w)
  {
  }
}
