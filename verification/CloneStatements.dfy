/** Splitting a DDL text into statements: only separators, and gaps around statements, are dropped. */
module CloneStatements {
  import opened CloneTokens
  import opened CloneSegments

  /** The tokens between separators, `cur` being the piece read so far. */
  function Pieces(ts: seq<Token>, cur: seq<Token>): seq<seq<Token>> {
    if ts == [] then [cur]
    else if IsMark(ts[0], ";") then [cur] + Pieces(ts[1..], [])
    else Pieces(ts[1..], cur + [ts[0]])
  }

  function TrimStart(ts: seq<Token>): seq<Token> { if ts != [] && IsGap(ts[0]) then TrimStart(ts[1..]) else ts }

  function TrimEnd(ts: seq<Token>): seq<Token> {
    if ts != [] && IsGap(ts[|ts| - 1]) then TrimEnd(ts[..|ts| - 1]) else ts
  }

  function TrimGaps(ts: seq<Token>): seq<Token> { TrimEnd(TrimStart(ts)) }

  function Trimmed(pieces: seq<seq<Token>>): seq<seq<Token>> {
    if pieces == [] then []
    else
      var n := |pieces| - 1;
      Trimmed(pieces[..n]) + if TrimGaps(pieces[n]) == [] then [] else [TrimGaps(pieces[n])]
  }

  /** Trimming leaves a statement that begins and ends with something to execute, or nothing. */
  predicate IsTrimmed(ts: seq<Token>) { ts != [] ==> !IsGap(ts[0]) && !IsGap(ts[|ts| - 1]) }

  method TrimWs(ts: seq<Token>) returns (r: seq<Token>)
    ensures r == TrimGaps(ts)
  {
    hide IsGap, TrimStart, TrimEnd;
    var a, b := 0, |ts|;
    while a < b && IsGap(ts[a])
      invariant 0 <= a <= b == |ts| && TrimStart(ts[a..]) == TrimStart(ts)
    {
      TrimStartStep(ts[a..]);
      assert ts[a..][1..] == ts[a + 1..];
      a := a + 1;
    }
    TrimStartStep(ts[a..]);
    assert ts[a..b] == ts[a..];
    while b > a && IsGap(ts[b - 1])
      invariant a <= b <= |ts| && TrimEnd(ts[a..b]) == TrimGaps(ts)
    {
      TrimEndStep(ts[a..b]);
      assert ts[a..b][..b - a - 1] == ts[a..b - 1];
      b := b - 1;
    }
    TrimEndStep(ts[a..b]);
    r := ts[a..b];
  }

  lemma TrimStartStep(ts: seq<Token>)
    ensures TrimStart(ts) == if ts != [] && IsGap(ts[0]) then TrimStart(ts[1..]) else ts
  {
  }

  lemma TrimEndStep(ts: seq<Token>)
    ensures TrimEnd(ts) == if ts != [] && IsGap(ts[|ts| - 1]) then TrimEnd(ts[..|ts| - 1]) else ts
  {
  }

  method SplitStatements(tokens: seq<Token>) returns (stmts: seq<seq<Token>>)
    ensures stmts == Trimmed(Pieces(tokens, []))
  {
    hide TrimGaps;
    var pieces: seq<seq<Token>> := [];
    var cur: seq<Token> := [];
    for i := 0 to |tokens|
      invariant pieces + Pieces(tokens[i..], cur) == Pieces(tokens, [])
    {
      assert tokens[i..][1..] == tokens[i + 1..];
      if IsMark(tokens[i], ";") {
        assert pieces + ([cur] + Pieces(tokens[i + 1..], [])) == pieces + [cur] + Pieces(tokens[i + 1..], []);
        pieces := pieces + [cur];
        cur := [];
      } else {
        cur := cur + [tokens[i]];
      }
    }
    pieces := pieces + [cur];
    stmts := [];
    for i := 0 to |pieces|
      invariant stmts == Trimmed(pieces[..i])
    {
      assert pieces[..i + 1][..i] == pieces[..i];
      var t := TrimWs(pieces[i]);
      if |t| > 0 {
        stmts := stmts + [t];
      }
    }
    assert pieces[..|pieces|] == pieces;
  }

  /** The tokens that are neither gaps nor separators. */
  function Work(ts: seq<Token>): seq<Token> {
    if ts == [] then []
    else
      var last := ts[|ts| - 1];
      Work(ts[..|ts| - 1]) + if IsGap(last) || IsMark(last, ";") then [] else [last]
  }

  function AllWork(pieces: seq<seq<Token>>): seq<Token> {
    if pieces == [] then [] else AllWork(pieces[..|pieces| - 1]) + Work(pieces[|pieces| - 1])
  }

  lemma {:induction false} WorkAppend(a: seq<Token>, b: seq<Token>)
    ensures Work(a + b) == Work(a) + Work(b)
  {
    if b == [] {
      assert a + b == a;
    } else {
      var n := |b| - 1;
      WorkAppend(a, b[..n]);
      assert (a + b)[..|a + b| - 1] == a + b[..n];
    }
  }

  lemma {:induction false} TrimKeepsWork(ts: seq<Token>)
    ensures Work(TrimStart(ts)) == Work(ts)
    decreases |ts|
  {
    if ts != [] && IsGap(ts[0]) {
      TrimKeepsWork(ts[1..]);
      WorkAppend([ts[0]], ts[1..]);
      assert ts == [ts[0]] + ts[1..] && Work([ts[0]]) == Work([]) + [];
    }
  }

  lemma {:induction false} TrimEndKeepsWork(ts: seq<Token>)
    ensures Work(TrimEnd(ts)) == Work(ts)
    decreases |ts|
  {
    if ts != [] && IsGap(ts[|ts| - 1]) {
      TrimEndKeepsWork(ts[..|ts| - 1]);
    }
  }

  lemma {:induction false} TrimIsTrimmed(ts: seq<Token>)
    ensures IsTrimmed(TrimEnd(TrimStart(ts)))
    decreases |ts|
  {
    if ts != [] && IsGap(ts[0]) {
      TrimIsTrimmed(ts[1..]);
    } else {
      TrimEndKeepsStart(ts);
    }
  }

  lemma {:induction false} TrimEndKeepsStart(ts: seq<Token>)
    requires ts == [] || !IsGap(ts[0])
    ensures IsTrimmed(TrimEnd(ts)) && (ts != [] ==> TrimEnd(ts) != [])
    decreases |ts|
  {
    if ts != [] && IsGap(ts[|ts| - 1]) {
      TrimEndKeepsStart(ts[..|ts| - 1]);
    }
  }

  lemma AllWorkPush(pieces: seq<seq<Token>>, piece: seq<Token>)
    ensures AllWork(pieces + [piece]) == AllWork(pieces) + Work(piece)
  {
    hide Work;
    assert (pieces + [piece])[..|pieces|] == pieces;
  }

  lemma TrimmedPush(pieces: seq<seq<Token>>, piece: seq<Token>)
    ensures Trimmed(pieces + [piece]) ==
            if TrimGaps(piece) == [] then Trimmed(pieces) else Trimmed(pieces) + [TrimGaps(piece)]
  {
    hide TrimGaps;
    assert (pieces + [piece])[..|pieces|] == pieces;
  }

  lemma GapsKeepWork(ts: seq<Token>)
    ensures Work(TrimGaps(ts)) == Work(ts) && IsTrimmed(TrimGaps(ts))
  {
    hide Work, IsTrimmed;
    TrimKeepsWork(ts);
    TrimEndKeepsWork(TrimStart(ts));
    TrimIsTrimmed(ts);
  }

  lemma {:induction false} TrimmedWork(pieces: seq<seq<Token>>)
    ensures AllWork(Trimmed(pieces)) == AllWork(pieces)
    ensures forall t :: t in Trimmed(pieces) ==> t != [] && IsTrimmed(t)
  {
    if pieces != [] {
      hide Work, AllWork, Trimmed, TrimGaps, IsTrimmed;
      var n := |pieces| - 1;
      var piece := pieces[n];
      assert pieces == pieces[..n] + [piece];
      TrimmedWork(pieces[..n]);
      GapsKeepWork(piece);
      WorkOfNone();
      AllWorkPush(pieces[..n], piece);
      TrimmedPush(pieces[..n], piece);
      AllWorkPush(Trimmed(pieces[..n]), TrimGaps(piece));
      assert AllWork(pieces[..n]) + [] == AllWork(pieces[..n]);
    }
  }

  lemma WorkOfNone()
    ensures Work([]) == []
  {
  }

  lemma {:induction false} AllWorkFront(piece: seq<Token>, rest: seq<seq<Token>>)
    ensures AllWork([piece] + rest) == Work(piece) + AllWork(rest)
    decreases |rest|
  {
    hide Work, AllWork;
    AllWorkOfNone();
    if rest == [] {
      AllWorkPush([], piece);
      assert [piece] + rest == [piece] == [] + [piece];
    } else {
      var n := |rest| - 1;
      AllWorkFront(piece, rest[..n]);
      AllWorkPush([piece] + rest[..n], rest[n]);
      AllWorkPush(rest[..n], rest[n]);
      assert rest == rest[..n] + [rest[n]] && [piece] + rest == [piece] + rest[..n] + [rest[n]];
    }
  }

  lemma WorkOfOne(t: Token)
    ensures Work([t]) == if IsGap(t) || IsMark(t, ";") then [] else [t]
  {
    assert [t][..0] == [];
    WorkOfNone();
  }

  lemma WorkOfFirst(ts: seq<Token>)
    requires ts != []
    ensures Work(ts) == Work([ts[0]]) + Work(ts[1..])
  {
    hide Work;
    WorkAppend([ts[0]], ts[1..]);
    assert ts == [ts[0]] + ts[1..];
  }

  lemma {:induction false} PiecesWork(ts: seq<Token>, cur: seq<Token>)
    ensures AllWork(Pieces(ts, cur)) == Work(cur) + Work(ts)
    decreases |ts|
  {
    hide Work, AllWork, IsMark, IsGap;
    WorkOfNone();
    if ts == [] {
      AllWorkPush([], cur);
      assert [] + [cur] == [cur];
      AllWorkOfNone();
    } else {
      WorkOfFirst(ts);
      WorkOfOne(ts[0]);
      if IsMark(ts[0], ";") {
        PiecesWork(ts[1..], []);
        AllWorkFront(cur, Pieces(ts[1..], []));
      } else {
        PiecesWork(ts[1..], cur + [ts[0]]);
        WorkAppend(cur, [ts[0]]);
        assert Work(cur) + Work([ts[0]]) + Work(ts[1..]) == Work(cur) + (Work([ts[0]]) + Work(ts[1..]));
      }
    }
  }

  lemma AllWorkOfNone()
    ensures AllWork([]) == []
  {
  }

  /**
   * The statements, one after the other, hold exactly the tokens of the text that do anything, in order; none is empty.
   */
  lemma StatementsKeepWork(tokens: seq<Token>)
    ensures AllWork(Trimmed(Pieces(tokens, []))) == Work(tokens)
    ensures forall t :: t in Trimmed(Pieces(tokens, [])) ==> t != [] && IsTrimmed(t)
  {
    PiecesWork(tokens, []);
    TrimmedWork(Pieces(tokens, []));
    WorkOfNone();
  }
}
