/** Splitting a script into statements at the `;` that survive the mask. */
module SqlScript {
  import opened Common
  import opened Text
  import opened MaskSpec
  import opened MaskScanner

  /** One statement: its trimmed extent in the script and its text. */
  datatype StatementRange = StatementRange(from: nat, to: nat, text: string)

  predicate NotSemi(c: char) { c != ';' }

  function NextSemi(m: string, i: nat): (e: nat)
    requires i <= |m|
    ensures i <= e <= |m| && (e < |m| ==> m[e] == ';')
  {
    RunEnd(m, i, NotSemi)
  }

  predicate StartsWithCloser(m: string): (b: bool)
    ensures b ==> |m| >= 2
  {
    |m| >= 2 && m[0] == '*' && m[1] == '/'
  }

  function RemoveClosers(m: string): string {
    if m == "" then ""
    else if StartsWithCloser(m) then RemoveClosers(m[2..])
    else [m[0]] + RemoveClosers(m[1..])
  }

  /** Something other than white space is left once the stray closers of version comments are dropped. */
  predicate HasExecutableSql(m: string) {
    exists c :: c in RemoveClosers(m) && !IsSpace(c)
  }

  function RangeOf(sql: string, a: nat, e: nat): StatementRange
    requires a <= e <= |sql|
  {
    var raw := sql[a..e];
    StatementRange(a + TrimStartAt(raw), a + TrimEndAt(raw), Trim(raw))
  }

  /** What the segment `[a, e)` adds: its range, unless nothing in it can be executed. */
  function Segment(sql: string, m: string, a: nat, e: nat): seq<StatementRange>
    requires |m| == |sql| && a <= e <= |m|
  {
    if HasExecutableSql(m[a..e]) then [RangeOf(sql, a, e)] else []
  }

  /** The ranges of the segments that start at `a` or later, read off the mask `m`. */
  function Ranges(sql: string, m: string, a: nat): seq<StatementRange>
    requires |m| == |sql| && a <= |m|
    decreases |m| - a
  {
    var e := NextSemi(m, a);
    Segment(sql, m, a, e) + (if e < |m| then Ranges(sql, m, e + 1) else [])
  }

  function TextsOf(rs: seq<StatementRange>): (ts: seq<string>)
    ensures |ts| == |rs| && forall i :: 0 <= i < |rs| ==> ts[i] == rs[i].text
  {
    seq(|rs|, i requires 0 <= i < |rs| => rs[i].text)
  }

  function StatementRanges(sql: string, d: Driver): seq<StatementRange> {
    Ranges(sql, Mask(sql, DefaultRules(d)), 0)
  }

  function Statements(sql: string, d: Driver): seq<string> {
    TextsOf(StatementRanges(sql, d))
  }

  lemma RangesStep(sql: string, m: string, a: nat, done: seq<StatementRange>)
    requires |m| == |sql| && a <= |m|
    ensures var e := NextSemi(m, a);
            done + Ranges(sql, m, a) ==
            done + Segment(sql, m, a, e) + (if e < |m| then Ranges(sql, m, e + 1) else [])
  {
    hide Segment;
  }

  /** The ranges found so far, and those of the segments from `segStart` on, are all of them. */
  ghost predicate FoundUpTo(sql: string, m: string, ranges: seq<StatementRange>, segStart: nat, i: nat) {
    && segStart <= i <= |m| == |sql| && NextSemi(m, segStart) == NextSemi(m, i)
    && ranges + Ranges(sql, m, segStart) == Ranges(sql, m, 0)
  }

  lemma FoundNothing(sql: string, m: string)
    requires |m| == |sql|
    ensures FoundUpTo(sql, m, [], 0, 0)
  {
    hide Ranges;
    assert [] + Ranges(sql, m, 0) == Ranges(sql, m, 0);
  }

  lemma FoundStep(sql: string, m: string, ranges: seq<StatementRange>, segStart: nat, i: nat)
    requires FoundUpTo(sql, m, ranges, segStart, i) && i < |m|
    ensures if m[i] == ';' then FoundUpTo(sql, m, ranges + Segment(sql, m, segStart, i), i + 1, i + 1)
            else FoundUpTo(sql, m, ranges, segStart, i + 1)
  {
    hide Segment, Ranges, NextSemi;
    NextSemiStep(m, i);
    RangesStep(sql, m, segStart, ranges);
  }

  lemma FoundAll(sql: string, m: string, ranges: seq<StatementRange>, segStart: nat)
    requires FoundUpTo(sql, m, ranges, segStart, |m|)
    ensures ranges + Segment(sql, m, segStart, |m|) == Ranges(sql, m, 0)
  {
    hide Segment, Ranges, NextSemi;
    NextSemiAtEnd(m);
    RangesStep(sql, m, segStart, ranges);
  }

  method SplitSqlStatementRanges(sql: string, d: Driver, cache: MaskCache) returns (ranges: seq<StatementRange>)
    requires cache.Valid()
    modifies cache
    ensures cache.Valid()
    ensures ranges == StatementRanges(sql, d)
  {
    hide Mask, Segment, Ranges, NextSemi, FoundUpTo, CacheValid, CacheKey, HoldsMask, CacheAfter;
    var masked := cache.MaskLiterals(sql, DefaultRules(d), true);
    ranges := [];
    var segStart := 0;
    FoundNothing(sql, masked);
    for i := 0 to |masked|
      invariant cache.Valid() && segStart <= i && FoundUpTo(sql, masked, ranges, segStart, i)
    {
      FoundStep(sql, masked, ranges, segStart, i);
      if masked[i] == ';' {
        ranges := ranges + Segment(sql, masked, segStart, i);
        segStart := i + 1;
      }
    }
    FoundAll(sql, masked, ranges, segStart);
    ranges := ranges + Segment(sql, masked, segStart, |masked|);
  }

  lemma NextSemiStep(m: string, i: nat)
    requires i < |m|
    ensures NextSemi(m, i) == if m[i] == ';' then i else NextSemi(m, i + 1)
  {
  }

  lemma NextSemiAtEnd(m: string)
    ensures NextSemi(m, |m|) == |m|
  {
  }

  /** The first range whose end is not before the cursor, or the last one. */
  function FirstFrom(rs: seq<StatementRange>, offset: nat): (k: nat)
    requires rs != []
    ensures k < |rs|
    ensures forall j :: 0 <= j < k ==> rs[j].to < offset
    ensures offset <= rs[k].to || k == |rs| - 1
  {
    if offset <= rs[0].to || |rs| == 1 then 0 else 1 + FirstFrom(rs[1..], offset)
  }

  method StatementAtOffset(sql: string, offset: nat, d: Driver, cache: MaskCache) returns (r: Option<StatementRange>)
    requires cache.Valid()
    modifies cache
    ensures cache.Valid()
    ensures var rs := StatementRanges(sql, d);
            r == if rs == [] then None else Some(rs[FirstFrom(rs, offset)])
  {
    hide Mask, HasExecutableSql, RangeOf, Ranges;
    var ranges := SplitSqlStatementRanges(sql, d, cache);
    if ranges == [] {
      return None;
    }
    for i := 0 to |ranges|
      invariant forall j :: 0 <= j < i ==> ranges[j].to < offset
    {
      if offset <= ranges[i].to {
        return Some(ranges[i]);
      }
    }
    return Some(ranges[|ranges| - 1]);
  }

  /** The batch from the cursor's statement to the last one, cut out of the script as it stands. */
  function StatementsFromOffset(sql: string, offset: nat, d: Driver): Option<(nat, nat)> {
    var rs := StatementRanges(sql, d);
    if rs == [] then None else Some((rs[FirstFrom(rs, offset)].from, rs[|rs| - 1].to))
  }
}
