/** Which statements a script is split into, told from the `;` and the marks that survive the mask. */
module ScriptMeaning {
  import opened Common
  import opened Text
  import opened MaskSpec
  import opened SqlScript
  import opened SqlScriptLaws

  /** The stretches between the `;` of a mask from `a` on, all of them in order. */
  ghost predicate SegmentsFrom(m: string, a: nat, segs: seq<(nat, nat)>) {
    && segs != [] && segs[0].0 == a && segs[|segs| - 1].1 == |m|
    && (forall j :: 0 <= j < |segs| ==> segs[j].0 <= segs[j].1 <= |m| && ';' !in m[segs[j].0..segs[j].1])
    && (forall j :: 0 < j < |segs| ==> segs[j].0 == segs[j - 1].1 + 1)
    && (forall j :: 0 <= j < |segs| - 1 ==> Is(m, segs[j].1, ';'))
  }

  lemma PushSegment(m: string, a: nat, e: nat, segs: seq<(nat, nat)>)
    requires a <= e <= |m| && ';' !in m[a..e]
    requires if e == |m| then segs == [] else m[e] == ';' && SegmentsFrom(m, e + 1, segs)
    ensures SegmentsFrom(m, a, [(a, e)] + segs)
  {
  }

  lemma NoSemiBefore(m: string, a: nat)
    requires a <= |m|
    ensures ';' !in m[a..NextSemi(m, a)]
  {
    forall k | a <= k < NextSemi(m, a) ensures m[k] != ';' {
      RunEndStays(m, a, NotSemi, k);
    }
  }

  // --- what holds nothing to execute ---

  function Concat(parts: seq<string>): string { if parts == [] then "" else parts[0] + Concat(parts[1..]) }

  predicate IsFiller(part: string) { part == "*/" || (|part| == 1 && IsSpace(part[0])) }

  /** Nothing but white space and the ends of version comments. */
  ghost predicate IsIdle(m: string) {
    exists parts: seq<string> :: Concat(parts) == m && forall k :: 0 <= k < |parts| ==> IsFiller(parts[k])
  }

  lemma FillerFirst(part: string, rest: string)
    requires IsFiller(part)
    ensures HasExecutableSql(part + rest) <==> HasExecutableSql(rest)
  {
    var m := part + rest;
    if part == "*/" {
      assert m[0] == '*' && m[1] == '/' && m[2..] == rest;
    } else {
      assert m[0] == part[0] && m[1..] == rest;
      assert RemoveClosers(m) == [m[0]] + RemoveClosers(rest);
    }
  }

  lemma {:induction false} FillersAreIdle(parts: seq<string>)
    requires forall k :: 0 <= k < |parts| ==> IsFiller(parts[k])
    ensures !HasExecutableSql(Concat(parts))
  {
    hide IsFiller;
    if parts != [] {
      FillersAreIdle(parts[1..]);
      FillerFirst(parts[0], Concat(parts[1..]));
    }
  }

  lemma {:induction false} IdleHasFillers(m: string) returns (parts: seq<string>)
    requires !HasExecutableSql(m)
    ensures Concat(parts) == m && forall k :: 0 <= k < |parts| ==> IsFiller(parts[k])
  {
    parts := [];
    if m != "" {
      var n := if StartsWithCloser(m) then 2 else 1;
      FirstIsFiller(m);
      FillerFirst(m[..n], m[n..]);
      assert m == m[..n] + m[n..];
      hide HasExecutableSql, IsFiller;
      var rest := IdleHasFillers(m[n..]);
      parts := [m[..n]] + rest;
      assert parts[1..] == rest;
    }
  }

  lemma FirstIsFiller(m: string)
    requires m != "" && !HasExecutableSql(m)
    ensures IsFiller(m[..if StartsWithCloser(m) then 2 else 1])
  {
    if !StartsWithCloser(m) {
      assert RemoveClosers(m)[0] == m[0];
      assert m[0] in RemoveClosers(m);
    } else {
      assert m[..2] == "*/";
    }
  }

  lemma IdleIsTold(m: string)
    ensures IsIdle(m) <==> !HasExecutableSql(m)
  {
    hide HasExecutableSql, IsFiller, Concat;
    if !HasExecutableSql(m) {
      var parts := IdleHasFillers(m);
    }
    if IsIdle(m) {
      var parts: seq<string> :| Concat(parts) == m && forall k :: 0 <= k < |parts| ==> IsFiller(parts[k]);
      FillersAreIdle(parts);
    }
  }

  // --- the statements ---

  /** What the stretch from `a` to `e` gives: nothing if it is idle, else its trimmed extent. */
  ghost predicate Gives(sql: string, m: string, a: nat, e: nat, g: Option<StatementRange>)
    requires a <= e <= |m|
  {
    if IsIdle(m[a..e]) then g == None else g.Some? && IsTrimmed(sql, g.value, a, e)
  }

  lemma SegmentIsTold(sql: string, r: Rules, a: nat, e: nat) returns (g: Option<StatementRange>)
    requires a <= e <= |sql|
    ensures Segment(sql, Mask(sql, r), a, e) == Listed(g) && Gives(sql, Mask(sql, r), a, e, g)
  {
    hide HasExecutableSql, RangeOf, MaskedChar, IsIdle, IsTrimmed;
    var m := Mask(sql, r);
    IdleIsTold(m[a..e]);
    g := None;
    if HasExecutableSql(m[a..e]) {
      g := Some(RangeOf(sql, a, e));
      var k := ExecutableIsSolid(m[a..e]);
      MaskShape(sql, r, a + k);
      assert m[a..e][k] == m[a + k];
      KeptIsSolid(sql, m, a + k);
      RangeIsTrimmed(sql, a, e, a + k);
    }
  }

  lemma KeptIsSolid(sql: string, m: string, k: nat)
    requires k < |m| == |sql| && !IsSpace(m[k]) && (m[k] == sql[k] || m[k] == ' ')
    ensures !IsSpace(sql[k])
  {
  }

  ghost predicate AllGive(sql: string, m: string, segs: seq<(nat, nat)>, found: seq<Option<StatementRange>>) {
    && |found| == |segs|
    && forall j :: 0 <= j < |segs| ==>
         segs[j].0 <= segs[j].1 <= |m| && Gives(sql, m, segs[j].0, segs[j].1, found[j])
  }

  /** The stretches from `a` on, what each gives, and the ranges found in them. */
  ghost predicate Given(sql: string, m: string, a: nat, segs: seq<(nat, nat)>, found: seq<Option<StatementRange>>,
                        ranges: seq<StatementRange>) {
    SegmentsFrom(m, a, segs) && AllGive(sql, m, segs, found) && ranges == Present(found)
  }

  lemma PushGiven(sql: string, m: string, a: nat, e: nat, first: Option<StatementRange>, segs: seq<(nat, nat)>,
                  found: seq<Option<StatementRange>>, rest: seq<StatementRange>)
    requires a <= e <= |m| && ';' !in m[a..e] && Gives(sql, m, a, e, first)
    requires if e == |m| then segs == [] && found == [] && rest == []
             else m[e] == ';' && Given(sql, m, e + 1, segs, found, rest)
    ensures Given(sql, m, a, [(a, e)] + segs, [first] + found, Listed(first) + rest)
  {
    hide Gives, Present;
    PushSegment(m, a, e, segs);
    PushPresent(first, found);
  }

  lemma RangesUnfold(sql: string, m: string, a: nat, first: Option<StatementRange>)
    requires |m| == |sql| && a <= |m| && Segment(sql, m, a, NextSemi(m, a)) == Listed(first)
    ensures var e := NextSemi(m, a);
            Ranges(sql, m, a) == Listed(first) + if e < |m| then Ranges(sql, m, e + 1) else []
  {
    hide Segment;
  }

  lemma {:induction false} RangesAreGiven(sql: string, r: Rules, a: nat)
    returns (segs: seq<(nat, nat)>, found: seq<Option<StatementRange>>)
    requires a <= |sql|
    ensures Given(sql, Mask(sql, r), a, segs, found, Ranges(sql, Mask(sql, r), a))
    decreases |sql| - a
  {
    hide Mask, Gives, NextSemi, Segment, Given, Ranges;
    MaskIsAsLong(sql, r);
    var m := Mask(sql, r);
    var e := NextSemi(m, a);
    NoSemiBefore(m, a);
    var first := SegmentIsTold(sql, r, a, e);
    RangesUnfold(sql, m, a, first);
    segs, found := [], [];
    if e < |m| {
      segs, found := RangesAreGiven(sql, r, e + 1);
    }
    PushGiven(sql, m, a, e, first, segs, found, if e < |m| then Ranges(sql, m, e + 1) else []);
    segs, found := [(a, e)] + segs, [first] + found;
  }

  lemma MaskIsAsLong(sql: string, r: Rules)
    ensures |Mask(sql, r)| == |sql|
  {
  }

  /**
   * For every script: its statements are, in order, the stretches between surviving `;` that are not idle, without the
   * white space around them.
   */
  lemma StatementsAreTold(sql: string, d: Driver) returns (segs: seq<(nat, nat)>, found: seq<Option<StatementRange>>)
    ensures var m := Mask(sql, Rules(d, false, false, d == MySql));
            SegmentsFrom(m, 0, segs) && AllGive(sql, m, segs, found) && StatementRanges(sql, d) == Present(found)
  {
    hide Mask, Gives, Present, SegmentsFrom, Ranges, AllGive;
    segs, found := RangesAreGiven(sql, DefaultRules(d), 0);
  }
}
