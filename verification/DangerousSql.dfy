/** Destructive statements and the read-only gate, both read off the mask. */
module DangerousSql {
  import opened Common
  import opened Text
  import opened MaskSpec
  import opened MaskScanner
  import opened SqlScript

  datatype DangerKind = DeleteNoWhere | UpdateNoWhere | Drop | Truncate | DropColumn | DropConstraint

  predicate IsLead(c: char) { IsSpace(c) || c == '(' || c == '\U{0085}' || c == '\U{FEFF}' }

  function StripLead(m: string): string { m[RunEnd(m, 0, IsLead)..] }

  predicate WordEdge(s: string, i: int) { i < 0 || i >= |s| || !IsWord(s[i]) }

  predicate StartsWithKeyword(body: string, kw: string) {
    MatchAt(body, kw, 0) && WordEdge(body, |kw|)
  }

  predicate WordAt(s: string, kw: string, i: nat) {
    MatchAt(s, kw, i) && WordEdge(s, i - 1) && WordEdge(s, i + |kw|)
  }

  predicate ContainsWord(s: string, kw: string) {
    exists i :: 0 <= i <= |s| && WordAt(s, kw, i)
  }

  /** Parenthesis depth before position `i`; a stray `)` leaves it at 0. */
  function Depth(m: string, i: nat): nat
    requires i <= |m|
  {
    if i == 0 then 0
    else
      var d := Depth(m, i - 1);
      if m[i - 1] == '(' then d + 1 else if m[i - 1] == ')' && d > 0 then d - 1 else d
  }

  /** A `where` that belongs to the statement itself stands as a word at depth 0. */
  predicate TopLevelWhere(m: string) {
    exists i :: 0 <= i < |m| && WordAt(m, "where", i) && Depth(m, i) == 0
  }

  method HasTopLevelWhere(m: string) returns (found: bool)
    ensures found == TopLevelWhere(m)
  {
    var depth := 0;
    for i := 0 to |m|
      invariant depth == Depth(m, i)
      invariant forall j :: 0 <= j < i && WordAt(m, "where", j) ==> Depth(m, j) != 0
    {
      var c := m[i];
      assert MatchAt(m, "where", i) ==> c == 'w' by { if MatchAt(m, "where", i) { assert m[i + 0] == "where"[0]; } }
      if c == '(' {
        depth := depth + 1;
      } else if c == ')' {
        if depth > 0 {
          depth := depth - 1;
        }
      } else if depth == 0 && c == 'w' && WordAt(m, "where", i) {
        return true;
      }
    }
    return false;
  }

  predicate IsLowerWord(c: char) { 'a' <= c <= 'z' || IsDigit(c) || c == '_' }

  predicate IsOpenQuote(c: char) { c == '`' || c == '"' || c == '[' }

  /** The words of a lowered statement and the opening marks of quoted names, from `i` on. */
  function Words(m: string, i: nat): seq<string>
    requires i <= |m|
    decreases |m| - i
  {
    if i == |m| then []
    else if IsLowerWord(m[i]) then
      var j := RunEnd(m, i, IsLowerWord);
      [m[i..j]] + Words(m, j)
    else if IsOpenQuote(m[i]) then [[m[i]]] + Words(m, i + 1)
    else Words(m, i + 1)
  }

  predicate DropsOther(w: string) {
    w in ["index", "key", "partition", "default", "not", "expression", "identity", "system", "period", "if"]
  }

  /** The first `drop` clause at `i` or later that removes a column or a constraint. */
  function DropClause(words: seq<string>, i: nat): Option<DangerKind>
    decreases |words| - i
  {
    if i + 1 >= |words| then None
    else if words[i] != "drop" then DropClause(words, i + 1)
    else
      var j := if words[i + 1] == "if" && i + 3 < |words| && words[i + 2] == "exists" then i + 3 else i + 1;
      if words[j] == "column" then Some(DropColumn)
      else if words[j] in ["constraint", "foreign", "primary", "check"] then Some(DropConstraint)
      else if !DropsOther(words[j]) then Some(DropColumn)
      else DropClause(words, i + 1)
  }

  function AlterDropKind(body: string): Option<DangerKind> {
    var words := Words(body, 0);
    if |words| >= 2 && words[0] == "alter" && words[1] == "table" then DropClause(words, 2) else None
  }

  /** The kind of danger of a lowered statement body. */
  function BodyKind(body: string): Option<DangerKind> {
    if StartsWithKeyword(body, "delete") then (if TopLevelWhere(body) then None else Some(DeleteNoWhere))
    else if StartsWithKeyword(body, "update") then (if TopLevelWhere(body) then None else Some(UpdateNoWhere))
    else if StartsWithKeyword(body, "truncate") then Some(Truncate)
    else if StartsWithKeyword(body, "drop") then Some(Drop)
    else if StartsWithKeyword(body, "alter") then AlterDropKind(body)
    else None
  }

  function ClassifyStatement(masked: string): Option<DangerKind> {
    BodyKind(StripLead(Lower(masked)))
  }

  /** The danger kinds of the segments that start at `a` or later. */
  function KindsFrom(m: string, a: nat): seq<DangerKind>
    requires a <= |m|
    decreases |m| - a
  {
    var e := NextSemi(m, a);
    Listed(ClassifyStatement(m[a..e])) + (if e < |m| then KindsFrom(m, e + 1) else [])
  }

  function DangerKinds(sql: string, d: Driver): seq<DangerKind> {
    KindsFrom(Mask(sql, DefaultRules(d)), 0)
  }

  /** The kinds found so far, and those of the segments from `start` on, are all of them. */
  ghost predicate KindsUpTo(m: string, findings: seq<DangerKind>, start: nat, i: nat) {
    && start <= i <= |m| && NextSemi(m, start) == NextSemi(m, i)
    && findings + KindsFrom(m, start) == KindsFrom(m, 0)
  }

  lemma NoKinds(m: string)
    ensures KindsUpTo(m, [], 0, 0)
  {
    hide KindsFrom;
    assert [] + KindsFrom(m, 0) == KindsFrom(m, 0);
  }

  lemma KindsUpToStep(m: string, findings: seq<DangerKind>, start: nat, i: nat)
    requires KindsUpTo(m, findings, start, i) && i < |m|
    ensures if m[i] == ';' then KindsUpTo(m, findings + Listed(ClassifyStatement(m[start..i])), i + 1, i + 1)
            else KindsUpTo(m, findings, start, i + 1)
  {
    hide ClassifyStatement, Listed, KindsFrom, NextSemi;
    NextSemiStep(m, i);
    KindsStep(m, start, findings);
  }

  lemma AllKinds(m: string, findings: seq<DangerKind>, start: nat)
    requires KindsUpTo(m, findings, start, |m|)
    ensures findings + Listed(ClassifyStatement(m[start..|m|])) == KindsFrom(m, 0)
  {
    hide ClassifyStatement, Listed, KindsFrom, NextSemi;
    NextSemiAtEnd(m);
    KindsStep(m, start, findings);
  }

  method AnalyzeDangerousSql(sql: string, d: Driver, cache: MaskCache) returns (findings: seq<DangerKind>)
    requires cache.Valid()
    modifies cache
    ensures cache.Valid()
    ensures findings == DangerKinds(sql, d)
  {
    hide Mask, ClassifyStatement, KindsFrom, Listed, KindsUpTo, CacheValid, CacheKey, HoldsMask, CacheAfter;
    var masked := cache.MaskLiterals(sql, DefaultRules(d), true);
    findings := [];
    var start := 0;
    NoKinds(masked);
    for i := 0 to |masked|
      invariant cache.Valid() && start <= i && KindsUpTo(masked, findings, start, i)
    {
      KindsUpToStep(masked, findings, start, i);
      if masked[i] == ';' {
        findings := findings + Listed(ClassifyStatement(masked[start..i]));
        start := i + 1;
      }
    }
    AllKinds(masked, findings, start);
    findings := findings + Listed(ClassifyStatement(masked[start..|masked|]));
  }

  lemma KindsStep(m: string, a: nat, done: seq<DangerKind>)
    requires a <= |m|
    ensures var e := NextSemi(m, a);
            done + KindsFrom(m, a) ==
            done + Listed(ClassifyStatement(m[a..e])) + (if e < |m| then KindsFrom(m, e + 1) else [])
  {
    hide ClassifyStatement;
  }

  // --- the read-only gate ---

  predicate IsSeparator(c: char) { c == ';' || IsSpace(c) }

  /** The end of `s` once trailing white space and `;` are dropped. */
  function SeparatorsAt(s: string): (e: nat)
    ensures e <= |s|
    ensures forall k :: e <= k < |s| ==> IsSeparator(s[k])
    ensures e > 0 ==> !IsSeparator(s[e - 1])
  {
    if s == "" then 0
    else if IsSeparator(s[|s| - 1]) then SeparatorsAt(s[..|s| - 1])
    else |s|
  }

  /** One scan from the end gives what dropping the trailing separators means. */
  method TrimTrailingSeparators(s: string) returns (t: string)
    ensures t == s[..SeparatorsAt(s)]
  {
    var end := |s|;
    while end > 0 && IsSeparator(s[end - 1])
      invariant 0 <= end <= |s| && SeparatorsAt(s[..end]) == SeparatorsAt(s)
    {
      assert s[..end][..end - 1] == s[..end - 1];
      end := end - 1;
    }
    t := s[..end];
  }

  const READ_ONLY_PREFIXES := ["select", "show", "describe", "desc", "explain", "with", "values", "table"]

  const WRITE_KEYWORDS :=
    ["insert", "update", "delete", "into", "create", "alter", "drop", "truncate", "call", "merge", "grant", "revoke"]

  function ReadOnlyBody(masked: string): string {
    var lower := Lower(masked);
    var t := lower[..SeparatorsAt(lower)];
    t[TrimStartAt(t)..]
  }

  /** `vetoes` stands for the remaining tests (denied functions, locks), which can only refuse. */
  predicate IsReadOnlyMasked(sql: string, r: Rules, vetoes: (string, string) -> bool) {
    var body := ReadOnlyBody(Mask(sql, r));
    && body != ""
    && (exists kw :: kw in READ_ONLY_PREFIXES && StartsWithKeyword(body, kw))
    && ';' !in body
    && (forall kw :: kw in WRITE_KEYWORDS ==> !ContainsWord(body, kw))
    && !vetoes(sql, body)
  }

  /** An unknown driver has to pass under MySQL's reading of `--` as well. */
  predicate IsReadOnlySql(sql: string, d: Driver, vetoes: (string, string) -> bool) {
    IsReadOnlyMasked(sql, DefaultRules(d), vetoes) &&
    (d != Unknown || IsReadOnlyMasked(sql, DefaultRules(d).(dashSpace := true), vetoes))
  }
}
