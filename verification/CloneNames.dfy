/** Names for cloned constraints and indexes: within the length limit, and free whatever their case. */
module CloneNames {
  import opened Common
  import opened Text
  import opened CloneTokens

  /** The longest identifier a driver takes; SQLite has no limit. */
  function MaxIdentLength(d: Driver): Option<nat> {
    match d case Postgres => Some(63) case MySql => Some(64) case Sqlite => None
  }

  // --- decimal numbers ---

  function Digit(n: nat): char
    requires n < 10
  {
    (n + '0' as int) as char
  }

  function Decimal(n: nat): string { if n < 10 then [Digit(n)] else Decimal(n / 10) + [Digit(n % 10)] }

  function DecimalValue(s: string): int {
    if s == "" then 0 else 10 * DecimalValue(s[..|s| - 1]) + (s[|s| - 1] as int - '0' as int)
  }

  lemma {:induction false} DecimalReadsBack(n: nat)
    ensures DecimalValue(Decimal(n)) == n && Decimal(n) != "" &&
            forall k :: 0 <= k < |Decimal(n)| ==> IsDigit(Decimal(n)[k])
  {
    if n >= 10 {
      DecimalReadsBack(n / 10);
      var s := Decimal(n);
      assert s[..|s| - 1] == Decimal(n / 10);
    } else {
      assert DecimalValue([Digit(n)]) == 10 * DecimalValue("") + n;
    }
  }

  function Power10(k: nat): nat { if k == 0 then 1 else 10 * Power10(k - 1) }

  lemma {:induction false} DecimalIsShort(n: nat, k: nat)
    requires n < Power10(k) && k > 0
    ensures |Decimal(n)| <= k
  {
    assert Power10(k) == 10 * Power10(k - 1) && Power10(0) == 1;
    if n >= 10 {
      DecimalIsShort(n / 10, k - 1);
    }
  }

  // --- candidates ---

  /** `s` cut so that the suffix still fits, at least one character of it kept. */
  function Fit(s: string, suffix: string, max: Option<nat>): string {
    if max.Some? && |s| > max.value - |suffix| then s[..Min(|s|, Max(max.value - |suffix|, 1))] + suffix else s + suffix
  }

  function ReplaceFirst(s: string, w: string, other: string): string {
    var k := IndexOf(s, w, 0);
    if k < 0 then s else s[..k] + other + s[k + |w|..]
  }

  /** The old table name inside the name replaced by the new one, or the new one appended. */
  function BaseName(name: string, source: string, newTable: string): string {
    if source != "" && IndexOf(name, source, 0) >= 0 then ReplaceFirst(name, source, newTable)
    else name + "_" + newTable
  }

  function Suffix(n: nat): string { if n < 2 then "" else "_" + Decimal(n) }

  /** The names tried: the plain one, then `_2`, `_3` and so on. */
  function Candidate(base: string, max: Option<nat>, n: nat): string { Fit(base, Suffix(n), max) }

  /** A candidate is within the limit exactly when nothing had to be cut or the number left room for a character. */
  lemma CandidateFits(base: string, max: nat, n: nat)
    ensures |Candidate(base, Some(max), n)| <= max <==> |base| + |Suffix(n)| <= max || |Suffix(n)| < max
  {
    hide Suffix;
  }

  predicate Digits(d: string) { forall k :: 0 <= k < |d| ==> IsDigit(d[k]) }

  predicate EndsIn(x: string, d: string) { |x| > |d| && x[|x| - |d|..] == d && x[|x| - |d| - 1] == '_' }

  lemma DigitAt(x: string, d: string, k: int)
    requires EndsIn(x, d) && Digits(d)
    ensures |x| - |d| <= k < |x| ==> IsDigit(x[k])
  {
    if |x| - |d| <= k < |x| {
      assert x[k] == x[|x| - |d|..][k - (|x| - |d|)];
    }
  }

  /** The digits after the last underscore of a text are its own. */
  lemma OneEnding(x: string, a: string, b: string)
    requires EndsIn(x, a) && EndsIn(x, b) && Digits(a) && Digits(b)
    ensures a == b
  {
    if |a| < |b| {
      DigitAt(x, b, |x| - |a| - 1);
    } else if |b| < |a| {
      DigitAt(x, a, |x| - |b| - 1);
    }
  }

  lemma NumberedEnds(head: string, d: string)
    requires Digits(d)
    ensures EndsIn(Lower(head + ("_" + d)), d)
  {
    var c := head + ("_" + d);
    var x := Lower(c);
    forall k | 0 <= k < |d| ensures x[|x| - |d|..][k] == d[k] {
      assert c[|c| - |d| + k] == d[k];
    }
    assert c[|c| - |d| - 1] == '_';
  }

  lemma CandidateEnds(base: string, max: Option<nat>, n: nat)
    requires n >= 2
    ensures EndsIn(Lower(Candidate(base, max, n)), Decimal(n))
  {
    DecimalReadsBack(n);
    var head := FitSplits(base, Suffix(n), max);
    NumberedEnds(head, Decimal(n));
    hide Decimal, DecimalValue, EndsIn, Fit;
  }

  lemma FitSplits(s: string, suffix: string, max: Option<nat>) returns (head: string)
    ensures Fit(s, suffix, max) == head + suffix
  {
    head := if max.Some? && |s| > max.value - |suffix| then s[..Min(|s|, Max(max.value - |suffix|, 1))] else s;
  }

  /** Numbered candidates never meet, even compared without case: the number can be read off the end. */
  lemma CandidatesDiffer(base: string, max: Option<nat>, n: nat, m: nat)
    requires 2 <= n < m
    ensures Lower(Candidate(base, max, n)) != Lower(Candidate(base, max, m))
  {
    CandidateEnds(base, max, n);
    CandidateEnds(base, max, m);
    DecimalReadsBack(n);
    DecimalReadsBack(m);
    hide Decimal, DecimalValue, Candidate, EndsIn;
    if Lower(Candidate(base, max, n)) == Lower(Candidate(base, max, m)) {
      OneEnding(Lower(Candidate(base, max, n)), Decimal(n), Decimal(m));
    }
  }

  /** The numbered candidates up to `m`, lowered. */
  function Tried(base: string, max: Option<nat>, m: nat): set<string> {
    if m < 2 then {} else Tried(base, max, m - 1) + {Lower(Candidate(base, max, m))}
  }

  lemma {:induction false} TriedCount(base: string, max: Option<nat>, m: nat)
    ensures |Tried(base, max, m)| == (if m < 2 then 0 else m - 1)
    ensures forall x :: x in Tried(base, max, m) ==> exists k :: 2 <= k <= m && x == Lower(Candidate(base, max, k))
  {
    hide Candidate;
    if m >= 2 {
      TriedCount(base, max, m - 1);
      var x := Lower(Candidate(base, max, m));
      if x in Tried(base, max, m - 1) {
        var k :| 2 <= k <= m - 1 && x == Lower(Candidate(base, max, k));
        CandidatesDiffer(base, max, k, m);
      }
    }
  }

  lemma TriedStep(base: string, max: Option<nat>, m: nat)
    ensures Tried(base, max, m) == if m < 2 then {} else Tried(base, max, m - 1) + {Lower(Candidate(base, max, m))}
  {
  }

  lemma SubsetCount(a: set<string>, b: set<string>)
    requires a <= b
    ensures |a| <= |b|
  {
    assert b == a + (b - a) && |b| == |a| + |b - a|;
  }

  class UsedNames {
    var names: set<string>

    constructor (names: set<string>)
      ensures this.names == names
    {
      this.names := names;
    }

    /** The first candidate no used name equals when case is ignored; it is used from then on. */
    method CloneObjectName(d: Driver, name: string, source: string, newTable: string) returns (r: string, ghost n: nat)
      modifies this
      ensures r == Candidate(BaseName(name, source, newTable), MaxIdentLength(d), n) && 1 <= n <= |old(names)| + 2
      ensures Lower(r) !in old(names) && names == old(names) + {Lower(r)}
      ensures forall k :: 1 <= k < n ==>
              Lower(Candidate(BaseName(name, source, newTable), MaxIdentLength(d), k)) in old(names)
    {
      hide Fit, BaseName, Lower, Tried, Decimal;
      var max := MaxIdentLength(d);
      var base := BaseName(name, source, newTable);
      r, n := Fit(base, "", max), 1;
      TriedStep(base, max, 0);
      var next := 2;
      while Lower(r) in names
        invariant names == old(names) && n == next - 1 && 2 <= next && r == Candidate(base, max, n)
        invariant Tried(base, max, next - 2) <= names && next <= |names| + 3
        invariant forall k :: 1 <= k < n ==> Lower(Candidate(base, max, k)) in names
        decreases |names| + 3 - next
      {
        TriedStep(base, max, next - 1);
        TriedCount(base, max, next - 1);
        SubsetCount(Tried(base, max, next - 1), names);
        r := Fit(base, "_" + Decimal(next), max);
        n := next;
        next := next + 1;
      }
      TriedCount(base, max, next - 2);
      SubsetCount(Tried(base, max, next - 2), names);
      names := names + {Lower(r)};
    }
  }

  /**
   * The numbers tried stay short for any set of used names of less than 10^61 elements, so the name is within the
   * limit.
   */
  lemma NameFits(d: Driver, base: string, used: nat, n: nat)
    requires 1 <= n <= used + 2 && used + 2 < Power10(61)
    ensures MaxIdentLength(d).Some? ==> |Candidate(base, MaxIdentLength(d), n)| <= MaxIdentLength(d).value
  {
    hide Power10;
    DecimalIsShort(n, 61);
    hide Decimal, Fit;
    if MaxIdentLength(d).Some? {
      CandidateFits(base, MaxIdentLength(d).value, n);
    }
  }

  // --- the name told in words ---

  /** The old table name replaced where it first stands in the name, or the new one appended. */
  ghost predicate IsBase(base: string, name: string, source: string, newTable: string) {
    if source != "" && exists k: nat :: k <= |name| && source <= name[k..] then
      exists k: nat :: k <= |name| && source <= name[k..] && (forall j :: 0 <= j < k ==> !(source <= name[j..])) &&
        base == name[..k] + newTable + name[k + |source|..]
    else base == name + "_" + newTable
  }

  /** As much of the base as fits before the suffix, but never less than a character. */
  predicate IsCut(r: string, base: string, suffix: string, limit: Option<nat>) {
    if limit.None? || |base| + |suffix| <= limit.value then r == base + suffix
    else
      |r| >= |suffix| && r[|r| - |suffix|..] == suffix && r[..|r| - |suffix|] <= base &&
      |r| == (if |suffix| < limit.value then limit.value else Min(|base|, 1) + |suffix|)
  }

  predicate IsNumber(suffix: string, n: nat) {
    if n == 1 then suffix == ""
    else |suffix| > 1 && suffix[0] == '_' && Digits(suffix[1..]) && DecimalValue(suffix[1..]) == n
  }

  lemma BaseIsTold(name: string, source: string, newTable: string)
    ensures IsBase(BaseName(name, source, newTable), name, source, newTable)
  {
    hide MatchAt;
    if source != "" {
      var k := IndexOf(name, source, 0);
      forall j: nat | j <= |name| && source <= name[j..] ensures 0 <= k <= j {
        MatchIsPrefix(name, source, j);
        IndexOfIsFirst(name, source, 0, j);
      }
      if k >= 0 {
        MatchedWithin(name, source, k);
        MatchIsPrefix(name, source, k);
      }
    }
  }

  lemma MatchedWithin(s: string, w: string, k: nat)
    requires MatchAt(s, w, k)
    ensures k + |w| <= |s|
  {
  }

  lemma CutIsTold(base: string, suffix: string, limit: Option<nat>)
    ensures IsCut(Fit(base, suffix, limit), base, suffix, limit)
  {
  }

  /**
   * A clone's name for every driver and number: the base, cut to 63 or 64 characters where the driver has such a limit,
   * and from the second try on the number of the try.
   */
  lemma NameIsTold(d: Driver, name: string, source: string, newTable: string, n: nat)
    returns (base: string, suffix: string)
    requires n >= 1
    ensures IsBase(base, name, source, newTable) && IsNumber(suffix, n)
    ensures var limit := match d case Postgres => Some(63) case MySql => Some(64) case Sqlite => None;
            IsCut(Candidate(BaseName(name, source, newTable), MaxIdentLength(d), n), base, suffix, limit)
  {
    base, suffix := BaseName(name, source, newTable), Suffix(n);
    hide BaseName, IsBase, Fit, IsCut;
    BaseIsTold(name, source, newTable);
    DecimalReadsBack(n);
    hide Decimal, DecimalValue;
    if n >= 2 {
      assert suffix[1..] == Decimal(n);
    }
    CutIsTold(base, suffix, MaxIdentLength(d));
  }
}
