/** The scanner that blanks a copy of the text in place, and the small cache in front of it. */
module MaskScanner {
  import opened Text
  import opened MaskSpec

  method ScanWhile(sql: string, from: nat, p: char -> bool) returns (j: nat)
    requires from <= |sql|
    ensures j == RunEnd(sql, from, p)
  {
    j := from;
    while j < |sql| && p(sql[j])
      invariant from <= j <= |sql| && RunEnd(sql, j, p) == RunEnd(sql, from, p)
    {
      j := j + 1;
    }
  }

  method ScanBlock(sql: string, from: nat) returns (j: nat)
    requires from <= |sql|
    ensures var k := IndexOf(sql, "*/", from); j == if k >= 0 then k + 2 else |sql|
  {
    j := from;
    while j < |sql| && !(sql[j] == '*' && Is(sql, j + 1, '/'))
      invariant from <= j <= |sql| && IndexOf(sql, "*/", j) == IndexOf(sql, "*/", from)
    {
      assert !MatchAt(sql, "*/", j) by {
        assert "*/"[0] == '*' && "*/"[1] == '/';
      }
      j := j + 1;
    }
    if j < |sql| {
      assert MatchAt(sql, "*/", j);
    }
    j := if j + 2 <= |sql| then j + 2 else |sql|;
  }

  method ScanQuote(sql: string, from: nat, quote: char, escapes: bool) returns (j: nat, closed: bool)
    requires from <= |sql|
    ensures (j, closed) == QuoteEnd(sql, from, quote, escapes)
  {
    j, closed := from, false;
    while j < |sql|
      invariant from <= j <= |sql| && QuoteEnd(sql, j, quote, escapes) == QuoteEnd(sql, from, quote, escapes)
    {
      if sql[j] == quote {
        if Is(sql, j + 1, quote) {
          j := j + 2;
          continue;
        }
        return j + 1, true;
      }
      if escapes && sql[j] == '\\' && j + 1 < |sql| {
        j := j + 2;
        continue;
      }
      j := j + 1;
    }
  }

  /** Blanks `[start, end)` of `out`, newlines excepted. */
  method Blank(out: array<char>, start: nat, end: nat)
    requires start <= end <= out.Length
    modifies out
    ensures forall k :: 0 <= k < out.Length ==>
              out[k] == if start <= k < end && old(out[k]) != '\n' then ' ' else old(out[k])
  {
    for k := start to end
      invariant forall x :: 0 <= x < out.Length ==>
                  out[x] == if start <= x < k && old(out[x]) != '\n' then ' ' else old(out[x])
    {
      if out[k] != '\n' {
        out[k] := ' ';
      }
    }
  }

  /** What the tests of a turn say about the characters they test. */
  lemma FirstChars(s: string, r: Rules, i: nat)
    requires i < |s|
    ensures DashComment(s, r, i) ==> i + 2 <= |s|
    ensures DollarMayOpen(s, i) ==> s[i] == '$'
    ensures BracketMayOpen(s, r, i) ==> s[i] == '['
    ensures IsQuote(s[i]) ==> s[i] != '$' && s[i] != '['
  {
  }

  /** One turn of the scan: which part to blank and where to go on. */
  method ScanToken(sql: string, r: Rules, i: nat) returns (lo: nat, hi: nat, next: nat)
    requires i < |sql|
    ensures var t := TokenAt(sql, r, i); lo == t.lo && hi == t.hi && next == t.next
  {
    hide RunEnd, IndexOf, QuoteEnd, DollarTag, BackslashEscapes, KeepsContent, IsWord, MatchAt, DashComment;
    hide HashIsComment, IsDigit, NotNewline, OpeningFits, DollarMayOpen, BracketMayOpen, IsQuote;
    FirstChars(sql, r, i);
    if DashComment(sql, r, i) {
      var j := ScanWhile(sql, i + 2, NotNewline);
      return i, j, j;
    }
    if sql[i] == '#' && HashIsComment(r.driver) {
      var j := ScanWhile(sql, i + 1, NotNewline);
      return i, j, j;
    }
    if sql[i] == '/' && Is(sql, i + 1, '*') && Is(sql, i + 2, '!') {
      var j := ScanWhile(sql, i + 3, IsDigit);
      return i, j, j;
    }
    if sql[i] == '/' && Is(sql, i + 1, '*') {
      var j := ScanBlock(sql, i + 2);
      return i, j, j;
    }
    if DollarMayOpen(sql, i) {
      var tag := DollarTag(sql, i);
      if tag != "" {
        var close := IndexOf(sql, tag, i + |tag|);
        if close != -1 {
          return i + |tag|, close, close + |tag|;
        }
      }
    }
    if BracketMayOpen(sql, r, i) {
      var close := IndexOf(sql, "]", i + 1);
      if close != -1 {
        return i + 1, if r.keepIdent then i + 1 else close, close + 1;
      }
    }
    if IsQuote(sql[i]) {
      var j, closed := ScanQuote(sql, i + 1, sql[i], BackslashEscapes(sql, r, i));
      return i + 1, if KeepsContent(r, sql[i]) then i + 1 else if closed then j - 1 else j, j;
    }
    return i, i, i + 1;
  }

  /** The uncached scan computes the mask. */
  method MaskUncached(sql: string, r: Rules) returns (masked: string)
    ensures masked == Mask(sql, r)
  {
    hide TokenAt;
    var out := new char[|sql|](k requires 0 <= k < |sql| => sql[k]);
    var i := 0;
    while i < |sql|
      invariant i <= |sql| && Reach(sql, r, 0, i)
      invariant forall k :: 0 <= k < i ==> out[k] == MaskedChar(sql, r, k)
      invariant forall k :: i <= k < |sql| ==> out[k] == sql[k]
    {
      var lo, hi, next := ScanToken(sql, r, i);
      Blank(out, lo, hi);
      forall k | i <= k < next ensures out[k] == MaskedChar(sql, r, k) {
        BlankedFromReached(sql, r, 0, i, k);
      }
      ReachTrans(sql, r, 0, i, next);
      i := next;
    }
    masked := out[..];
  }

  // --- the cache ---

  const CACHE_ENTRIES := 8
  const CACHE_MAX_SQL_CHARS := 256 * 1024

  function DriverName(d: Driver): string {
    match d case MySql => "mysql" case Postgres => "postgres" case Sqlite => "sqlite" case Unknown => ""
  }

  function Flag(on: bool, name: string): string { if on then name else "" }

  function CacheKey(r: Rules, sql: string): string {
    Flag(r.keepIdent, "ident\U{0001}") + (Flag(r.keepBrackets, "brackets\U{0001}") +
    (Flag(r.dashSpace, "dash\U{0001}") + (DriverName(r.driver) + ("\0" + sql))))
  }

  lemma PeelFlag(on: bool, on': bool, name: string, rest: string, rest': string)
    requires rest != "" && rest' != "" && name != "" && rest[0] != name[0] && rest'[0] != name[0]
    requires Flag(on, name) + rest == Flag(on', name) + rest'
    ensures on == on' && rest == rest'
  {
    var k, k' := Flag(on, name) + rest, Flag(on', name) + rest';
    assert k[0] == (if on then name[0] else rest[0]) && k'[0] == (if on' then name[0] else rest'[0]);
    assert rest == k[|Flag(on, name)|..] && rest' == k'[|Flag(on', name)|..];
  }

  lemma PeelDriver(d: Driver, d': Driver, sql: string, sql': string)
    requires DriverName(d) + ("\0" + sql) == DriverName(d') + ("\0" + sql')
    ensures d == d' && sql == sql'
  {
    var k, k' := DriverName(d) + ("\0" + sql), DriverName(d') + ("\0" + sql');
    assert k[0] == if d == Unknown then '\0' else DriverName(d)[0];
    assert k'[0] == if d' == Unknown then '\0' else DriverName(d')[0];
    assert d == d';
    assert sql == k[|DriverName(d)| + 1..] && sql' == k'[|DriverName(d)| + 1..];
  }

  /** A flag and what follows it begin with the flag's first letter or with a letter of what follows. */
  lemma FlagFirst(on: bool, name: string, rest: string, letters: set<char>)
    requires name != "" && rest != "" && rest[0] in letters
    ensures var s := Flag(on, name) + rest; s != "" && s[0] in letters + {name[0]}
  {
    assert "" + rest == rest;
  }

  lemma DriverFirst(d: Driver, sql: string)
    ensures var s := DriverName(d) + ("\0" + sql); s != "" && s[0] in {'m', 'p', 's', '\0'}
  {
  }

  /** Two requests share a key only when they are the same request. */
  lemma CacheKeyIsInjective(r: Rules, sql: string, r': Rules, sql': string)
    requires CacheKey(r, sql) == CacheKey(r', sql')
    ensures r == r' && sql == sql'
  {
    hide Flag, DriverName;
    var d, d' := DriverName(r.driver) + ("\0" + sql), DriverName(r'.driver) + ("\0" + sql');
    var c, c' := Flag(r.dashSpace, "dash\U{0001}") + d, Flag(r'.dashSpace, "dash\U{0001}") + d';
    var b, b' := Flag(r.keepBrackets, "brackets\U{0001}") + c, Flag(r'.keepBrackets, "brackets\U{0001}") + c';
    var afterDriver, afterDash := {'m', 'p', 's', '\0'}, {'m', 'p', 's', '\0'} + {'d'};
    DriverFirst(r.driver, sql);
    DriverFirst(r'.driver, sql');
    FlagFirst(r.dashSpace, "dash\U{0001}", d, afterDriver);
    FlagFirst(r'.dashSpace, "dash\U{0001}", d', afterDriver);
    FlagFirst(r.keepBrackets, "brackets\U{0001}", c, afterDash);
    FlagFirst(r'.keepBrackets, "brackets\U{0001}", c', afterDash);
    PeelFlag(r.keepIdent, r'.keepIdent, "ident\U{0001}", b, b');
    PeelFlag(r.keepBrackets, r'.keepBrackets, "brackets\U{0001}", c, c');
    PeelFlag(r.dashSpace, r'.dashSpace, "dash\U{0001}", d, d');
    PeelDriver(r.driver, r'.driver, sql, sql');
  }

  datatype Entry = Entry(key: string, masked: string)

  function Lookup(es: seq<Entry>, key: string): (i: nat)
    ensures i <= |es| && (i < |es| ==> es[i].key == key)
    ensures i == |es| ==> forall j :: 0 <= j < |es| ==> es[j].key != key
  {
    if es == [] then 0
    else if es[0].key == key then 0
    else 1 + Lookup(es[1..], key)
  }

  /** The cache after a request: a hit changes nothing, a miss at the limit drops the oldest entry. */
  function CacheAfter(es: seq<Entry>, e: Entry): seq<Entry> {
    if Lookup(es, e.key) < |es| then es
    else (if |es| >= CACHE_ENTRIES then es[1..] else es) + [e]
  }

  ghost predicate HoldsMask(e: Entry) {
    exists r, sql :: e.key == CacheKey(r, sql) && e.masked == Mask(sql, r)
  }

  ghost predicate CacheValid(es: seq<Entry>) {
    && |es| <= CACHE_ENTRIES
    && (forall i, j :: 0 <= i < j < |es| ==> es[i].key != es[j].key)
    && (forall i :: 0 <= i < |es| ==> HoldsMask(es[i]))
  }

  /** Every request keeps the cache within its limit, without duplicate keys and truthful. */
  lemma CacheStaysValid(es: seq<Entry>, r: Rules, sql: string)
    requires CacheValid(es)
    ensures CacheValid(CacheAfter(es, Entry(CacheKey(r, sql), Mask(sql, r))))
  {
    hide Mask, CacheKey, HoldsMask, CacheValid, Lookup;
    var e := Entry(CacheKey(r, sql), Mask(sql, r));
    assert HoldsMask(e) by { OwnMaskIsHeld(r, sql); }
    if Lookup(es, e.key) == |es| {
      EntryIsAdded(es, e);
    }
  }

  lemma OwnMaskIsHeld(r: Rules, sql: string)
    ensures HoldsMask(Entry(CacheKey(r, sql), Mask(sql, r)))
  {
    hide Mask, CacheKey;
  }

  lemma EntryIsAdded(es: seq<Entry>, e: Entry)
    requires CacheValid(es) && HoldsMask(e) && forall j :: 0 <= j < |es| ==> es[j].key != e.key
    ensures CacheValid((if |es| >= CACHE_ENTRIES then es[1..] else es) + [e])
  {
    hide HoldsMask;
  }

  lemma HitIsOwnMask(e: Entry, r: Rules, sql: string)
    requires HoldsMask(e) && e.key == CacheKey(r, sql)
    ensures e.masked == Mask(sql, r)
  {
    var r', sql' :| e.key == CacheKey(r', sql') && e.masked == Mask(sql', r');
    CacheKeyIsInjective(r, sql, r', sql');
  }

  class MaskCache {
    var entries: seq<Entry>

    ghost predicate Valid()
      reads this
    {
      CacheValid(entries)
    }

    constructor ()
      ensures Valid() && entries == []
    {
      entries := [];
    }

    /** The cached scan answers with the mask of its own request, whatever was asked before. */
    method MaskLiterals(sql: string, r: Rules, useCache: bool) returns (masked: string)
      requires Valid()
      modifies this
      ensures Valid() && masked == Mask(sql, r)
      ensures entries == if useCache && |sql| <= CACHE_MAX_SQL_CHARS
                         then CacheAfter(old(entries), Entry(CacheKey(r, sql), masked)) else old(entries)
    {
      hide Mask, CacheKey;
      if !useCache || |sql| > CACHE_MAX_SQL_CHARS {
        masked := MaskUncached(sql, r);
        return;
      }
      var key := CacheKey(r, sql);
      var hit := Lookup(entries, key);
      if hit < |entries| {
        masked := entries[hit].masked;
        HitIsOwnMask(entries[hit], r, sql);
        return;
      }
      masked := MaskUncached(sql, r);
      CacheStaysValid(entries, r, sql);
      if |entries| >= CACHE_ENTRIES {
        entries := entries[1..];
      }
      entries := entries + [Entry(key, masked)];
    }
  }
}
