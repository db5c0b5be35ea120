/** Which entries of a column list are foreign keys to the new table, told from their words alone. */
module CloneForeignKeys {
  import opened Common
  import opened Text
  import opened CloneTokens
  import opened CloneSegments

  /** The tokens without white space and comments. */
  function Sig(ts: seq<Token>): seq<Token> {
    if ts == [] then [] else (if ts[0].kind in {Ws, Comment} then [] else [ts[0]]) + Sig(ts[1..])
  }

  /** The token is the word `w`, in capitals or not. */
  predicate Reads(t: Token, w: string) { Lower(t.text) == w }

  predicate IsForeign(t: Token) { Reads(t, "foreign") }

  predicate IsConstraint(t: Token) { Reads(t, "constraint") }

  predicate IsDot(t: Token) { t.kind == Punct && t.text == "." }

  predicate IsPart(t: Token) { t.kind in {Word, QIdent} }

  function PartName(t: Token): string { if t.kind == QIdent && t.value.Some? then t.value.value else t.text }

  /** `foreign` begins the entry, behind `constraint` and a name if it has one. */
  predicate BeginsForeign(sig: seq<Token>) {
    || (|sig| > 0 && IsForeign(sig[0]))
    || (|sig| > 2 && IsConstraint(sig[0]) && IsForeign(sig[2]))
  }

  predicate IsReferences(t: Token) { t.kind == Word && Reads(t, "references") }

  /** `n` more parts of a dotted name, and no further one. */
  ghost predicate DottedParts(sig: seq<Token>, n: nat) {
    && 2 * n <= |sig|
    && (forall j :: 0 <= j < n ==> IsDot(sig[2 * j]) && IsPart(sig[2 * j + 1]))
    && !(2 * n + 1 < |sig| && IsDot(sig[2 * n]) && IsPart(sig[2 * n + 1]))
  }

  /** A name, dotted or not, begins here, and its last part is `name`. */
  ghost predicate BeginsName(sig: seq<Token>, name: string) {
    sig != [] && IsPart(sig[0]) &&
    exists n: nat :: DottedParts(sig[1..], n) && PartName(sig[2 * n]) == name
  }

  ghost predicate FirstReference(sig: seq<Token>, r: nat) {
    r < |sig| && IsReferences(sig[r]) && forall k :: 0 <= k < r ==> !IsReferences(sig[k])
  }

  /** The name behind the first `references` ends in `name`. */
  ghost predicate RefersTo(sig: seq<Token>, name: string) {
    exists r: nat :: FirstReference(sig, r) && BeginsName(sig[r + 1..], name)
  }

  // --- words ---

  lemma CapitalsAre(s: string, upper: string, lower: string)
    requires |upper| == |lower| && forall k :: 0 <= k < |upper| ==> 'A' <= upper[k] <= 'Z'
    requires forall k :: 0 <= k < |upper| ==> LowerChar(upper[k]) == lower[k]
    ensures Upper(s) == upper <==> Lower(s) == lower
  {
    if Lower(s) == lower {
      forall k | 0 <= k < |s| ensures Upper(s)[k] == upper[k] {
        assert Lower(s)[k] == lower[k];
      }
      assert Upper(s) == upper;
    }
    if Upper(s) == upper {
      forall k | 0 <= k < |s| ensures Lower(s)[k] == lower[k] {
        assert Upper(s)[k] == upper[k];
      }
      assert Lower(s) == lower;
    }
  }

  lemma ThreeWords(s: string)
    ensures Upper(s) == "CONSTRAINT" <==> Lower(s) == "constraint"
    ensures Upper(s) == "FOREIGN" <==> Lower(s) == "foreign"
    ensures Upper(s) == "REFERENCES" <==> Lower(s) == "references"
  {
    hide Upper, Lower;
    CapitalsAre(s, "CONSTRAINT", "constraint");
    CapitalsAre(s, "FOREIGN", "foreign");
    CapitalsAre(s, "REFERENCES", "references");
  }

  // --- positions among all tokens and among the significant ones ---

  lemma {:induction false} SigSplits(a: seq<Token>, b: seq<Token>)
    ensures Sig(a + b) == Sig(a) + Sig(b)
  {
    if a == [] {
      assert a + b == b;
    } else {
      assert (a + b)[1..] == a[1..] + b;
      SigSplits(a[1..], b);
    }
  }

  lemma {:induction false} SigFrom(ts: seq<Token>)
    ensures forall t :: t in Sig(ts) ==> t in ts
    ensures forall t :: t in ts && t.kind !in {Ws, Comment} ==> t in Sig(ts)
  {
    if ts != [] {
      SigFrom(ts[1..]);
      assert forall t :: t in ts <==> t == ts[0] || t in ts[1..];
    }
  }

  lemma {:induction false} NextIsFirst(ts: seq<Token>, i: nat)
    requires i <= |ts|
    ensures var p := NextSig(ts, i);
            if p < 0 then Sig(ts[i..]) == [] else Sig(ts[i..]) == [ts[p]] + Sig(ts[p + 1..])
    decreases |ts| - i
  {
    if i < |ts| {
      assert ts[i..][0] == ts[i] && ts[i..][1..] == ts[i + 1..];
      NextIsFirst(ts, i + 1);
    }
  }

  /** The last part of a name whose later parts `sig` begins with. */
  function LastOf(sig: seq<Token>, last: string): string {
    if |sig| >= 2 && IsDot(sig[0]) && IsPart(sig[1]) then LastOf(sig[2..], PartName(sig[1])) else last
  }

  lemma LastOfStep(sig: seq<Token>, dot: Token, part: Token, rest: seq<Token>, last: string)
    requires sig == [dot] + ([part] + rest)
    ensures LastOf(sig, last) == if IsDot(dot) && IsPart(part) then LastOf(rest, PartName(part)) else last
  {
    hide IsDot, IsPart, PartName;
    assert sig[2..] == rest;
  }

  lemma LastOfShort(sig: seq<Token>, last: string)
    requires |sig| < 2 || !IsDot(sig[0])
    ensures LastOf(sig, last) == last
  {
  }

  lemma {:induction false} LastPartIsLast(ts: seq<Token>, end: nat, last: string)
    requires end <= |ts|
    ensures LastPart(ts, end, last) == LastOf(Sig(ts[end..]), last)
    decreases |ts| - end
  {
    hide NextSig, Sig, LastOf;
    NextIsFirst(ts, end);
    var sig, dot := Sig(ts[end..]), NextSig(ts, end);
    if dot < 0 || !IsDot(ts[dot]) {
      LastOfShort(sig, last);
    } else {
      NextIsFirst(ts, dot + 1);
      var part := NextSig(ts, dot + 1);
      if part < 0 {
        LastOfShort(sig, last);
      } else {
        LastOfStep(sig, ts[dot], ts[part], Sig(ts[part + 1..]), last);
        if IsPart(ts[part]) {
          LastPartIsLast(ts, part + 1, PartName(ts[part]));
        }
      }
    }
  }

  lemma {:induction false} LastIsDotted(sig: seq<Token>, last: string) returns (n: nat)
    ensures DottedParts(sig, n) && LastOf(sig, last) == if n == 0 then last else PartName(sig[2 * n - 1])
  {
    n := 0;
    if |sig| >= 2 && IsDot(sig[0]) && IsPart(sig[1]) {
      hide IsDot, IsPart, PartName;
      var m := LastIsDotted(sig[2..], PartName(sig[1]));
      n := m + 1;
      forall j | 0 <= j < n ensures IsDot(sig[2 * j]) && IsPart(sig[2 * j + 1]) {
        assert j > 0 ==> IsDot(sig[2..][2 * (j - 1)]) && IsPart(sig[2..][2 * (j - 1) + 1]);
      }
      assert m > 0 ==> sig[2..][2 * m - 1] == sig[2 * n - 1];
    }
  }

  lemma {:induction false} OneDotted(sig: seq<Token>, n: nat, m: nat)
    requires DottedParts(sig, n) && DottedParts(sig, m)
    ensures n == m
  {
  }

  /** A name read behind a token is the dotted name that follows it. */
  lemma ReadNameIsTold(ts: seq<Token>, from: nat, name: string)
    requires from <= |ts|
    ensures ReadName(ts, from) == Some(name) <==> BeginsName(Sig(ts[from..]), name)
  {
    hide Sig, NextSig, LastPart, DottedParts, LastOf;
    var sig := Sig(ts[from..]);
    NextIsFirst(ts, from);
    var start := NextSig(ts, from);
    if start >= 0 && IsPart(sig[0]) {
      var rest := Sig(ts[start + 1..]);
      assert sig[1..] == rest;
      LastPartIsLast(ts, start + 1, NameValue(ts[start]));
      var m := LastIsDotted(rest, PartName(sig[0]));
      DottedWithin(rest, m);
      assert m > 0 ==> rest[2 * m - 1] == sig[2 * m];
      forall n: nat | DottedParts(rest, n) ensures n == m {
        OneDotted(rest, n, m);
      }
    }
  }

  lemma DottedWithin(sig: seq<Token>, n: nat)
    requires DottedParts(sig, n)
    ensures 2 * n <= |sig|
  {
  }

  /** The first `references` among all tokens is the first among the significant ones. */
  lemma FirstIsFirst(seg: seq<Token>)
    ensures var ref := FindWord(seg, "REFERENCES", 0);
            if ref < 0 then forall r: nat :: !FirstReference(Sig(seg), r)
            else
              && FirstReference(Sig(seg), |Sig(seg[..ref])|)
              && Sig(seg)[|Sig(seg[..ref])| + 1..] == Sig(seg[ref + 1..])
  {
    hide Upper, Lower;
    var ref := FindWord(seg, "REFERENCES", 0);
    FoundWord(seg, 0);
    hide FindWord;
    if ref < 0 {
      SigFrom(seg);
      hide Sig;
      forall r: nat | r < |Sig(seg)| ensures !IsReferences(Sig(seg)[r]) {
        assert Sig(seg)[r] in seg;
      }
    } else {
      var before, after := seg[..ref], seg[ref + 1..];
      assert seg == before + ([seg[ref]] + after);
      SigSplits(before, [seg[ref]] + after);
      assert Sig([seg[ref]] + after) == [seg[ref]] + Sig(after) by {
        assert ([seg[ref]] + after)[1..] == after;
      }
      SigFrom(before);
      hide Sig;
      forall k | 0 <= k < |Sig(before)| ensures !IsReferences(Sig(seg)[k]) {
        assert Sig(before)[k] in before;
      }
    }
  }

  lemma {:induction false} FoundWord(seg: seq<Token>, from: nat)
    ensures var ref := FindWord(seg, "REFERENCES", from);
            if ref < 0 then forall k :: from <= k < |seg| ==> !IsReferences(seg[k])
            else IsReferences(seg[ref]) && forall k :: from <= k < ref ==> !IsReferences(seg[k])
    decreases |seg| - from
  {
    hide Upper, Lower;
    if from < |seg| {
      ThreeWords(seg[from].text);
      FoundWord(seg, from + 1);
    }
  }

  lemma BeginningWords(t: Token)
    ensures Upper(t.text) == "CONSTRAINT" <==> IsConstraint(t)
    ensures Upper(t.text) == "FOREIGN" <==> IsForeign(t)
    ensures !(IsConstraint(t) && IsForeign(t))
  {
    hide Upper, Lower;
    ThreeWords(t.text);
    assert "constraint"[0] != "foreign"[0];
  }

  /** The part of the test that looks at how the entry begins. */
  predicate KeyBegins(seg: seq<Token>) {
    var first := NextSig(seg, 0);
    first >= 0 &&
    var key :=
      if Upper(seg[first].text) != "CONSTRAINT" then first
      else (var n := NextSig(seg, first + 1); if n < 0 then -1 else NextSig(seg, n + 1));
    key >= 0 && Upper(seg[key].text) == "FOREIGN"
  }

  /** The same test by predicates. */
  predicate Begins(seg: seq<Token>) {
    var first := NextSig(seg, 0);
    first >= 0 &&
    var key :=
      if !IsConstraint(seg[first]) then first
      else (var n := NextSig(seg, first + 1); if n < 0 then -1 else NextSig(seg, n + 1));
    key >= 0 && IsForeign(seg[key])
  }

  lemma KeyBeginsIsBegins(seg: seq<Token>)
    ensures KeyBegins(seg) <==> Begins(seg)
  {
    hide Upper, Lower, NextSig, IsForeign, IsConstraint;
    forall t: Token
      ensures Upper(t.text) == "CONSTRAINT" <==> IsConstraint(t)
      ensures Upper(t.text) == "FOREIGN" <==> IsForeign(t)
    {
      BeginningWords(t);
    }
  }

  /** `sig` is nothing, or `t` and then `rest`. */
  ghost predicate Opens(sig: seq<Token>, there: bool, t: Token, rest: seq<Token>) {
    sig == if there then [t] + rest else []
  }

  lemma BeginsForeignOf(sig: seq<Token>, t: Token, more: seq<Token>)
    requires Opens(sig, true, t, more) && !(IsConstraint(t) && IsForeign(t))
    ensures BeginsForeign(sig) <==>
            if IsConstraint(t) then |more| > 1 && IsForeign(more[1]) else IsForeign(t)
  {
    hide IsForeign, IsConstraint;
  }

  lemma SecondIsForeign(more: seq<Token>, n: Token, last: seq<Token>, there: bool, key: Token, rest: seq<Token>)
    requires Opens(more, true, n, last) && Opens(last, there, key, rest)
    ensures |more| > 1 && IsForeign(more[1]) <==> there && IsForeign(key)
  {
    hide IsForeign;
  }

  lemma NextOpens(seg: seq<Token>, i: nat)
    requires i <= |seg| && seg != []
    ensures var p := NextSig(seg, i);
            Opens(Sig(seg[i..]), p >= 0, seg[if p < 0 then 0 else p], if p < 0 then [] else Sig(seg[p + 1..]))
  {
    hide NextSig, Sig;
    NextIsFirst(seg, i);
  }

  lemma BeginsUnfolds(seg: seq<Token>)
    ensures var first := NextSig(seg, 0);
            if first < 0 then !Begins(seg)
            else if !IsConstraint(seg[first]) then Begins(seg) <==> IsForeign(seg[first])
            else
              var n := NextSig(seg, first + 1);
              Begins(seg) <==> n >= 0 && var key := NextSig(seg, n + 1); key >= 0 && IsForeign(seg[key])
  {
    hide NextSig, IsForeign, IsConstraint;
  }

  /** Behind `constraint`: the second token decides. */
  lemma SecondIsTold(seg: seq<Token>, i: nat)
    requires i <= |seg|
    ensures var more, n := Sig(seg[i..]), NextSig(seg, i);
            (|more| > 1 && IsForeign(more[1])) <==>
            n >= 0 && var key := NextSig(seg, n + 1); key >= 0 && IsForeign(seg[key])
  {
    hide Sig, NextSig, IsForeign, Opens;
    var n := NextSig(seg, i);
    if n < 0 {
      NextIsFirst(seg, i);
    } else {
      NextOpens(seg, i);
      NextOpens(seg, n + 1);
      var key := NextSig(seg, n + 1);
      SecondIsForeign(Sig(seg[i..]), seg[n], Sig(seg[n + 1..]), key >= 0, seg[if key < 0 then 0 else key],
                      if key < 0 then [] else Sig(seg[key + 1..]));
    }
  }

  lemma KeyBeginsIsTold(seg: seq<Token>)
    ensures KeyBegins(seg) <==> BeginsForeign(Sig(seg))
  {
    hide Sig, NextSig, IsForeign, IsConstraint, KeyBegins, Begins, Opens, BeginsForeign;
    KeyBeginsIsBegins(seg);
    BeginsUnfolds(seg);
    var first := NextSig(seg, 0);
    if first < 0 {
      NothingBegins(seg);
    } else {
      BeginningWords(seg[first]);
      FirstOpens(seg);
      BeginsForeignOf(Sig(seg), seg[first], Sig(seg[first + 1..]));
      SecondIsTold(seg, first + 1);
    }
  }

  lemma FirstOpens(seg: seq<Token>)
    requires NextSig(seg, 0) >= 0
    ensures Opens(Sig(seg), true, seg[NextSig(seg, 0)], Sig(seg[NextSig(seg, 0) + 1..]))
  {
    hide Sig, NextSig;
    NextIsFirst(seg, 0);
    assert seg[0..] == seg;
  }

  lemma NothingBegins(seg: seq<Token>)
    requires NextSig(seg, 0) < 0
    ensures !BeginsForeign(Sig(seg))
  {
    hide NextSig, Sig, IsForeign, IsConstraint;
    NextIsFirst(seg, 0);
    assert seg[0..] == seg;
  }

  /**
   * An entry of the column list is detached exactly when it reads `[constraint name] foreign … references table`, in
   * capitals or not, with any white space and comments between, and the last part of the table's name is the new table.
   */
  lemma SelfForeignKeyIsTold(seg: seq<Token>, newName: string)
    ensures IsSelfForeignKey(seg, newName) <==> BeginsForeign(Sig(seg)) && RefersTo(Sig(seg), newName)
  {
    hide Sig, NextSig, Upper, Lower, ReadName, FindWord, FirstReference, BeginsName, BeginsForeign;
    KeyBeginsIsTold(seg);
    FirstIsFirst(seg);
    var ref := FindWord(seg, "REFERENCES", 0);
    if ref >= 0 {
      var r, sig := |Sig(seg[..ref])|, Sig(seg);
      ReadNameIsTold(seg, ref + 1, newName);
      forall k: nat | FirstReference(sig, k) ensures k == r {
        OneFirst(sig, k, r);
      }
    }
  }

  lemma OneFirst(sig: seq<Token>, k: nat, r: nat)
    requires FirstReference(sig, k) && FirstReference(sig, r)
    ensures k == r
  {
  }

  // --- what is added afterwards ---

  lemma TrimIsTold(s: string) returns (lead: string, text: string, tail: string)
    ensures s == lead + text + tail && text == Trim(s)
    ensures (forall c :: c in lead + tail ==> IsSpace(c))
    ensures text != "" ==> !IsSpace(text[0]) && !IsSpace(text[|text| - 1])
  {
    hide IsSpace, TrimStartAt, TrimEndAt;
    var a, e := TrimStartAt(s), TrimEndAt(s);
    TrimBounds(s);
    if a == |s| {
      lead, text, tail := s, "", "";
    } else {
      lead, text, tail := s[..a], s[a..e], s[e..];
    }
    hide Trim;
    forall c | c in lead + tail ensures IsSpace(c) {
      if c in lead {
        var k :| 0 <= k < |lead| && lead[k] == c;
        assert s[k] == c;
      } else {
        var k :| 0 <= k < |tail| && tail[k] == c;
        assert s[e + k] == c;
      }
    }
  }

  /** Each detached key is added by one statement holding its text without the white space around it. */
  lemma AlterIsTold(newName: string, seg: seq<Token>) returns (lead: string, text: string, tail: string)
    ensures Join(seg) == lead + text + tail && AlterOf(newName, seg) == "ALTER TABLE " + newName + " ADD " + text
    ensures (forall c :: c in lead + tail ==> IsSpace(c))
    ensures text != "" ==> !IsSpace(text[0]) && !IsSpace(text[|text| - 1])
  {
    hide IsSpace, Join, Trim, TrimStartAt, TrimEndAt;
    lead, text, tail := TrimIsTold(Join(seg));
  }
}
