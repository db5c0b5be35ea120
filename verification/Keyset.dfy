/** Keyset pagination: the rows after an anchor, against OFFSET slices of the same ordered table. */
module Keyset {
  import opened Common

  datatype Cell = Null | Val(n: int)

  type Row = map<string, Cell>

  function Get(row: Row, column: string): Cell { if column in row then row[column] else Null }

  datatype Key = Key(column: string, asc: bool)

  datatype Move = Next | Prev

  // --- conditions and what they mean ---

  datatype Op = Gt | Lt | Eq

  /** `Other` stands for the clause of a server-side filter, whatever it tests. */
  datatype Cond =
    | Cmp(column: string, op: Op, lit: int)
    | RowCmp(columns: seq<string>, op: Op, lits: seq<int>)
    | And(all: seq<Cond>)
    | Or(any: seq<Cond>)
    | Other(test: Row -> bool)

  predicate Holds1(c: Cell, op: Op, lit: int) {
    c.Val? && match op case Gt => c.n > lit case Lt => c.n < lit case Eq => c.n == lit
  }

  /**
   * A row value comparison is true if the first pair that is not equal compares that way (ISO/IEC 9075-2, section 8.2).
   */
  predicate RowHolds(columns: seq<string>, op: Op, lits: seq<int>, row: Row) {
    columns != [] && lits != [] &&
    (Holds1(Get(row, columns[0]), op, lits[0]) ||
     (Holds1(Get(row, columns[0]), Eq, lits[0]) && RowHolds(columns[1..], op, lits[1..], row)))
  }

  /** Whether a condition is true of a row; false and unknown both keep the row out. */
  predicate Holds(c: Cond, row: Row)
    decreases c
  {
    match c
    case Cmp(column, op, lit) => Holds1(Get(row, column), op, lit)
    case RowCmp(columns, op, lits) => RowHolds(columns, op, lits, row)
    case And(all) => forall i :: 0 <= i < |all| ==> Holds(all[i], row)
    case Or(any) => exists i :: 0 <= i < |any| && Holds(any[i], row)
    case Other(test) => test(row)
  }

  // --- the order of the keys ---

  function Flip(k: Key): Key { Key(k.column, !k.asc) }

  function EffectiveKeys(keys: seq<Key>, move: Move): seq<Key> {
    if move == Next then keys else seq(|keys|, i requires 0 <= i < |keys| => Flip(keys[i]))
  }

  function OpOf(k: Key): Op { if k.asc then Gt else Lt }

  /** `row` stands strictly after the key values `anchor` in the order of the keys. */
  predicate After(keys: seq<Key>, anchor: seq<int>, row: Row)
    requires |anchor| == |keys|
  {
    keys != [] &&
    (Holds1(Get(row, keys[0].column), OpOf(keys[0]), anchor[0]) ||
     (Holds1(Get(row, keys[0].column), Eq, anchor[0]) && After(keys[1..], anchor[1..], row)))
  }

  predicate HasKeys(keys: seq<Key>, row: Row) {
    forall i :: 0 <= i < |keys| ==> Get(row, keys[i].column).Val?
  }

  function AnchorOf(keys: seq<Key>, row: Row): (a: seq<int>)
    requires HasKeys(keys, row)
    ensures |a| == |keys|
  {
    seq(|keys|, i requires 0 <= i < |keys| => Get(row, keys[i].column).n)
  }

  /** The key values of an anchor row, or none when the row is missing or has a NULL key. */
  function ReadAnchor(keys: seq<Key>, row: Option<Row>): Option<seq<int>> {
    if row.Some? && HasKeys(keys, row.value) then Some(AnchorOf(keys, row.value)) else None
  }

  /** The loop over the keys of a plan: an anchor only if every key has a value. */
  method ReadKeysetAnchor(keys: seq<Key>, row: Option<Row>) returns (anchor: Option<seq<int>>)
    ensures anchor.Some? <==> row.Some? && HasKeys(keys, row.value)
    ensures anchor.Some? ==> anchor.value == AnchorOf(keys, row.value)
    ensures anchor == ReadAnchor(keys, row)
  {
    if row.None? {
      return None;
    }
    var out := [];
    for i := 0 to |keys|
      invariant |out| == i && forall k :: 0 <= k < i ==> Get(row.value, keys[k].column) == Val(out[k])
    {
      var v := Get(row.value, keys[i].column);
      if v.Null? {
        return None;
      }
      out := out + [v.n];
    }
    anchor := Some(out);
  }

  /** One disjunct of the expansion: the first `i` keys equal, the next one beyond the anchor. */
  function Term(keys: seq<Key>, anchor: seq<int>, i: nat): Cond
    requires i < |keys| == |anchor|
  {
    And(seq(i, j requires 0 <= j < i => Cmp(keys[j].column, Eq, anchor[j])) +
        [Cmp(keys[i].column, OpOf(keys[i]), anchor[i])])
  }

  function Columns(keys: seq<Key>): seq<string> { seq(|keys|, i requires 0 <= i < |keys| => keys[i].column) }

  /** One comparison, a row value comparison when all directions agree, or the OR expansion. */
  function BuildCondition(plan: seq<Key>, anchor: seq<int>, move: Move): Cond
    requires |anchor| == |plan| > 0
  {
    var keys := EffectiveKeys(plan, move);
    if |keys| == 1 then Cmp(keys[0].column, OpOf(keys[0]), anchor[0])
    else if forall i :: 0 <= i < |keys| ==> keys[i].asc == keys[0].asc then RowCmp(Columns(keys), OpOf(keys[0]), anchor)
    else Or(seq(|keys|, i requires 0 <= i < |keys| => Term(keys, anchor, i)))
  }

  lemma {:induction false} RowCmpIsAfter(keys: seq<Key>, anchor: seq<int>, row: Row)
    requires |anchor| == |keys| && forall i, j :: 0 <= i < j < |keys| ==> keys[i].asc == keys[j].asc
    ensures keys != [] ==> RowHolds(Columns(keys), OpOf(keys[0]), anchor, row) == After(keys, anchor, row)
  {
    if |keys| > 1 {
      RowCmpIsAfter(keys[1..], anchor[1..], row);
      assert Columns(keys)[1..] == Columns(keys[1..]);
    }
  }

  /** Strictly after, told by the position of the first key that differs. */
  lemma {:induction false} AfterByPosition(keys: seq<Key>, anchor: seq<int>, row: Row)
    requires |anchor| == |keys|
    ensures After(keys, anchor, row) <==> exists i :: 0 <= i < |keys| && AfterAt(keys, anchor, row, i)
  {
    if keys != [] {
      AfterByPosition(keys[1..], anchor[1..], row);
      assert AfterAt(keys, anchor, row, 0) <==> Holds1(Get(row, keys[0].column), OpOf(keys[0]), anchor[0]);
      if i :| 0 <= i < |keys| && AfterAt(keys, anchor, row, i) {
        if i > 0 {
          AfterAtShift(keys, anchor, row, i - 1);
        }
      } else if After(keys, anchor, row) {
        var i :| 0 <= i < |keys[1..]| && AfterAt(keys[1..], anchor[1..], row, i);
        AfterAtShift(keys, anchor, row, i);
      }
    }
  }

  lemma AfterAtShift(keys: seq<Key>, anchor: seq<int>, row: Row, i: nat)
    requires i + 1 < |keys| == |anchor|
    ensures AfterAt(keys, anchor, row, i + 1) <==>
            Holds1(Get(row, keys[0].column), Eq, anchor[0]) && AfterAt(keys[1..], anchor[1..], row, i)
  {
    assert forall j :: 0 <= j <= i ==> keys[1..][j] == keys[j + 1] && anchor[1..][j] == anchor[j + 1];
    if AfterAt(keys, anchor, row, i + 1) {
      forall j | 0 <= j < i ensures Holds1(Get(row, keys[1..][j].column), Eq, anchor[1..][j]) {
        assert Holds1(Get(row, keys[j + 1].column), Eq, anchor[j + 1]);
      }
    }
    if Holds1(Get(row, keys[0].column), Eq, anchor[0]) && AfterAt(keys[1..], anchor[1..], row, i) {
      forall j | 0 <= j < i + 1 ensures Holds1(Get(row, keys[j].column), Eq, anchor[j]) {
        if j > 0 {
          assert Holds1(Get(row, keys[1..][j - 1].column), Eq, anchor[1..][j - 1]);
        }
      }
    }
  }

  predicate AfterAt(keys: seq<Key>, anchor: seq<int>, row: Row, i: nat)
    requires i < |keys| == |anchor|
  {
    (forall j :: 0 <= j < i ==> Holds1(Get(row, keys[j].column), Eq, anchor[j])) &&
    Holds1(Get(row, keys[i].column), OpOf(keys[i]), anchor[i])
  }

  lemma TermMeaning(keys: seq<Key>, anchor: seq<int>, row: Row, i: nat)
    requires i < |keys| == |anchor|
    ensures Holds(Term(keys, anchor, i), row) == AfterAt(keys, anchor, row, i)
  {
    var t := Term(keys, anchor, i);
    assert forall j :: 0 <= j < i ==> t.all[j] == Cmp(keys[j].column, Eq, anchor[j]);
    assert t.all[i] == Cmp(keys[i].column, OpOf(keys[i]), anchor[i]);
    if Holds(t, row) {
      forall j | 0 <= j < i ensures Holds1(Get(row, keys[j].column), Eq, anchor[j]) {
        assert Holds(t.all[j], row);
      }
    }
    if AfterAt(keys, anchor, row, i) {
      forall j | 0 <= j < |t.all| ensures Holds(t.all[j], row) {
        if j < i {
          assert Holds1(Get(row, keys[j].column), Eq, anchor[j]);
        }
      }
    }
  }

  /** Whatever form it takes, the condition means "strictly after the anchor in the direction of the move". */
  lemma ConditionMeansAfter(plan: seq<Key>, anchor: seq<int>, move: Move, row: Row)
    requires |anchor| == |plan| > 0
    ensures Holds(BuildCondition(plan, anchor, move), row) == After(EffectiveKeys(plan, move), anchor, row)
  {
    var keys := EffectiveKeys(plan, move);
    var c := BuildCondition(plan, anchor, move);
    if |keys| == 1 {
      assert After(keys, anchor, row) == Holds1(Get(row, keys[0].column), OpOf(keys[0]), anchor[0]) by {
        assert keys[1..] == [];
      }
    } else if forall i :: 0 <= i < |keys| ==> keys[i].asc == keys[0].asc {
      RowCmpIsAfter(keys, anchor, row);
    } else {
      AfterByPosition(keys, anchor, row);
      assert c.Or? && |c.any| == |keys|;
      forall i | 0 <= i < |keys| ensures Holds(c.any[i], row) == AfterAt(keys, anchor, row, i) {
        assert c.any[i] == Term(keys, anchor, i);
        TermMeaning(keys, anchor, row, i);
      }
      assert Holds(c, row) <==> exists i :: 0 <= i < |keys| && Holds(c.any[i], row);
    }
  }

  // --- ordered tables ---

  /** Row `b` stands strictly after row `a` in the order of the keys. */
  predicate Before(keys: seq<Key>, a: Row, b: Row) {
    HasKeys(keys, a) && After(keys, AnchorOf(keys, a), b)
  }

  /** `t` lists the rows of `rows` in the strict order of the keys. */
  ghost predicate IsOrdering(t: seq<Row>, rows: set<Row>, keys: seq<Key>) {
    && (forall i :: 0 <= i < |t| ==> HasKeys(keys, t[i]))
    && (forall i, j :: 0 <= i < j < |t| ==> Before(keys, t[i], t[j]))
    && (forall r :: r in t <==> r in rows)
  }

  lemma {:induction false} AfterIsAsymmetric(keys: seq<Key>, a: Row, b: Row)
    requires HasKeys(keys, a) && HasKeys(keys, b) && After(keys, AnchorOf(keys, a), b)
    ensures !After(keys, AnchorOf(keys, b), a)
  {
    if Holds1(Get(b, keys[0].column), Eq, AnchorOf(keys, a)[0]) {
      assert AnchorOf(keys, a)[1..] == AnchorOf(keys[1..], a) && AnchorOf(keys, b)[1..] == AnchorOf(keys[1..], b);
      AfterIsAsymmetric(keys[1..], a, b);
    }
  }

  /** A set of rows has at most one listing in the order of the keys. */
  lemma {:induction false} OrderingIsUnique(t: seq<Row>, u: seq<Row>, rows: set<Row>, keys: seq<Key>)
    requires IsOrdering(t, rows, keys) && IsOrdering(u, rows, keys)
    ensures t == u
    decreases |t|
  {
    hide After;
    EmptyOrdering(t, rows, keys);
    EmptyOrdering(u, rows, keys);
    if rows != {} {
      FirstIsFirst(t, u, rows, keys);
      OrderingRest(t, rows, keys);
      OrderingRest(u, rows, keys);
      OrderingIsUnique(t[1..], u[1..], rows - {t[0]}, keys);
      assert t == [t[0]] + t[1..] && u == [u[0]] + u[1..];
    }
  }

  lemma EmptyOrdering(t: seq<Row>, rows: set<Row>, keys: seq<Key>)
    requires IsOrdering(t, rows, keys)
    ensures t == [] <==> rows == {}
  {
    if t != [] {
      assert t[0] in t;
    }
  }

  lemma FirstIsFirst(t: seq<Row>, u: seq<Row>, rows: set<Row>, keys: seq<Key>)
    requires IsOrdering(t, rows, keys) && IsOrdering(u, rows, keys) && t != [] && u != []
    ensures t[0] == u[0]
  {
    hide After;
    assert t[0] in rows && u[0] in rows;
    var j :| 0 <= j < |u| && u[j] == t[0];
    var i :| 0 <= i < |t| && t[i] == u[0];
    if 0 < i && 0 < j {
      assert Before(keys, t[0], t[i]) && Before(keys, u[0], u[j]);
      AfterIsAsymmetric(keys, t[0], u[0]);
    }
  }

  lemma OrderingRest(t: seq<Row>, rows: set<Row>, keys: seq<Key>)
    requires IsOrdering(t, rows, keys) && t != []
    ensures IsOrdering(t[1..], rows - {t[0]}, keys)
  {
    hide After;
    forall i | 1 <= i < |t| ensures t[i] != t[0] {
      if t[i] == t[0] {
        NotBeforeSelf(t, rows, keys, i);
      }
    }
    assert forall r :: r in t <==> r == t[0] || r in t[1..];
    assert forall i :: 0 <= i < |t| - 1 ==> t[1..][i] == t[i + 1];
  }

  lemma NotBeforeSelf(t: seq<Row>, rows: set<Row>, keys: seq<Key>, i: nat)
    requires IsOrdering(t, rows, keys) && 0 < i < |t|
    ensures t[0] != t[i]
  {
    assert Before(keys, t[0], t[i]);
    AfterIsAsymmetric(keys, t[0], t[i]);
  }

  function Reversed<T>(s: seq<T>): (r: seq<T>)
    ensures |r| == |s| && forall i :: 0 <= i < |s| ==> r[i] == s[|s| - 1 - i]
  {
    seq(|s|, i requires 0 <= i < |s| => s[|s| - 1 - i])
  }

  lemma {:induction false} FlippedOrder(keys: seq<Key>, a: Row, b: Row)
    requires HasKeys(keys, a) && HasKeys(keys, b)
    ensures HasKeys(EffectiveKeys(keys, Prev), a) && HasKeys(EffectiveKeys(keys, Prev), b)
    ensures After(EffectiveKeys(keys, Prev), AnchorOf(EffectiveKeys(keys, Prev), a), b) ==
            After(keys, AnchorOf(keys, b), a)
  {
    var flipped := EffectiveKeys(keys, Prev);
    assert forall i :: 0 <= i < |keys| ==> Get(a, flipped[i].column) == Get(a, keys[i].column);
    assert forall i :: 0 <= i < |keys| ==> Get(b, flipped[i].column) == Get(b, keys[i].column);
    if keys != [] {
      FlippedOrder(keys[1..], a, b);
      assert flipped[1..] == EffectiveKeys(keys[1..], Prev);
      assert AnchorOf(keys, b)[1..] == AnchorOf(keys[1..], b);
      assert AnchorOf(flipped, a)[1..] == AnchorOf(flipped[1..], a);
    }
  }

  lemma FlippedAnchor(keys: seq<Key>, a: Row, move: Move)
    requires HasKeys(keys, a)
    ensures HasKeys(EffectiveKeys(keys, move), a) && AnchorOf(EffectiveKeys(keys, move), a) == AnchorOf(keys, a)
  {
    var e := EffectiveKeys(keys, move);
    assert forall i :: 0 <= i < |keys| ==> Get(a, e[i].column) == Get(a, keys[i].column);
  }
}
