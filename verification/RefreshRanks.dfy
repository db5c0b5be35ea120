/** The place of a row among the rows of its key. */
module RefreshRanks {
  import opened Common
  import opened ResultDiff

  /** How many rows have the key. */
  ghost function Count(rows: seq<Row>, pk: seq<nat>, key: PkKey): nat {
    if rows == [] then 0
    else
      var n := |rows| - 1;
      Count(rows[..n], pk, key) + if KeyOf(rows[n], pk) == key then 1 else 0
  }

  /** Row `p` has the key, and `m` rows before it do. */
  ghost predicate IsNth(rows: seq<Row>, pk: seq<nat>, key: PkKey, m: nat, p: nat) {
    p < |rows| && KeyOf(rows[p], pk) == key && Count(rows[..p], pk, key) == m
  }

  lemma NthPlace(rows: seq<Row>, pk: seq<nat>, key: PkKey, m: nat, p: nat)
    requires IsNth(rows, pk, key, m, p)
    ensures p < |rows| && KeyOf(rows[p], pk) == key && Count(rows[..p], pk, key) == m
  {
  }

  lemma CountPush(rows: seq<Row>, row: Row, pk: seq<nat>, key: PkKey)
    ensures Count(rows + [row], pk, key) == Count(rows, pk, key) + if KeyOf(row, pk) == key then 1 else 0
  {
    hide KeyOf;
    assert (rows + [row])[..|rows|] == rows;
  }

  lemma {:induction false} CountPrefix(rows: seq<Row>, pk: seq<nat>, key: PkKey, i: nat)
    requires i <= |rows|
    ensures Count(rows[..i], pk, key) <= Count(rows, pk, key)
  {
    hide KeyOf;
    if i == |rows| {
      assert rows[..i] == rows;
    } else {
      var n := |rows| - 1;
      CountPrefix(rows[..n], pk, key, i);
      assert rows[..n][..i] == rows[..i];
    }
  }

  lemma CountAfter(rows: seq<Row>, pk: seq<nat>, key: PkKey, p: nat)
    requires p < |rows| && KeyOf(rows[p], pk) == key
    ensures Count(rows[..p + 1], pk, key) == Count(rows[..p], pk, key) + 1
  {
    hide KeyOf;
    assert rows[..p + 1] == rows[..p] + [rows[p]];
    CountPush(rows[..p], rows[p], pk, key);
  }

  lemma NthBefore(rows: seq<Row>, pk: seq<nat>, key: PkKey, m: nat, p: nat, j: nat)
    requires IsNth(rows, pk, key, m, p) && p < j <= |rows|
    ensures m < Count(rows[..j], pk, key)
  {
    hide KeyOf, Count;
    CountAfter(rows, pk, key, p);
    CountPrefix(rows[..j], pk, key, p + 1);
    assert rows[..j][..p + 1] == rows[..p + 1];
  }

  lemma NthIsBelow(rows: seq<Row>, pk: seq<nat>, key: PkKey, m: nat, p: nat)
    requires IsNth(rows, pk, key, m, p)
    ensures m < Count(rows, pk, key)
  {
    hide KeyOf, Count;
    NthBefore(rows, pk, key, m, p, |rows|);
    assert rows[..|rows|] == rows;
  }

  lemma NthIsOne(rows: seq<Row>, pk: seq<nat>, key: PkKey, m: nat, p: nat, q: nat)
    requires IsNth(rows, pk, key, m, p) && IsNth(rows, pk, key, m, q)
    ensures p == q
  {
    hide KeyOf, Count;
    if p < q {
      NthBefore(rows, pk, key, m, p, q);
    } else if q < p {
      NthBefore(rows, pk, key, m, q, p);
    }
  }

  lemma NthPush(rows: seq<Row>, row: Row, pk: seq<nat>, key: PkKey, m: nat, p: nat)
    ensures IsNth(rows, pk, key, m, p) ==> IsNth(rows + [row], pk, key, m, p)
    ensures IsNth(rows + [row], pk, key, m, p) && p < |rows| ==> IsNth(rows, pk, key, m, p)
    ensures IsNth(rows + [row], pk, KeyOf(row, pk), Count(rows, pk, KeyOf(row, pk)), |rows|)
  {
    hide KeyOf, Count;
    var more := rows + [row];
    assert p <= |rows| ==> more[..p] == rows[..p];
    assert more[..|rows|] == rows;
  }

  lemma {:induction false} NthExists(rows: seq<Row>, pk: seq<nat>, key: PkKey, m: nat) returns (p: nat)
    requires m < Count(rows, pk, key)
    ensures IsNth(rows, pk, key, m, p)
  {
    hide KeyOf;
    var n := |rows| - 1;
    assert rows == rows[..n] + [rows[n]];
    if m < Count(rows[..n], pk, key) {
      p := NthExists(rows[..n], pk, key, m);
      NthPush(rows[..n], rows[n], pk, key, m, p);
    } else {
      p := n;
    }
  }

  lemma {:induction false} CountIsHas(rows: seq<Row>, pk: seq<nat>, key: PkKey)
    ensures Count(rows, pk, key) > 0 <==> HasKey(rows, pk, key)
  {
    hide KeyOf;
    if rows != [] {
      var n := |rows| - 1;
      CountIsHas(rows[..n], pk, key);
      if HasKey(rows, pk, key) {
        var i :| 0 <= i < |rows| && KeyOf(rows[i], pk) == key;
        assert i < n ==> KeyOf(rows[..n][i], pk) == key;
      }
    }
  }

  // --- pairing rows by their place ---

  /**
   * Each row of the next result is paired with the previous row that has its key and its place among the rows of that
   * key, and with none if there is no such row.
   */
  ghost predicate PairedByPlace(prev: seq<Row>, next: seq<Row>, pk: seq<nat>, pairs: seq<Option<nat>>) {
    |pairs| == |next| && forall n :: 0 <= n < |next| ==> PairedAt(prev, next, pk, pairs, n)
  }

  ghost predicate PairedAt(prev: seq<Row>, next: seq<Row>, pk: seq<nat>, pairs: seq<Option<nat>>, n: nat)
    requires n < |next| && n < |pairs|
  {
    var key := KeyOf(next[n], pk);
    forall p: nat :: pairs[n] == Some(p) <==> IsNth(prev, pk, key, Count(next[..n], pk, key), p)
  }

  lemma PairPush(prev: seq<Row>, next: seq<Row>, pk: seq<nat>, pairs: seq<Option<nat>>, row: Row, pair: Option<nat>)
    requires PairedByPlace(prev, next, pk, pairs)
    requires forall p: nat :: pair == Some(p) <==> IsNth(prev, pk, KeyOf(row, pk), Count(next, pk, KeyOf(row, pk)), p)
    ensures PairedByPlace(prev, next + [row], pk, pairs + [pair])
  {
    hide KeyOf, Count, IsNth;
    var more, all := next + [row], pairs + [pair];
    forall n | 0 <= n < |more| ensures PairedAt(prev, more, pk, all, n) {
      if n < |next| {
        assert PairedAt(prev, next, pk, pairs, n);
        assert more[..n] == next[..n] && more[n] == next[n] && all[n] == pairs[n];
      } else {
        assert more[..n] == next;
      }
    }
  }

  /** A previous row taken before by another row of the key had an earlier place. */
  lemma TakenWasEarlier(prev: seq<Row>, next: seq<Row>, pk: seq<nat>, pairs: seq<Option<nat>>, key: PkKey, q: nat)
    requires PairedByPlace(prev, next, pk, pairs) && Some(q) in pairs && q < |prev| && KeyOf(prev[q], pk) == key
    ensures Count(prev[..q], pk, key) < Count(next, pk, key)
  {
    hide KeyOf, Count;
    var n :| 0 <= n < |pairs| && pairs[n] == Some(q);
    assert PairedAt(prev, next, pk, pairs, n);
    var m := Count(next[..n], pk, key);
    assert IsNth(prev, pk, KeyOf(next[n], pk), Count(next[..n], pk, KeyOf(next[n], pk)), q);
    NthIsBelow(next, pk, key, m, n);
  }

  /** The first previous row of a key is taken once a row of that key was seen. */
  lemma FirstIsTaken(prev: seq<Row>, next: seq<Row>, pk: seq<nat>, pairs: seq<Option<nat>>, key: PkKey, p: nat)
    requires PairedByPlace(prev, next, pk, pairs) && IsNth(prev, pk, key, 0, p) && Count(next, pk, key) > 0
    ensures Some(p) in pairs
  {
    hide KeyOf, Count;
    var n := NthExists(next, pk, key, 0);
    assert PairedAt(prev, next, pk, pairs, n);
  }
}
