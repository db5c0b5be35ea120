/** Building a refresh patch while the rows of the next result stream in, without keeping the previous rows. */
module RefreshBuilder {
  import opened Common
  import opened ResultDiff
  import opened RefreshPatch
  import opened RefreshRanks

  const MAX_SNAPSHOT_ROWS: nat := 500000

  /** The rows of a result with the first position of every key, and the later positions of keys that repeat. */
  datatype Snapshot = Snapshot(rows: seq<Row>, index: map<PkKey, nat>, dups: map<PkKey, seq<nat>>)

  ghost predicate HoldsKey(rows: seq<Row>, pk: seq<nat>, p: nat, key: PkKey) { p < |rows| && KeyOf(rows[p], pk) == key }

  ghost predicate ValidIndex(s: Snapshot, pk: seq<nat>) {
    && (forall key :: key in s.index <==> HasKey(s.rows, pk, key))
    && (forall key :: key in s.index ==> HoldsKey(s.rows, pk, s.index[key], key))
  }

  ghost predicate AllHold(rows: seq<Row>, pk: seq<nat>, ps: seq<nat>, key: PkKey) {
    forall i :: 0 <= i < |ps| ==> HoldsKey(rows, pk, ps[i], key)
  }

  ghost predicate ValidDups(s: Snapshot, pk: seq<nat>) {
    forall key :: key in s.dups ==> key in s.index && AllHold(s.rows, pk, s.dups[key], key)
  }

  /** The rows of a key after its first. */
  function LaterRows(s: Snapshot, key: PkKey): seq<nat> { if key in s.dups then s.dups[key] else [] }

  /** The index has the first row of the key, and behind it all later ones in order. */
  ghost predicate KeyInOrder(s: Snapshot, pk: seq<nat>, key: PkKey)
    requires key in s.index
  {
    var later := LaterRows(s, key);
    && IsNth(s.rows, pk, key, 0, s.index[key]) && Count(s.rows, pk, key) == 1 + |later|
    && forall i :: 0 <= i < |later| ==> IsNth(s.rows, pk, key, i + 1, later[i])
  }

  ghost predicate InOrder(s: Snapshot, pk: seq<nat>) { forall key :: key in s.index ==> KeyInOrder(s, pk, key) }

  ghost predicate ValidSnapshot(s: Snapshot, pk: seq<nat>) { ValidIndex(s, pk) && ValidDups(s, pk) && InOrder(s, pk) }

  const EMPTY := Snapshot([], map[], map[])

  function WithRow(s: Snapshot, pk: seq<nat>, row: Row): Snapshot {
    var key := KeyOf(row, pk);
    if key !in s.index then Snapshot(s.rows + [row], s.index[key := |s.rows|], s.dups)
    else Snapshot(s.rows + [row], s.index, s.dups[key := (if key in s.dups then s.dups[key] else []) + [|s.rows|]])
  }

  lemma WithRowKeepsValid(s: Snapshot, pk: seq<nat>, row: Row)
    requires ValidSnapshot(s, pk)
    ensures ValidSnapshot(WithRow(s, pk, row), pk)
  {
    hide KeyOf, HasKey, HoldsKey, AllHold, InOrder;
    WithRowKeepsOrder(s, pk, row);
    forall key ensures HasKey(s.rows + [row], pk, key) <==> HasKey(s.rows, pk, key) || key == KeyOf(row, pk) {
      HasKeyPush(s.rows, row, pk, key);
    }
    forall p, key
      ensures HoldsKey(s.rows, pk, p, key) || (p == |s.rows| && key == KeyOf(row, pk)) ==>
                HoldsKey(s.rows + [row], pk, p, key)
    {
      HoldsKeyPush(s.rows, row, pk, p, key);
    }
    forall ps, key ensures AllHold(s.rows, pk, ps, key) ==> AllHold(s.rows + [row], pk, ps, key) {
      AllHoldPush(s.rows, row, pk, ps, key);
    }
    DupsPush(s, pk, row);
  }

  lemma WithRowKeepsOrder(s: Snapshot, pk: seq<nat>, row: Row)
    requires ValidIndex(s, pk) && ValidDups(s, pk) && InOrder(s, pk)
    ensures InOrder(WithRow(s, pk, row), pk)
  {
    hide KeyOf, KeyInOrder, WithRow, HasKey, HoldsKey, AllHold;
    var t := WithRow(s, pk, row);
    forall key | key in t.index ensures KeyInOrder(t, pk, key) {
      CountIsHas(s.rows, pk, key);
      RowKeepsKey(s, pk, row, key);
    }
  }

  lemma RowKeepsKey(s: Snapshot, pk: seq<nat>, row: Row, key: PkKey)
    requires key in s.index ==> KeyInOrder(s, pk, key)
    requires key !in s.index ==> Count(s.rows, pk, key) == 0
    requires key in WithRow(s, pk, row).index && (key in s.dups ==> key in s.index)
    ensures KeyInOrder(WithRow(s, pk, row), pk, key)
  {
    hide KeyOf, IsNth, Count;
    CountPush(s.rows, row, pk, key);
    var later := LaterRows(s, key);
    NthPush(s.rows, row, pk, key, 0, if key in s.index then s.index[key] else 0);
    forall i | 0 <= i < |later| && key in s.index ensures IsNth(s.rows + [row], pk, key, i + 1, later[i]) {
      NthPush(s.rows, row, pk, key, i + 1, later[i]);
    }
  }

  lemma DupsPush(s: Snapshot, pk: seq<nat>, row: Row)
    ensures var key := KeyOf(row, pk);
            var ps := if key in s.dups then s.dups[key] else [];
            AllHold(s.rows, pk, ps, key) ==> AllHold(s.rows + [row], pk, ps + [|s.rows|], key)
    ensures AllHold(s.rows, pk, [], KeyOf(row, pk))
  {
    hide KeyOf;
    var key := KeyOf(row, pk);
    AllHoldPush(s.rows, row, pk, if key in s.dups then s.dups[key] else [], key);
  }

  lemma HoldsKeyPush(rows: seq<Row>, row: Row, pk: seq<nat>, p: nat, key: PkKey)
    ensures HoldsKey(rows, pk, p, key) || (p == |rows| && key == KeyOf(row, pk)) ==> HoldsKey(rows + [row], pk, p, key)
  {
  }

  lemma AllHoldPush(rows: seq<Row>, row: Row, pk: seq<nat>, ps: seq<nat>, key: PkKey)
    ensures AllHold(rows, pk, ps, key) ==> AllHold(rows + [row], pk, ps, key)
  {
    hide KeyOf;
  }

  lemma HasKeyPush(rows: seq<Row>, row: Row, pk: seq<nat>, key: PkKey)
    ensures HasKey(rows + [row], pk, key) <==> HasKey(rows, pk, key) || key == KeyOf(row, pk)
  {
    hide KeyOf;
    if i :| 0 <= i < |rows| && KeyOf(rows[i], pk) == key {
      assert KeyOf((rows + [row])[i], pk) == key;
    }
    assert (rows + [row])[|rows|] == row;
  }

  // --- how runs grow by one row ---

  lemma ItemsPush(prev: seq<Row>, runs: seq<Run>, run: Run)
    requires AllInRange(prev, runs) && InRange(prev, run)
    ensures AllInRange(prev, runs + [run]) && Items(prev, runs + [run]) == Items(prev, runs) + RunItems(prev, run)
  {
    assert (runs + [run])[..|runs|] == runs;
  }

  lemma KeepGrows(prev: seq<Row>, runs: seq<Run>, from: nat, count: nat)
    requires AllInRange(prev, runs) && from + count < |prev|
    ensures AllInRange(prev, runs + [Keep(from, count + 1)])
    ensures Items(prev, runs + [Keep(from, count + 1)]) ==
            (if count == 0 then Items(prev, runs) else Items(prev, runs + [Keep(from, count)])) +
            [Item(prev[from + count], Some(from + count), true)]
  {
    hide Items, AllInRange;
    ItemsPush(prev, runs, Keep(from, count + 1));
    ItemsPush(prev, runs, Keep(from, count));
    assert RunItems(prev, Keep(from, count + 1)) ==
           RunItems(prev, Keep(from, count)) + [Item(prev[from + count], Some(from + count), true)];
  }

  lemma RowsGrow(prev: seq<Row>, runs: seq<Run>, positions: seq<Option<nat>>, rows: seq<Row>, p: Option<nat>, row: Row)
    requires AllInRange(prev, runs) && |positions| == |rows|
    ensures AllInRange(prev, runs + [Rows(positions + [p], rows + [row])])
    ensures Items(prev, runs + [Rows(positions + [p], rows + [row])]) ==
            (if rows == [] then Items(prev, runs) else Items(prev, runs + [Rows(positions, rows)])) +
            [Item(row, p, false)]
  {
    hide Items, AllInRange;
    ItemsPush(prev, runs, Rows(positions + [p], rows + [row]));
    ItemsPush(prev, runs, Rows(positions, rows));
    assert RunItems(prev, Rows(positions + [p], rows + [row])) ==
           RunItems(prev, Rows(positions, rows)) + [Item(row, p, false)];
  }

  lemma FaithfulPush(prev: seq<Row>, next: seq<Row>, pk: seq<nat>, items: seq<Item>, row: Row, item: Item)
    requires FaithfulItems(prev, next, pk, items) && FaithfulItem(prev, next + [row], pk, item, |next|)
    requires item.prev.Some? ==> item.prev.value !in Matched(items)
    ensures FaithfulItems(prev, next + [row], pk, items + [item])
  {
    hide KeyOf, HasKey;
    var more := items + [item];
    forall n | 0 <= n < |more| ensures FaithfulItem(prev, next + [row], pk, more[n], n) {
      if n < |items| {
        assert FaithfulItem(prev, next, pk, items[n], n);
        assert forall m :: 0 <= m <= n ==> (next + [row])[m] == next[m];
      }
    }
    hide FaithfulItem;
    forall m, n | 0 <= m < n < |more| && more[m].prev.Some? ensures more[m].prev != more[n].prev {
      if n == |items| {
        assert items[m].prev.value in Matched(items);
      }
    }
  }

  lemma SetsPush(items: seq<Item>, item: Item)
    requires item.prev.Some? ==> item.prev.value !in Matched(items)
    ensures Matched(items + [item]) == Matched(items) + if item.prev.Some? then {item.prev.value} else {}
    ensures |AddedAt(items + [item])| == |AddedAt(items)| + if item.prev.None? then 1 else 0
    ensures |Matched(items + [item])| == |Matched(items)| + if item.prev.Some? then 1 else 0
  {
    MatchedPush(items, item);
    AddedAtPush(items, item);
    hide Matched, AddedAt;
  }

  lemma AddedAtPush(items: seq<Item>, item: Item)
    ensures |AddedAt(items + [item])| == |AddedAt(items)| + if item.prev.None? then 1 else 0
  {
    var before, after := AddedAt(items), AddedAt(items + [item]);
    forall n: nat ensures n in after <==> n in before || (n == |items| && item.prev.None?) {
    }
    assert |items| !in before;
    assert after == if item.prev.None? then before + {|items|} else before;
  }

  lemma ChangedAtPush(items: seq<Item>, item: Item)
    ensures |ChangedAt(items + [item])| == |ChangedAt(items)| + if item.prev.Some? && !item.kept then 1 else 0
  {
    var before, after := ChangedAt(items), ChangedAt(items + [item]);
    forall n: nat ensures n in after <==> n in before || (n == |items| && item.prev.Some? && !item.kept) {
    }
    assert |items| !in before;
    assert after == if item.prev.Some? && !item.kept then before + {|items|} else before;
  }

  lemma MatchedPush(items: seq<Item>, item: Item)
    ensures Matched(items + [item]) == Matched(items) + if item.prev.Some? then {item.prev.value} else {}
  {
    var more := items + [item];
    forall p ensures p in Matched(more) <==> p in Matched(items) || item.prev == Some(p) {
      if item.prev == Some(p) {
        assert more[|items|].prev.value == p;
      }
      if p in Matched(items) {
        var n :| 0 <= n < |items| && items[n].prev.Some? && items[n].prev.value == p;
        assert more[n].prev.value == p;
      }
    }
  }

  function PairsOf(items: seq<Item>): seq<Option<nat>> {
    seq(|items|, i requires 0 <= i < |items| => items[i].prev)
  }

  lemma MatchedIsPaired(items: seq<Item>)
    ensures forall q: nat :: q in Matched(items) <==> Some(q) in PairsOf(items)
  {
    var pairs := PairsOf(items);
    forall q: nat | q in Matched(items) ensures Some(q) in pairs {
      var n :| 0 <= n < |items| && items[n].prev.Some? && items[n].prev.value == q;
      assert pairs[n] == Some(q);
    }
  }

  /** Every row so far is copied from its own place. */
  predicate InPlace(items: seq<Item>) {
    forall n :: 0 <= n < |items| ==> items[n].kept && items[n].prev == Some(n)
  }

  lemma PlaceMeans(items: seq<Item>, item: Item)
    ensures InPlace(items + [item]) <==> InPlace(items) && item.kept && item.prev == Some(|items|)
  {
    var all := items + [item];
    assert all[|items|] == item && forall n :: 0 <= n < |items| ==> all[n] == items[n];
  }

  /** A result seen again is copied row by row from its own place, and no previous row is left over. */
  lemma SameIsInPlace(rows: seq<Row>, pk: seq<nat>, items: seq<Item>)
    requires FaithfulItems(rows, rows, pk, items) && PairedByPlace(rows, rows, pk, PairsOf(items))
    ensures InPlace(items) && |Matched(items)| == |rows|
  {
    hide KeyOf, HasKey, Count;
    forall n | 0 <= n < |rows| ensures items[n].kept && items[n].prev == Some(n) {
      assert PairedAt(rows, rows, pk, PairsOf(items), n);
      assert IsNth(rows, pk, KeyOf(rows[n], pk), Count(rows[..n], pk, KeyOf(rows[n], pk)), n);
      assert PairsOf(items)[n] == Some(n);
      assert FaithfulItem(rows, rows, pk, items[n], n);
    }
    CountBelow(|rows|);
    forall p ensures p in Matched(items) <==> p in Below(|rows|) {
      if p in Below(|rows|) {
        assert items[p].prev.value == p;
      }
    }
    assert Matched(items) == Below(|rows|);
  }

  // --- the builder ---

  class Builder {
    const prev: Option<Snapshot>
    const pk: seq<nat>
    /** The snapshot of the rows seen, until there are too many. */
    var snapshot: Snapshot
    var overflow: bool
    /** How many rows with a repeated previous key were seen. */
    var dupCursor: map<PkKey, nat>
    var used: set<nat>
    var usedCount: nat
    var runs: seq<Run>
    var keep: Option<(nat, nat)>
    var pendingPrev: seq<Option<nat>>
    var pendingRows: seq<Row>
    var total: nat
    var added: nat
    var changed: nat
    ghost var observed: seq<Row>

    ghost function PrevRows(): seq<Row> { if prev.Some? then prev.value.rows else [] }

    /** The runs once both unfinished ones are flushed. */
    ghost function AllRuns(): seq<Run>
      reads `runs, `keep, `pendingPrev, `pendingRows
    {
      runs + (if keep.Some? then [Keep(keep.value.0, keep.value.1)] else []) +
      (if pendingRows != [] then [Rows(pendingPrev, pendingRows)] else [])
    }

    ghost predicate ValidRuns()
      reads `runs, `keep, `pendingPrev, `pendingRows
    {
      && AllInRange(PrevRows(), AllRuns()) && |pendingPrev| == |pendingRows|
      && (keep.Some? ==> pendingRows == [] && keep.value.1 > 0)
    }

    ghost function Built(): seq<Item>
      requires ValidRuns()
      reads `runs, `keep, `pendingPrev, `pendingRows
    {
      Items(PrevRows(), AllRuns())
    }

    ghost predicate ValidSeen()
      reads `snapshot, `overflow, `total, `observed
    {
      && total == |observed|
      && (overflow <==> |observed| > MAX_SNAPSHOT_ROWS)
      && (!overflow ==> snapshot.rows == observed && ValidSnapshot(snapshot, pk))
    }

    /** The runs so far tell the rows seen so far faithfully. */
    ghost predicate Faithfully(seen: seq<Row>)
      requires prev.Some?
      reads `runs, `keep, `pendingPrev, `pendingRows, `used, `usedCount, `added, `changed
    {
      && ValidSnapshot(prev.value, pk) && ValidRuns()
      && FaithfulItems(PrevRows(), seen, pk, Built())
      && used == Matched(Built()) && usedCount == |used|
      && added == |AddedAt(Built())| && changed == |ChangedAt(Built())|
      && PairedByPlace(PrevRows(), seen, pk, PairsOf(Built())) && Compact()
    }

    /** Rows copied from their own place make one run, and it is the unfinished one. */
    ghost predicate Compact()
      requires ValidRuns()
      reads `runs, `keep, `pendingPrev, `pendingRows
    {
      InPlace(Built()) ==>
        runs == [] && pendingRows == [] && keep == if Built() == [] then None else Some((0, |Built()|))
    }

    function Cursor(key: PkKey): nat
      reads `dupCursor
    {
      if key in dupCursor then dupCursor[key] else 0
    }

    ghost predicate CursorSeen(seen: seq<Row>)
      requires prev.Some?
      reads `dupCursor
    {
      forall key :: key in prev.value.dups ==> Cursor(key) == Count(seen, pk, key)
    }

    ghost predicate Valid()
      reads this
    {
      ValidSeen() && (prev.Some? ==> Faithfully(observed) && CursorSeen(observed))
    }

    constructor (prev: Option<Snapshot>, pk: seq<nat>)
      requires prev.Some? ==> ValidSnapshot(prev.value, pk)
      ensures Valid() && observed == [] && this.prev == prev && this.pk == pk
    {
      this.prev, this.pk := prev, pk;
      snapshot, overflow, dupCursor := EMPTY, false, map[];
      used, usedCount, runs, keep, pendingPrev, pendingRows := {}, 0, [], None, [], [];
      total, added, changed, observed := 0, 0, 0, [];
    }

    method FlushKeep()
      requires ValidRuns()
      modifies `runs, `keep
      ensures ValidRuns() && AllRuns() == old(AllRuns()) && keep == None
    {
      if keep.Some? {
        runs := runs + [Keep(keep.value.0, keep.value.1)];
        keep := None;
      }
      assert AllRuns() == old(AllRuns());
    }

    method FlushRows()
      requires ValidRuns()
      modifies `runs, `pendingPrev, `pendingRows
      ensures ValidRuns() && AllRuns() == old(AllRuns()) && pendingRows == []
      ensures keep == old(keep)
    {
      if pendingRows != [] {
        runs := runs + [Rows(pendingPrev, pendingRows)];
        pendingPrev, pendingRows := [], [];
      }
      assert AllRuns() == old(AllRuns());
    }

    /** A row equal to the previous row at `p`. */
    method AddKept(p: nat)
      requires ValidRuns() && Compact() && p < |PrevRows()|
      modifies `runs, `keep, `pendingPrev, `pendingRows
      ensures ValidRuns() && Built() == old(Built()) + [Item(PrevRows()[p], Some(p), true)]
      ensures Compact()
    {
      hide Items;
      ghost var was, items := AllRuns(), Built();
      PlaceMeans(items, Item(PrevRows()[p], Some(p), true));
      FlushRows();
      if keep.Some? && keep.value.0 + keep.value.1 == p {
        KeepGrows(PrevRows(), runs, keep.value.0, keep.value.1);
        assert was == runs + [Keep(keep.value.0, keep.value.1)];
        keep := Some((keep.value.0, keep.value.1 + 1));
        assert AllRuns() == runs + [Keep(keep.value.0, keep.value.1)];
      } else {
        FlushKeep();
        assert was == runs;
        KeepGrows(PrevRows(), runs, p, 0);
        keep := Some((p, 1));
        assert AllRuns() == runs + [Keep(p, 1)];
      }
    }

    /** A row sent in full, changed from the previous row at `p` or added. */
    method AddSent(p: Option<nat>, row: Row)
      requires ValidRuns()
      modifies `runs, `keep, `pendingPrev, `pendingRows
      ensures ValidRuns() && Built() == old(Built()) + [Item(row, p, false)]
      ensures Compact()
    {
      hide Items;
      ghost var was := AllRuns();
      PlaceMeans(Built(), Item(row, p, false));
      FlushKeep();
      RowsGrow(PrevRows(), runs, pendingPrev, pendingRows, p, row);
      assert was == if pendingRows == [] then runs else runs + [Rows(pendingPrev, pendingRows)];
      pendingPrev := pendingPrev + [p];
      pendingRows := pendingRows + [row];
      assert AllRuns() == runs + [Rows(pendingPrev, pendingRows)];
    }

    method SeeRow(row: Row)
      requires ValidSeen()
      modifies `snapshot, `overflow, `total, `observed
      ensures ValidSeen() && observed == old(observed) + [row]
    {
      observed := observed + [row];
      total := total + 1;
      if !overflow {
        if |snapshot.rows| >= MAX_SNAPSHOT_ROWS {
          overflow := true;
          snapshot := EMPTY;
        } else {
          WithRowKeepsValid(snapshot, pk, row);
          snapshot := WithRow(snapshot, pk, row);
        }
      }
    }

    /** The previous row the key stands for: rows that repeat a key are taken in the order they came. */
    method MatchKey(key: PkKey, ghost seen: seq<Row>) returns (p: Option<nat>)
      requires prev.Some? && Faithfully(seen) && CursorSeen(seen)
      modifies `dupCursor
      ensures forall q: nat :: p == Some(q) <==> IsNth(PrevRows(), pk, key, Count(seen, pk, key), q)
      ensures p.Some? ==> p.value !in used
      ensures forall k :: k in prev.value.dups ==> Cursor(k) == Count(seen, pk, k) + if k == key then 1 else 0
    {
      hide KeyOf, HasKey, IsNth, Count, ValidIndex, ValidDups, KeyInOrder, PairedByPlace, FaithfulItems, Built, Matched,
           ValidRuns, HoldsKey;
      ghost var m := Count(seen, pk, key);
      if key in prev.value.dups {
        var n := Cursor(key);
        if n == 0 {
          p := if key in prev.value.index then Some(prev.value.index[key]) else None;
        } else {
          var extra := prev.value.dups[key];
          p := if n - 1 < |extra| then Some(extra[n - 1]) else None;
        }
        PlaceInKey(prev.value, key, m, p);
        dupCursor := dupCursor[key := n + 1];
      } else {
        p := if key in prev.value.index then Some(prev.value.index[key]) else None;
        OnlyPlace(prev.value, key, m, p);
      }
      if p.Some? {
        TakenIffEarlier(seen, key, m, p.value);
        if p.value in used {
          p := None;
        }
      }
    }

    /** The row chosen for a key that repeats is the one at the place, if there is one. */
    lemma PlaceInKey(s: Snapshot, key: PkKey, m: nat, p: Option<nat>)
      requires ValidSnapshot(s, pk) && key in s.dups
      requires p == if m == 0 then (if key in s.index then Some(s.index[key]) else None)
                    else if m - 1 < |s.dups[key]| then Some(s.dups[key][m - 1]) else None
      ensures forall q: nat :: p == Some(q) <==> IsNth(s.rows, pk, key, m, q)
    {
      hide KeyOf, HasKey, IsNth, Count, AllHold, ValidIndex;
      assert key in s.index && KeyInOrder(s, pk, key);
      forall q: nat | IsNth(s.rows, pk, key, m, q) ensures p == Some(q) {
        NthIsBelow(s.rows, pk, key, m, q);
        if p.Some? {
          NthIsOne(s.rows, pk, key, m, p.value, q);
        }
      }
    }

    /** A key that does not repeat has a row at the first place only. */
    lemma OnlyPlace(s: Snapshot, key: PkKey, m: nat, p: Option<nat>)
      requires ValidSnapshot(s, pk) && key !in s.dups
      requires p == if key in s.index then Some(s.index[key]) else None
      ensures p.Some? ==> IsNth(s.rows, pk, key, 0, p.value)
      ensures forall q: nat :: IsNth(s.rows, pk, key, m, q) ==> m == 0 && p == Some(q)
    {
      hide KeyOf, HasKey, IsNth, Count, HoldsKey;
      if p.Some? {
        assert KeyInOrder(s, pk, key);
      }
      forall q: nat | IsNth(s.rows, pk, key, m, q) ensures m == 0 && p == Some(q) {
        NthIsBelow(s.rows, pk, key, m, q);
        CountIsHas(s.rows, pk, key);
        NthIsOne(s.rows, pk, key, 0, s.index[key], q);
      }
    }

    /** A previous row of the key is taken if and only if its place is among those of the rows seen. */
    lemma TakenIffEarlier(seen: seq<Row>, key: PkKey, m: nat, q: nat)
      requires prev.Some? && Faithfully(seen) && m == Count(seen, pk, key)
      ensures forall n: nat :: IsNth(PrevRows(), pk, key, n, q) && q in used ==> n < m
      ensures IsNth(PrevRows(), pk, key, 0, q) && m > 0 ==> q in used
    {
      hide KeyOf, HasKey, IsNth, Count, ValidSnapshot, PairedByPlace, FaithfulItems, Built, ValidRuns;
      MatchedIsPaired(Built());
      forall n: nat | IsNth(PrevRows(), pk, key, n, q) && q in used ensures n < m {
        NthPlace(PrevRows(), pk, key, n, q);
        TakenWasEarlier(PrevRows(), seen, pk, PairsOf(Built()), key, q);
      }
      if IsNth(PrevRows(), pk, key, 0, q) && m > 0 {
        FirstIsTaken(PrevRows(), seen, pk, PairsOf(Built()), key, q);
      }
    }

    method Observe(row: Row)
      requires Valid()
      modifies this
      ensures Valid() && observed == old(observed) + [row]
    {
      hide ValidSnapshot, KeyOf, HasKey, Faithfully, CursorSeen;
      ghost var seen := observed;
      SeeRow(row);
      if prev.Some? {
        PairRow(row, seen);
      }
    }

    /** The row is paired with a previous one and joins the runs. */
    method PairRow(row: Row, ghost seen: seq<Row>)
      requires prev.Some? && Faithfully(seen) && CursorSeen(seen)
      modifies `dupCursor, `used, `usedCount, `runs, `keep, `pendingPrev, `pendingRows, `added, `changed
      ensures Faithfully(seen + [row]) && CursorSeen(seen + [row])
    {
      hide ValidSnapshot, KeyOf, HasKey, HoldsKey, FaithfulItem, FaithfulItems, AllRuns, Items, Matched, AddedAt,
           ChangedAt, ItemFor, PairedByPlace, IsNth, Count, PairsOf, Cursor, Compact, InPlace, ValidRuns, Built;
      var key := KeyOf(row, pk);
      ghost var items := Built();
      var p := MatchKey(key, seen);
      CountsPush(seen, row);
      PairMeans(seen, row, p);
      ItemJoins(seen, row, p, items);
      PairsPush(items, p, row);
      PairPush(PrevRows(), seen, pk, PairsOf(items), row, p);
      InRangeIfHeld(p, key);
      if p.Some? {
        used := used + {p.value};
        usedCount := usedCount + 1;
        if prev.value.rows[p.value] != row {
          changed := changed + 1;
        }
      } else {
        added := added + 1;
      }
      Place(p, row);
    }

    lemma CountsPush(seen: seq<Row>, row: Row)
      ensures forall key ::
              Count(seen + [row], pk, key) == Count(seen, pk, key) + if key == KeyOf(row, pk) then 1 else 0
    {
      hide KeyOf, Count;
      forall key ensures Count(seen + [row], pk, key) == Count(seen, pk, key) + if key == KeyOf(row, pk) then 1 else 0 {
        CountPush(seen, row, pk, key);
      }
    }

    /** What the pairing of a row says about its key. */
    lemma PairMeans(seen: seq<Row>, row: Row, p: Option<nat>)
      requires prev.Some?
      requires forall q: nat :: p == Some(q) <==>
               IsNth(PrevRows(), pk, KeyOf(row, pk), Count(seen, pk, KeyOf(row, pk)), q)
      ensures p.Some? ==> HoldsKey(PrevRows(), pk, p.value, KeyOf(row, pk))
      ensures p.None? ==> !HasKey(PrevRows(), pk, KeyOf(row, pk)) || HasKey(seen, pk, KeyOf(row, pk))
    {
      hide KeyOf, HasKey, Count;
      var key := KeyOf(row, pk);
      CountIsHas(PrevRows(), pk, key);
      CountIsHas(seen, pk, key);
      if p.None? && HasKey(PrevRows(), pk, key) && Count(seen, pk, key) == 0 {
        var q := NthExists(PrevRows(), pk, key, 0);
      }
      if p.Some? {
        assert IsNth(PrevRows(), pk, key, Count(seen, pk, key), p.value);
      }
    }

    lemma PairsPush(items: seq<Item>, p: Option<nat>, row: Row)
      ensures PairsOf(items + [ItemFor(p, row)]) == PairsOf(items) + [p]
    {
    }

    lemma InRangeIfHeld(p: Option<nat>, key: PkKey)
      ensures p.Some? && HoldsKey(PrevRows(), pk, p.value, key) ==> p.value < |PrevRows()|
    {
    }

    ghost function ItemFor(p: Option<nat>, row: Row): Item {
      Item(row, p, p.Some? && p.value < |PrevRows()| && PrevRows()[p.value] == row)
    }

    /** An unchanged row extends or starts a copied run; a changed or added one joins the rows sent in full. */
    method Place(p: Option<nat>, row: Row)
      requires prev.Some? && ValidRuns() && Compact() && (p.Some? ==> p.value < |PrevRows()|)
      modifies `runs, `keep, `pendingPrev, `pendingRows
      ensures ValidRuns() && Built() == old(Built()) + [ItemFor(p, row)] && Compact()
    {
      if p.Some? && prev.value.rows[p.value] == row {
        AddKept(p.value);
      } else {
        AddSent(p, row);
      }
    }

    lemma ItemJoins(seen: seq<Row>, row: Row, p: Option<nat>, items: seq<Item>)
      requires prev.Some? && FaithfulItems(PrevRows(), seen, pk, items)
      requires p.Some? ==> p.value !in Matched(items) && HoldsKey(PrevRows(), pk, p.value, KeyOf(row, pk))
      requires p.None? ==>
                 !HasKey(PrevRows(), pk, KeyOf(row, pk)) || HasKey(seen, pk, KeyOf(row, pk)) ||
                 exists q :: q in Matched(items) && HoldsKey(PrevRows(), pk, q, KeyOf(row, pk))
      ensures FaithfulItems(PrevRows(), seen + [row], pk, items + [ItemFor(p, row)])
      ensures Matched(items + [ItemFor(p, row)]) == Matched(items) + if p.Some? then {p.value} else {}
      ensures |AddedAt(items + [ItemFor(p, row)])| == |AddedAt(items)| + if p.None? then 1 else 0
      ensures |Matched(items + [ItemFor(p, row)])| == |Matched(items)| + if p.Some? then 1 else 0
      ensures |ChangedAt(items + [ItemFor(p, row)])| ==
              |ChangedAt(items)| + if p.Some? && p.value < |PrevRows()| && PrevRows()[p.value] != row then 1 else 0
    {
      hide KeyOf, HasKey, FaithfulItem, FaithfulItems, AddedAt, Matched, ChangedAt;
      ChangedAtPush(items, ItemFor(p, row));
      InRangeIfHeld(p, KeyOf(row, pk));
      NewItemIsFaithful(seen, row, ItemFor(p, row), items, Matched(items));
      FaithfulPush(PrevRows(), seen, pk, items, row, ItemFor(p, row));
      SetsPush(items, ItemFor(p, row));
    }

    lemma NewItemIsFaithful(seen: seq<Row>, row: Row, item: Item, items: seq<Item>, taken: set<nat>)
      requires prev.Some? && item.row == row && FaithfulItems(PrevRows(), seen, pk, items) && taken == Matched(items)
      requires item.prev.Some? ==> HoldsKey(PrevRows(), pk, item.prev.value, KeyOf(row, pk))
      requires item.kept ==> item.prev.Some?
      requires item.prev.Some? && item.prev.value < |PrevRows()| ==> (item.kept <==> PrevRows()[item.prev.value] == row)
      requires item.prev.None? ==>
                 !HasKey(PrevRows(), pk, KeyOf(row, pk)) || HasKey(seen, pk, KeyOf(row, pk)) ||
                 exists q :: q in taken && HoldsKey(PrevRows(), pk, q, KeyOf(row, pk))
      ensures FaithfulItem(PrevRows(), seen + [row], pk, item, |seen|)
    {
      hide KeyOf;
      var next, key := seen + [row], KeyOf(row, pk);
      assert forall m :: 0 <= m < |seen| ==> next[m] == seen[m];
      if item.prev.None? && HasKey(PrevRows(), pk, key) {
        if q :| q in taken && HoldsKey(PrevRows(), pk, q, key) {
          var n :| 0 <= n < |items| && items[n].prev.Some? && items[n].prev.value == q;
          assert FaithfulItem(PrevRows(), seen, pk, items[n], n);
          assert KeyOf(next[n], pk) == key;
        } else {
          var n :| 0 <= n < |seen| && KeyOf(seen[n], pk) == key;
          assert KeyOf(next[n], pk) == key;
        }
      }
    }

    /** The patch against the previous result, and the snapshot the next refresh compares with. */
    method Finish() returns (next: Option<Snapshot>, patch: Option<Patch>)
      requires Valid()
      modifies this
      ensures next.Some? <==> |observed| <= MAX_SNAPSHOT_ROWS
      ensures next.Some? ==> next.value.rows == observed && ValidSnapshot(next.value, pk)
      ensures patch.Some? <==> prev.Some?
      ensures patch.Some? ==> Faithful(PrevRows(), observed, pk, patch.value)
      ensures patch.Some? && !patch.value.isSame ==>
                PairedByPlace(PrevRows(), observed, pk, PairsOf(Items(PrevRows(), patch.value.runs)))
      ensures patch.Some? ==> (patch.value.isSame <==> PrevRows() == observed)
      ensures observed == old(observed)
    {
      hide ValidSnapshot, KeyOf, HasKey, FaithfulItem, FaithfulItems, Items, Matched, PairedByPlace, InPlace;
      next := if overflow then None else Some(snapshot);
      patch := None;
      if prev.Some? {
        ghost var items := Built();
        if PrevRows() == observed {
          SameIsInPlace(observed, pk, items);
          ItemsAreRows(observed, items);
        }
        FlushKeep();
        FlushRows();
        assert AllRuns() == runs;
        var count := |prev.value.rows|;
        MatchedFits(PrevRows(), observed, pk, items);
        var removed := count - usedCount;
        var isSame := removed == 0 && total == count &&
                      (runs == [] || (|runs| == 1 && runs[0].Keep? && runs[0].from == 0 && runs[0].count == count));
        if isSame {
          SameRows(PrevRows(), observed, pk, runs);
        }
        patch := Some(Patch(total, isSame, removed, added, changed, if isSame then [] else runs));
      }
    }
  }

  lemma ItemsAreRows(rows: seq<Row>, items: seq<Item>)
    requires exists prev: seq<Row>, pk: seq<nat> :: FaithfulItems(prev, rows, pk, items)
    ensures |items| == |rows|
  {
  }

  lemma MatchedFits(prev: seq<Row>, next: seq<Row>, pk: seq<nat>, items: seq<Item>)
    requires FaithfulItems(prev, next, pk, items)
    ensures |Matched(items)| <= |prev|
  {
    hide KeyOf;
    CountBelow(|prev|);
    forall p | p in Matched(items) ensures p in Below(|prev|) {
      var n :| 0 <= n < |items| && items[n].prev.Some? && items[n].prev.value == p;
      assert FaithfulItem(prev, next, pk, items[n], n);
    }
    SubsetIsSmaller(Matched(items), Below(|prev|));
  }

  lemma SubsetIsSmaller<T>(a: set<T>, b: set<T>)
    requires a <= b
    ensures |a| <= |b|
  {
    assert b == a + (b - a);
    assert |b| == |a| + |b - a|;
  }

  /** No run at all, or one that copies everything, rebuilds the previous rows. */
  lemma SameRows(prev: seq<Row>, next: seq<Row>, pk: seq<nat>, runs: seq<Run>)
    requires AllInRange(prev, runs) && FaithfulItems(prev, next, pk, Items(prev, runs)) && |next| == |prev|
    requires runs == [] || (|runs| == 1 && runs[0].Keep? && runs[0].from == 0 && runs[0].count == |prev|)
    ensures prev == next && AddedAt(Items(prev, runs)) == {} && ChangedAt(Items(prev, runs)) == {}
  {
    ItemsOfNone(prev, runs);
    hide Items, FaithfulItem, FaithfulItems;
    if runs == [] {
      assert runs[..0] == runs;
      NothingSeen(prev, next, pk);
    } else {
      hide RunItem, AddedAt, ChangedAt;
      assert runs == [Keep(0, |prev|)];
      WholeRun(prev);
      KeptInPlace(prev, next, pk, Items(prev, runs));
    }
  }

  lemma NothingSeen(prev: seq<Row>, next: seq<Row>, pk: seq<nat>)
    requires FaithfulItems(prev, next, pk, []) && |next| == |prev|
    ensures prev == next
  {
  }

  lemma WholeRun(prev: seq<Row>)
    ensures AllInRange(prev, [Keep(0, |prev|)])
    ensures var items := Items(prev, [Keep(0, |prev|)]);
            forall n :: 0 <= n < |items| ==> items[n].kept && items[n].prev == Some(n)
  {
    var run := Keep(0, |prev|);
    OneRun(prev, run);
    hide Items, RunItems;
    forall n | 0 <= n < |prev| ensures RunItems(prev, run)[n].kept && RunItems(prev, run)[n].prev == Some(n) {
      KeptItem(prev, n);
    }
  }

  lemma OneRun(prev: seq<Row>, run: Run)
    requires InRange(prev, run)
    ensures AllInRange(prev, [run]) && Items(prev, [run]) == RunItems(prev, run)
  {
    assert Items(prev, []) == [];
    hide Items, RunItems, RunItem;
    ItemsPush(prev, [], run);
    assert [] + [run] == [run] && [] + RunItems(prev, run) == RunItems(prev, run);
  }

  lemma KeptItem(prev: seq<Row>, n: nat)
    requires n < |prev|
    ensures RunItems(prev, Keep(0, |prev|))[n].kept && RunItems(prev, Keep(0, |prev|))[n].prev == Some(n)
  {
  }

  lemma KeptInPlace(prev: seq<Row>, next: seq<Row>, pk: seq<nat>, items: seq<Item>)
    requires FaithfulItems(prev, next, pk, items) && |next| == |prev|
    requires forall n :: 0 <= n < |items| ==> items[n].kept && items[n].prev == Some(n)
    ensures prev == next && AddedAt(items) == {} && ChangedAt(items) == {}
  {
    hide KeyOf, HasKey;
    forall n | 0 <= n < |next| ensures prev[n] == next[n] {
      assert FaithfulItem(prev, next, pk, items[n], n);
    }
  }
}
