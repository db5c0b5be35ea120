/** The difference between two results of the same query, rows paired by primary key. */
module ResultDiff {
  import opened Common

  /** A value knows its kind (number, string, boolean) and the text it is shown as. */
  datatype Cell = Null | Value(kind: nat, text: string)

  type Row = seq<Cell>

  /** A column a row does not have reads as undefined, which counts as NULL. */
  function At(row: Row, column: nat): Cell { if column < |row| then row[column] else Null }

  predicate ValuesEqual(a: Cell, b: Cell) {
    if a == b then true
    else if a.Null? then b.Null?
    else if b.Null? then false
    else a.text == b.text
  }

  type PkKey = seq<Cell>

  function KeyOf(row: Row, pk: seq<nat>): PkKey { seq(|pk|, i requires 0 <= i < |pk| => At(row, pk[i])) }

  predicate UniqueKeys(rows: seq<Row>, pk: seq<nat>) {
    forall i, j :: 0 <= i < j < |rows| ==> KeyOf(rows[i], pk) != KeyOf(rows[j], pk)
  }

  ghost predicate HasKey(rows: seq<Row>, pk: seq<nat>, key: PkKey) {
    exists i :: 0 <= i < |rows| && KeyOf(rows[i], pk) == key
  }

  datatype RowDiff = RowDiff(changedCells: seq<seq<bool>>, addedRows: set<nat>, removedCount: nat, hasChanges: bool)

  function NoFlags(columns: nat): seq<bool> { seq(columns, _ => false) }

  function FlagsOf(prevRow: Row, row: Row, columns: nat): seq<bool> {
    seq(columns, c requires 0 <= c < columns => !ValuesEqual(At(prevRow, c), At(row, c)))
  }

  /** The text a row shows in a column, if any. */
  function ShownText(row: Row, column: nat): Option<string> {
    if column >= |row| then None else match row[column] case Null => None case Value(_, text) => Some(text)
  }

  /** A cell is flagged exactly when what it shows has changed; missing cells and NULL show nothing. */
  lemma FlagsAreTold(prevRow: Row, row: Row, columns: nat, c: nat)
    requires c < columns
    ensures |FlagsOf(prevRow, row, columns)| == columns
    ensures FlagsOf(prevRow, row, columns)[c] <==> ShownText(prevRow, c) != ShownText(row, c)
  {
  }

  /** Keys agree exactly when the rows hold the same values in all key columns, missing ones being NULL. */
  lemma KeysAreTold(a: Row, b: Row, pk: seq<nat>)
    ensures KeyOf(a, pk) == KeyOf(b, pk) <==>
            forall i :: 0 <= i < |pk| ==>
              (if pk[i] < |a| then a[pk[i]] else Null) == (if pk[i] < |b| then b[pk[i]] else Null)
  {
    var k, l := KeyOf(a, pk), KeyOf(b, pk);
    forall i | 0 <= i < |pk|
      ensures k[i] == l[i] <==> (if pk[i] < |a| then a[pk[i]] else Null) == (if pk[i] < |b| then b[pk[i]] else Null)
    {
    }
    if k == l {
      assert forall i :: 0 <= i < |pk| ==> k[i] == l[i];
    }
  }

  // --- what the difference is, said without the algorithm ---

  /** The previous row a key is paired with: the last one that has it. */
  ghost predicate IsPair(prev: seq<Row>, pk: seq<nat>, key: PkKey, p: Option<nat>) {
    match p
    case None => !HasKey(prev, pk, key)
    case Some(i) => i < |prev| && KeyOf(prev[i], pk) == key && forall j :: i < j < |prev| ==> KeyOf(prev[j], pk) != key
  }

  lemma PairIsUnique(prev: seq<Row>, pk: seq<nat>, key: PkKey, p: Option<nat>, q: Option<nat>)
    requires IsPair(prev, pk, key, p) && IsPair(prev, pk, key, q)
    ensures p == q
  {
  }

  /** Previous rows no row of the next result is paired with. */
  ghost function Unpaired(prev: seq<Row>, next: seq<Row>, pk: seq<nat>): set<nat> {
    set i: nat | i < |prev| && !exists n :: 0 <= n < |next| && IsPair(prev, pk, KeyOf(next[n], pk), Some(i))
  }

  ghost function Added(prev: seq<Row>, next: seq<Row>, pk: seq<nat>): set<nat> {
    set n: nat | n < |next| && !HasKey(prev, pk, KeyOf(next[n], pk))
  }

  /** The flags of one row of the next result against the row it is paired with. */
  ghost predicate RowFlags(prev: seq<Row>, row: Row, pk: seq<nat>, columns: nat, flags: seq<bool>) {
    exists p: Option<nat> :: IsPair(prev, pk, KeyOf(row, pk), p) &&
                flags == if p.None? then NoFlags(columns) else FlagsOf(prev[p.value], row, columns)
  }

  predicate AnyFlag(cells: seq<seq<bool>>) { exists i, c :: 0 <= i < |cells| && 0 <= c < |cells[i]| && cells[i][c] }

  /** Without primary key columns no difference is reported; with them, exactly the one between paired rows. */
  ghost predicate IsDiff(prev: seq<Row>, next: seq<Row>, pk: seq<nat>, columns: nat, d: RowDiff) {
    if pk == [] then d == RowDiff(seq(|next|, _ => NoFlags(columns)), {}, 0, false)
    else
      && |d.changedCells| == |next|
      && (forall n :: 0 <= n < |next| ==> RowFlags(prev, next[n], pk, columns, d.changedCells[n]))
      && d.addedRows == Added(prev, next, pk)
      && d.removedCount == |Unpaired(prev, next, pk)|
      && d.hasChanges == (AnyFlag(d.changedCells) || d.addedRows != {} || d.removedCount > 0)
  }

  lemma RowFlagsAreUnique(prev: seq<Row>, row: Row, pk: seq<nat>, columns: nat, f: seq<bool>, g: seq<bool>)
    requires RowFlags(prev, row, pk, columns, f) && RowFlags(prev, row, pk, columns, g)
    ensures f == g
  {
    var key := KeyOf(row, pk);
    var p: Option<nat> :|
      IsPair(prev, pk, key, p) &&
      f == if p.None? then NoFlags(columns) else FlagsOf(prev[p.value], row, columns);
    var q: Option<nat> :|
      IsPair(prev, pk, key, q) &&
      g == if q.None? then NoFlags(columns) else FlagsOf(prev[q.value], row, columns);
    PairIsUnique(prev, pk, key, p, q);
  }

  /** There is one difference between two results, so whatever satisfies the description is what the program reports. */
  lemma DiffIsUnique(prev: seq<Row>, next: seq<Row>, pk: seq<nat>, columns: nat, d: RowDiff, e: RowDiff)
    requires IsDiff(prev, next, pk, columns, d) && IsDiff(prev, next, pk, columns, e)
    ensures d == e
  {
    hide RowFlags;
    if pk != [] {
      forall n | 0 <= n < |next| ensures d.changedCells[n] == e.changedCells[n] {
        RowFlagsAreUnique(prev, next[n], pk, columns, d.changedCells[n], e.changedCells[n]);
      }
      assert d.changedCells == e.changedCells;
    }
  }

  // --- the algorithm ---

  /** The cells of a row that differ; None if all agree, so that rows without changes can share one array. */
  method ChangedFlags(prevRow: Row, row: Row, columns: nat) returns (flags: Option<seq<bool>>)
    ensures flags.None? ==> FlagsOf(prevRow, row, columns) == NoFlags(columns)
    ensures flags.Some? ==> flags.value == FlagsOf(prevRow, row, columns)
    ensures flags.Some? ==> exists c :: 0 <= c < columns && flags.value[c]
  {
    flags := None;
    for c := 0 to columns
      invariant flags.None? ==> forall k :: 0 <= k < c ==> ValuesEqual(At(prevRow, k), At(row, k))
      invariant flags.Some? ==> |flags.value| == columns && exists k :: 0 <= k < c && flags.value[k]
      invariant flags.Some? ==> forall k :: 0 <= k < columns ==>
                flags.value[k] == (k < c && !ValuesEqual(At(prevRow, k), At(row, k)))
    {
      if !ValuesEqual(At(prevRow, c), At(row, c)) {
        if flags.None? {
          flags := Some(NoFlags(columns));
        }
        flags := Some(flags.value[c := true]);
        assert flags.value[c];
      }
    }
  }

  method IndexByKey(prev: seq<Row>, pk: seq<nat>) returns (byPk: map<PkKey, nat>)
    ensures forall key :: IsPair(prev, pk, key, if key in byPk then Some(byPk[key]) else None)
  {
    byPk := map[];
    for i := 0 to |prev|
      invariant forall key :: IsPair(prev[..i], pk, key, if key in byPk then Some(byPk[key]) else None)
    {
      ghost var before := byPk;
      byPk := byPk[KeyOf(prev[i], pk) := i];
      forall key ensures IsPair(prev[..i + 1], pk, key, if key in byPk then Some(byPk[key]) else None) {
        PairAppend(prev[..i], prev[i], pk, key, if key in before then Some(before[key]) else None);
        assert prev[..i + 1] == prev[..i] + [prev[i]];
      }
    }
    assert prev[..|prev|] == prev;
  }

  lemma PairAppend(prev: seq<Row>, row: Row, pk: seq<nat>, key: PkKey, p: Option<nat>)
    requires IsPair(prev, pk, key, p)
    ensures IsPair(prev + [row], pk, key, if KeyOf(row, pk) == key then Some(|prev|) else p)
  {
    var more := prev + [row];
    assert more[|prev|] == row;
    assert forall i :: 0 <= i < |prev| ==> more[i] == prev[i];
  }

  method DiffResultRows(prev: seq<Row>, next: seq<Row>, pk: seq<nat>, columns: nat) returns (d: RowDiff)
    ensures IsDiff(prev, next, pk, columns, d)
  {
    hide KeyOf, IsPair, HasKey, RowFlags;
    var changedCells := seq(|next|, _ => NoFlags(columns));
    if pk == [] {
      return RowDiff(changedCells, {}, 0, false);
    }
    var prevByPk := IndexByKey(prev, pk);
    var addedRows: set<nat>, matchedPrev: set<nat> := {}, {};
    var anyCellChanged := false;
    for n := 0 to |next|
      invariant |changedCells| == |next| && forall k :: n <= k < |next| ==> changedCells[k] == NoFlags(columns)
      invariant Scanned(prev, next, pk, columns, n, changedCells, addedRows, matchedPrev, anyCellChanged)
    {
      var key := KeyOf(next[n], pk);
      if key !in prevByPk {
        ScannedAdded(prev, next, pk, columns, n, changedCells, addedRows, matchedPrev, anyCellChanged);
        addedRows := addedRows + {n};
      } else {
        var p := prevByPk[key];
        assert IsPair(prev, pk, key, Some(p));
        PairInRange(prev, pk, key, p);
        var flags := ChangedFlags(prev[p], next[n], columns);
        ScannedPaired(prev, next, pk, columns, n, changedCells, addedRows, matchedPrev, anyCellChanged, p);
        matchedPrev := matchedPrev + {p};
        if flags.Some? {
          changedCells := changedCells[n := flags.value];
          anyCellChanged := true;
        } else {
          assert changedCells[n := NoFlags(columns)] == changedCells;
        }
      }
    }
    var removedCount := CountOutside(|prev|, matchedPrev);
    ScannedAll(prev, next, pk, columns, changedCells, addedRows, matchedPrev, anyCellChanged);
    d := RowDiff(changedCells, addedRows, removedCount, anyCellChanged || addedRows != {} || removedCount > 0);
  }

  /** How many of the first `n` positions are not in `matched`. */
  method CountOutside(n: nat, matched: set<nat>) returns (count: nat)
    ensures count == |set i: nat | i < n && i !in matched|
  {
    count := 0;
    for i := 0 to n
      invariant count == |set j: nat | j < i && j !in matched|
    {
      ghost var before, after := (set j: nat | j < i && j !in matched), (set j: nat | j < i + 1 && j !in matched);
      assert after == if i in matched then before else before + {i};
      if i !in matched {
        count := count + 1;
      }
    }
  }

  /** After `n` rows of the next result. */
  ghost predicate Scanned(prev: seq<Row>, next: seq<Row>, pk: seq<nat>, columns: nat, n: nat,
                          changed: seq<seq<bool>>, added: set<nat>, matched: set<nat>, any: bool)
  {
    && n <= |next| == |changed|
    && (forall k :: 0 <= k < n ==> RowFlags(prev, next[k], pk, columns, changed[k]))
    && (forall k :: k in added <==> 0 <= k < n && !HasKey(prev, pk, KeyOf(next[k], pk)))
    && (forall p :: p in matched <==> exists k :: 0 <= k < n && IsPair(prev, pk, KeyOf(next[k], pk), Some(p)))
    && any == AnyFlag(changed[..n])
  }

  lemma PairInRange(prev: seq<Row>, pk: seq<nat>, key: PkKey, p: nat)
    requires IsPair(prev, pk, key, Some(p))
    ensures p < |prev| && HasKey(prev, pk, key)
  {
  }

  lemma AnyFlagAppend(cells: seq<seq<bool>>, flags: seq<bool>)
    ensures AnyFlag(cells + [flags]) <==> AnyFlag(cells) || exists c :: 0 <= c < |flags| && flags[c]
  {
    var more := cells + [flags];
    if AnyFlag(cells) {
      var i, c :| 0 <= i < |cells| && 0 <= c < |cells[i]| && cells[i][c];
      assert more[i][c];
    }
    if c :| 0 <= c < |flags| && flags[c] {
      assert more[|cells|][c];
    }
  }

  lemma ScannedAdded(prev: seq<Row>, next: seq<Row>, pk: seq<nat>, columns: nat, n: nat,
                     changed: seq<seq<bool>>, added: set<nat>, matched: set<nat>, any: bool)
    requires Scanned(prev, next, pk, columns, n, changed, added, matched, any) && n < |next|
    requires IsPair(prev, pk, KeyOf(next[n], pk), None) && changed[n] == NoFlags(columns)
    ensures Scanned(prev, next, pk, columns, n + 1, changed, added + {n}, matched, any)
  {
    hide KeyOf, HasKey;
    assert changed[..n + 1] == changed[..n] + [changed[n]];
    AnyFlagAppend(changed[..n], changed[n]);
    assert RowFlags(prev, next[n], pk, columns, changed[n]);
    forall p ensures !IsPair(prev, pk, KeyOf(next[n], pk), Some(p)) {
      if IsPair(prev, pk, KeyOf(next[n], pk), Some(p)) {
        PairInRange(prev, pk, KeyOf(next[n], pk), p);
      }
    }
  }

  lemma ScannedPaired(prev: seq<Row>, next: seq<Row>, pk: seq<nat>, columns: nat, n: nat,
                      changed: seq<seq<bool>>, added: set<nat>, matched: set<nat>, any: bool, p: nat)
    requires Scanned(prev, next, pk, columns, n, changed, added, matched, any) && n < |next|
    requires IsPair(prev, pk, KeyOf(next[n], pk), Some(p)) && p < |prev|
    ensures var flags := FlagsOf(prev[p], next[n], columns);
            Scanned(prev, next, pk, columns, n + 1, changed[n := flags], added, matched + {p},
                    any || exists c :: 0 <= c < columns && flags[c])
  {
    hide KeyOf, HasKey, ValuesEqual, At;
    var flags := FlagsOf(prev[p], next[n], columns);
    var now := changed[n := flags];
    assert now[..n + 1] == changed[..n] + [flags];
    AnyFlagAppend(changed[..n], flags);
    assert RowFlags(prev, next[n], pk, columns, now[n]);
    PairInRange(prev, pk, KeyOf(next[n], pk), p);
    forall q | IsPair(prev, pk, KeyOf(next[n], pk), Some(q)) ensures q == p {
      PairIsUnique(prev, pk, KeyOf(next[n], pk), Some(p), Some(q));
    }
  }

  lemma ScannedAll(prev: seq<Row>, next: seq<Row>, pk: seq<nat>, columns: nat,
                   changed: seq<seq<bool>>, added: set<nat>, matched: set<nat>, any: bool)
    requires Scanned(prev, next, pk, columns, |next|, changed, added, matched, any)
    ensures added == Added(prev, next, pk) && any == AnyFlag(changed)
    ensures (set i: nat | i < |prev| && i !in matched) == Unpaired(prev, next, pk)
  {
    hide KeyOf, IsPair, HasKey, RowFlags;
    assert changed[..|next|] == changed;
  }

  // --- removed rows ---

  /** The previous rows whose key the next result does not have, in the previous order. */
  ghost function RemovedRows(prev: seq<Row>, next: seq<Row>, pk: seq<nat>): seq<Row> {
    if prev == [] then []
    else
      var rest := RemovedRows(prev[..|prev| - 1], next, pk);
      if HasKey(next, pk, KeyOf(prev[|prev| - 1], pk)) then rest else rest + [prev[|prev| - 1]]
  }

  method RemovedPrevRows(prev: seq<Row>, next: seq<Row>, pk: seq<nat>, limit: int) returns (out: seq<Row>)
    ensures pk == [] ==> out == []
    ensures pk != [] ==>
              var all := RemovedRows(prev, next, pk);
              out == if |all| <= limit || |all| <= 1 then all else all[..if limit < 1 then 1 else limit]
  {
    if pk == [] {
      return [];
    }
    hide KeyOf;
    var nextKeys: set<PkKey> := {};
    for i := 0 to |next|
      invariant forall key :: key in nextKeys <==> exists j :: 0 <= j < i && KeyOf(next[j], pk) == key
    {
      nextKeys := nextKeys + {KeyOf(next[i], pk)};
    }
    out := [];
    for i := 0 to |prev|
      invariant out == RemovedRows(prev[..i], next, pk)
      invariant out == [] || |out| < limit
    {
      assert prev[..i + 1][..i] == prev[..i];
      if KeyOf(prev[i], pk) !in nextKeys {
        out := out + [prev[i]];
        if |out| >= limit {
          RemovedGrows(prev, next, pk, i + 1);
          return;
        }
      }
    }
    assert prev[..|prev|] == prev;
  }

  lemma {:induction false} RemovedGrows(prev: seq<Row>, next: seq<Row>, pk: seq<nat>, n: nat)
    requires n <= |prev|
    ensures RemovedRows(prev[..n], next, pk) <= RemovedRows(prev, next, pk)
  {
    if n == |prev| {
      assert prev[..n] == prev;
    } else {
      RemovedGrows(prev[..|prev| - 1], next, pk, n);
      assert prev[..|prev| - 1][..n] == prev[..n];
    }
  }

  /** Positions of previous rows whose key the next result does not have. */
  ghost function RemovedAt(prev: seq<Row>, next: seq<Row>, pk: seq<nat>): set<nat> {
    set i: nat | i < |prev| && !HasKey(next, pk, KeyOf(prev[i], pk))
  }

  lemma {:induction false} RemovedRowsCount(prev: seq<Row>, next: seq<Row>, pk: seq<nat>)
    ensures |RemovedRows(prev, next, pk)| == |RemovedAt(prev, next, pk)|
  {
    hide HasKey, KeyOf;
    if prev != [] {
      var n := |prev| - 1;
      RemovedRowsCount(prev[..n], next, pk);
      var before := RemovedAt(prev[..n], next, pk);
      assert RemovedAt(prev, next, pk) == if HasKey(next, pk, KeyOf(prev[n], pk)) then before else before + {n};
    }
  }

  /** A row another row with the same key follows, so that the next row with that key is paired with the later one. */
  predicate Shadowed(prev: seq<Row>, pk: seq<nat>, i: nat) {
    i < |prev| && exists j :: i < j < |prev| && KeyOf(prev[j], pk) == KeyOf(prev[i], pk)
  }

  lemma PairedOrShadowed(prev: seq<Row>, next: seq<Row>, pk: seq<nat>, i: nat)
    requires i < |prev|
    ensures i in Unpaired(prev, next, pk) <==>
            i in RemovedAt(prev, next, pk) || Shadowed(prev, pk, i)
  {
    hide KeyOf;
    var key := KeyOf(prev[i], pk);
    assert IsPair(prev, pk, key, Some(i)) <==> !Shadowed(prev, pk, i);
    if HasKey(next, pk, key) {
      var n :| 0 <= n < |next| && KeyOf(next[n], pk) == key;
      assert IsPair(prev, pk, KeyOf(next[n], pk), Some(i)) <==> !Shadowed(prev, pk, i);
    }
  }

  /**
   * The removed rows listed in full are as many as the count says exactly when no previous row is hidden behind a
   * later one with the same key that the next result still has.
   */
  lemma RemovedRowsMatchCount(prev: seq<Row>, next: seq<Row>, pk: seq<nat>)
    ensures |RemovedRows(prev, next, pk)| == |Unpaired(prev, next, pk)| <==>
            forall i: nat :: i < |prev| && Shadowed(prev, pk, i) ==> !HasKey(next, pk, KeyOf(prev[i], pk))
  {
    hide HasKey, KeyOf, Shadowed;
    RemovedRowsCount(prev, next, pk);
    var removed, unpaired := RemovedAt(prev, next, pk), Unpaired(prev, next, pk);
    forall i: nat | i < |prev| ensures i in unpaired <==> i in removed || Shadowed(prev, pk, i) {
      PairedOrShadowed(prev, next, pk, i);
    }
    assert removed <= unpaired;
    if |removed| == |unpaired| {
      SubsetOfSameSize(removed, unpaired);
    }
    if forall i: nat :: i < |prev| && Shadowed(prev, pk, i) ==> !HasKey(next, pk, KeyOf(prev[i], pk)) {
      assert removed == unpaired;
    }
  }

  /** The exception is real: of two previous rows with one key the earlier is counted as removed, but not listed. */
  lemma RepeatedKeyIsMiscounted()
    ensures var row := [Value(0, "1")];
            |RemovedRows([row, row], [row], [0])| != |Unpaired([row, row], [row], [0])|
  {
    var row := [Value(0, "1")];
    RemovedRowsMatchCount([row, row], [row], [0]);
    assert Shadowed([row, row], [0], 0) by {
      assert KeyOf([row, row][1], [0]) == KeyOf([row, row][0], [0]);
    }
    assert HasKey([row], [0], KeyOf([row, row][0], [0])) by {
      assert KeyOf([row][0], [0]) == KeyOf([row, row][0], [0]);
    }
  }

  lemma {:induction false} SubsetOfSameSize<T>(a: set<T>, b: set<T>)
    requires a <= b && |a| == |b|
    ensures a == b
  {
    assert |b - a| == |b| - |a|;
    assert b == a + (b - a);
  }

  // --- what a difference means with unique keys ---

  /** Rows that stay: the next rows that were not added have the keys of the previous rows that were not removed. */
  lemma KeptRowsAgree(prev: seq<Row>, next: seq<Row>, pk: seq<nat>, columns: nat, d: RowDiff, key: PkKey)
    requires pk != [] && IsDiff(prev, next, pk, columns, d)
    ensures (exists n :: 0 <= n < |next| && n !in d.addedRows && KeyOf(next[n], pk) == key) <==>
            (exists i :: 0 <= i < |prev| && i !in RemovedAt(prev, next, pk) && KeyOf(prev[i], pk) == key)
  {
    hide KeyOf;
    if n :| 0 <= n < |next| && n !in d.addedRows && KeyOf(next[n], pk) == key {
      var i :| 0 <= i < |prev| && KeyOf(prev[i], pk) == key;
      assert i !in RemovedAt(prev, next, pk);
    }
    if i :| 0 <= i < |prev| && i !in RemovedAt(prev, next, pk) && KeyOf(prev[i], pk) == key {
      var n :| 0 <= n < |next| && KeyOf(next[n], pk) == key;
      assert n !in d.addedRows;
    }
  }

  lemma FlagIsSeen(cells: seq<seq<bool>>, i: nat, c: nat)
    requires i < |cells| && c < |cells[i]|
    ensures cells[i][c] ==> AnyFlag(cells)
  {
  }

  /** Some previous row has the key and all the values of the row. */
  ghost predicate HasEqual(prev: seq<Row>, row: Row, pk: seq<nat>, columns: nat) {
    exists p :: p in prev && KeyOf(p, pk) == KeyOf(row, pk) && FlagsOf(p, row, columns) == NoFlags(columns)
  }

  /** A report of no changes is right: every row has its equal, cell by cell, on the other side. */
  lemma NoChangesMeansEqual(prev: seq<Row>, next: seq<Row>, pk: seq<nat>, columns: nat, d: RowDiff)
    requires pk != [] && IsDiff(prev, next, pk, columns, d) && !d.hasChanges
    ensures forall n :: 0 <= n < |next| ==> HasEqual(prev, next[n], pk, columns)
    ensures forall i :: 0 <= i < |prev| ==> HasKey(next, pk, KeyOf(prev[i], pk))
  {
    hide KeyOf, ValuesEqual, At;
    forall n | 0 <= n < |next| ensures HasEqual(prev, next[n], pk, columns) {
      assert RowFlags(prev, next[n], pk, columns, d.changedCells[n]);
      var p: Option<nat> :|
        IsPair(prev, pk, KeyOf(next[n], pk), p) &&
        d.changedCells[n] == if p.None? then NoFlags(columns) else FlagsOf(prev[p.value], next[n], columns);
      assert n !in d.addedRows;
      assert p.Some?;
      forall c | 0 <= c < columns ensures !d.changedCells[n][c] {
        FlagIsSeen(d.changedCells, n, c);
      }
      assert prev[p.value] in prev;
    }
    forall i: nat | i < |prev| ensures HasKey(next, pk, KeyOf(prev[i], pk)) {
      assert i !in Unpaired(prev, next, pk);
      PairedOrShadowed(prev, next, pk, i);
    }
  }

  /** The rows the "changes only" view shows: those with a changed cell and those added. */
  method ChangedRowIndexSet(d: RowDiff, rowCount: nat) returns (out: set<nat>)
    ensures forall i :: i in out <==>
            i in d.addedRows || (0 <= i < rowCount && i < |d.changedCells| && true in d.changedCells[i])
  {
    out := d.addedRows;
    for i := 0 to rowCount
      invariant forall k :: k in out <==>
                k in d.addedRows || (0 <= k < i && k < |d.changedCells| && true in d.changedCells[k])
    {
      if i < |d.changedCells| && true in d.changedCells[i] {
        out := out + {i};
      }
    }
  }
}
