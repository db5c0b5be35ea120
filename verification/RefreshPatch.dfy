/**
 * Refresh patches: the builder that turns two results into runs, the reader that rebuilds the rows, and their agreement
 * with the full difference.
 */
module RefreshPatch {
  import opened Common
  import opened ResultDiff

  /** Rows copied from the previous result, or rows sent in full with the position of the row they replace. */
  datatype Run = Keep(from: nat, count: nat) | Rows(prev: seq<Option<nat>>, rows: seq<Row>)

  datatype Patch = Patch(totalRows: nat, isSame: bool, removedCount: nat, addedCount: nat, changedCount: nat,
                         runs: seq<Run>)

  /** One row of the rebuilt result, the previous position it stands for, and whether it was copied from there. */
  datatype Item = Item(row: Row, prev: Option<nat>, kept: bool)

  predicate InRange(prev: seq<Row>, run: Run) { run.Keep? ==> run.from + run.count <= |prev| }

  predicate AllInRange(prev: seq<Row>, runs: seq<Run>) { forall r :: r in runs ==> InRange(prev, r) }

  function PrevAt(positions: seq<Option<nat>>, i: nat): Option<nat> { if i < |positions| then positions[i] else None }

  function RunItem(prev: seq<Row>, run: Run, i: nat): Item
    requires InRange(prev, run) && i < RunLength(run)
  {
    match run
    case Keep(from, count) => Item(prev[from + i], Some(from + i), true)
    case Rows(positions, rows) => Item(rows[i], PrevAt(positions, i), false)
  }

  function RunLength(run: Run): nat { if run.Keep? then run.count else |run.rows| }

  function RunItems(prev: seq<Row>, run: Run): (items: seq<Item>)
    requires InRange(prev, run)
    ensures |items| == RunLength(run)
  {
    seq(RunLength(run), i requires 0 <= i < RunLength(run) => RunItem(prev, run, i))
  }

  /** The rows the runs stand for, in order. */
  function Items(prev: seq<Row>, runs: seq<Run>): seq<Item>
    requires AllInRange(prev, runs)
  {
    if runs == [] then []
    else Items(prev, runs[..|runs| - 1]) + RunItems(prev, runs[|runs| - 1])
  }

  function ItemFlags(prev: seq<Row>, item: Item, columns: nat): seq<bool> {
    if item.kept || item.prev.None? || item.prev.value >= |prev| then NoFlags(columns)
    else FlagsOf(prev[item.prev.value], item.row, columns)
  }

  /** The rows and flags of the items read so far. */
  ghost predicate Applied(prev: seq<Row>, items: seq<Item>, columns: nat, rows: seq<Row>, changed: seq<seq<bool>>,
                          added: set<nat>, any: bool)
  {
    && |rows| == |changed| == |items|
    && (forall k :: 0 <= k < |items| ==> rows[k] == items[k].row)
    && (forall k :: 0 <= k < |items| ==> changed[k] == ItemFlags(prev, items[k], columns))
    && (forall k :: k in added <==> 0 <= k < |items| && !items[k].kept && items[k].prev.None?)
    && any == AnyFlag(changed)
  }

  lemma AppliedStep(prev: seq<Row>, items: seq<Item>, columns: nat, rows: seq<Row>, changed: seq<seq<bool>>,
                    added: set<nat>, any: bool, item: Item)
    requires Applied(prev, items, columns, rows, changed, added, any)
    ensures var flags := ItemFlags(prev, item, columns);
            Applied(prev, items + [item], columns, rows + [item.row], changed + [flags],
                    if !item.kept && item.prev.None? then added + {|items|} else added,
                    any || exists c :: 0 <= c < |flags| && flags[c])
  {
    hide ItemFlags, AnyFlag;
    AnyFlagAppend(changed, ItemFlags(prev, item, columns));
  }

  method ApplyRefreshPatch(prev: seq<Row>, patch: Patch, columns: nat) returns (rows: seq<Row>, diff: RowDiff)
    requires AllInRange(prev, patch.runs)
    requires !patch.isSame ==> |Items(prev, patch.runs)| == patch.totalRows
    ensures IsApplied(prev, patch, columns, rows, diff)
  {
    if patch.isSame {
      SameIsApplied(prev, patch, columns);
      return prev, RowDiff([], {}, 0, false);
    }
    hide Filled, ItemFlags, AnyFlag, FlagsOf, NoFlags, Items, RunItem, Applied, IsApplied;
    rows := seq(patch.totalRows, _ => []);
    var changedCells := seq(patch.totalRows, _ => NoFlags(columns));
    var addedRows: set<nat> := {};
    var anyCellChanged := false;
    var pos := 0;
    FilledNothing(prev, columns, rows, changedCells);
    ItemsOfNone(prev, patch.runs);
    for r := 0 to |patch.runs|
      invariant AllInRange(prev, patch.runs[..r]) && pos == |Items(prev, patch.runs[..r])|
      invariant Filled(prev, Items(prev, patch.runs[..r]), columns, rows, changedCells, addedRows, anyCellChanged)
      invariant |rows| == patch.totalRows
    {
      ItemsPrefix(prev, patch.runs, r);
      rows, changedCells, addedRows, anyCellChanged, pos :=
        ReadRun(prev, patch.runs[r], columns, Items(prev, patch.runs[..r]), rows, changedCells, addedRows,
                anyCellChanged, pos);
    }
    assert patch.runs[..|patch.runs|] == patch.runs;
    FilledAll(prev, Items(prev, patch.runs), columns, rows, changedCells, addedRows, anyCellChanged);
    var hasChanges := anyCellChanged || addedRows != {} || patch.removedCount > 0;
    diff := RowDiff(changedCells, addedRows, patch.removedCount, hasChanges);
    PartsAreApplied(prev, patch, columns, rows, diff, anyCellChanged);
  }

  /** One run: rows copied from the previous result, or rows sent in full and compared with the rows they replace. */
  method ReadRun(prev: seq<Row>, run: Run, columns: nat, ghost before: seq<Item>,
                 rows0: seq<Row>, changed0: seq<seq<bool>>, added0: set<nat>, any0: bool, pos0: nat)
      returns (rows: seq<Row>, changedCells: seq<seq<bool>>, addedRows: set<nat>, anyCellChanged: bool, pos: nat)
    requires InRange(prev, run) && pos0 == |before| && |before| + RunLength(run) <= |rows0|
    requires Filled(prev, before, columns, rows0, changed0, added0, any0)
    ensures |rows| == |rows0| && pos == |before + RunItems(prev, run)|
    ensures Filled(prev, before + RunItems(prev, run), columns, rows, changedCells, addedRows, anyCellChanged)
  {
    hide Filled, ItemFlags, AnyFlag, FlagsOf, NoFlags, Items, RunItem, Applied, IsApplied;
    rows, changedCells, addedRows, anyCellChanged, pos := rows0, changed0, added0, any0, pos0;
    assert before + RunItems(prev, run)[..0] == before;
    for i := 0 to RunLength(run)
      invariant pos == |before| + i && |rows| == |rows0|
      invariant Filled(prev, before + RunItems(prev, run)[..i], columns, rows, changedCells, addedRows, anyCellChanged)
    {
      NextItem(prev, run, i, before);
      FilledStep(prev, before + RunItems(prev, run)[..i], columns, rows, changedCells, addedRows, anyCellChanged,
                 RunItem(prev, run, i));
      UnflaggedItem(prev, RunItem(prev, run, i), columns);
      if run.Keep? {
        rows := rows[pos := prev[run.from + i]];
      } else {
        var row := run.rows[i];
        rows := rows[pos := row];
        var p := PrevAt(run.prev, i);
        if p.None? {
          addedRows := addedRows + {pos};
        } else if p.value < |prev| {
          var flags := ChangedFlags(prev[p.value], row, columns);
          if flags.Some? {
            changedCells := changedCells[pos := flags.value];
            anyCellChanged := true;
          }
        }
      }
      pos := pos + 1;
    }
    assert RunItems(prev, run)[..RunLength(run)] == RunItems(prev, run);
  }

  lemma SameIsApplied(prev: seq<Row>, patch: Patch, columns: nat)
    requires AllInRange(prev, patch.runs) && patch.isSame
    ensures IsApplied(prev, patch, columns, prev, RowDiff([], {}, 0, false))
  {
  }

  lemma PartsAreApplied(prev: seq<Row>, patch: Patch, columns: nat, rows: seq<Row>, d: RowDiff, any: bool)
    requires AllInRange(prev, patch.runs) && !patch.isSame && any == AnyFlag(d.changedCells)
    requires Applied(prev, Items(prev, patch.runs), columns, rows, d.changedCells, d.addedRows, any)
    requires d.removedCount == patch.removedCount && d.hasChanges == (any || d.addedRows != {} || d.removedCount > 0)
    ensures IsApplied(prev, patch, columns, rows, d)
  {
  }

  /** The first rows and flags are those of the items read so far; the rest is still blank. */
  ghost predicate Filled(prev: seq<Row>, items: seq<Item>, columns: nat, rows: seq<Row>, changed: seq<seq<bool>>,
                         added: set<nat>, any: bool)
  {
    && |items| <= |rows| == |changed|
    && Applied(prev, items, columns, rows[..|items|], changed[..|items|], added, any)
    && forall k :: |items| <= k < |changed| ==> changed[k] == NoFlags(columns)
  }

  lemma FilledNothing(prev: seq<Row>, columns: nat, rows: seq<Row>, changed: seq<seq<bool>>)
    requires |rows| == |changed| && forall k :: 0 <= k < |changed| ==> changed[k] == NoFlags(columns)
    ensures Filled(prev, [], columns, rows, changed, {}, false)
  {
  }

  lemma FilledStep(prev: seq<Row>, items: seq<Item>, columns: nat, rows: seq<Row>, changed: seq<seq<bool>>,
                   added: set<nat>, any: bool, item: Item)
    requires Filled(prev, items, columns, rows, changed, added, any) && |items| < |rows|
    ensures |rows| == |changed|
    ensures var flags := ItemFlags(prev, item, columns);
            Filled(prev, items + [item], columns, rows[|items| := item.row], changed[|items| := flags],
                   if !item.kept && item.prev.None? then added + {|items|} else added,
                   any || exists c :: 0 <= c < |flags| && flags[c])
    ensures changed[|items| := NoFlags(columns)] == changed
  {
    hide Applied, ItemFlags, NoFlags;
    var n, flags := |items|, ItemFlags(prev, item, columns);
    AppliedStep(prev, items, columns, rows[..n], changed[..n], added, any, item);
    assert rows[n := item.row][..n + 1] == rows[..n] + [item.row];
    assert changed[n := flags][..n + 1] == changed[..n] + [flags];
  }

  lemma FilledAll(prev: seq<Row>, items: seq<Item>, columns: nat, rows: seq<Row>, changed: seq<seq<bool>>,
                  added: set<nat>, any: bool)
    requires Filled(prev, items, columns, rows, changed, added, any) && |items| == |rows|
    ensures Applied(prev, items, columns, rows, changed, added, AnyFlag(changed)) && any == AnyFlag(changed)
  {
    assert rows[..|items|] == rows && changed[..|items|] == changed;
  }

  lemma ItemsOfNone(prev: seq<Row>, runs: seq<Run>)
    requires AllInRange(prev, runs)
    ensures AllInRange(prev, runs[..0]) && Items(prev, runs[..0]) == []
  {
  }

  lemma NextItem(prev: seq<Row>, run: Run, i: nat, before: seq<Item>)
    requires InRange(prev, run) && i < RunLength(run)
    ensures before + RunItems(prev, run)[..i + 1] == before + RunItems(prev, run)[..i] + [RunItem(prev, run, i)]
    ensures RunItem(prev, run, i) ==
            if run.Keep? then Item(prev[run.from + i], Some(run.from + i), true)
            else Item(run.rows[i], PrevAt(run.prev, i), false)
  {
  }

  lemma UnflaggedItem(prev: seq<Row>, item: Item, columns: nat)
    ensures item.kept || item.prev.None? || item.prev.value >= |prev| ==>
            ItemFlags(prev, item, columns) == NoFlags(columns)
    ensures !item.kept && item.prev.Some? && item.prev.value < |prev| ==>
              ItemFlags(prev, item, columns) == FlagsOf(prev[item.prev.value], item.row, columns)
    ensures |ItemFlags(prev, item, columns)| == columns && |NoFlags(columns)| == columns
    ensures forall c :: 0 <= c < columns ==> !NoFlags(columns)[c]
  {
  }

  lemma {:induction false} ItemsPrefix(prev: seq<Row>, runs: seq<Run>, r: nat)
    requires AllInRange(prev, runs) && r < |runs|
    ensures AllInRange(prev, runs[..r]) && AllInRange(prev, runs[..r + 1]) && InRange(prev, runs[r])
    ensures Items(prev, runs[..r + 1]) == Items(prev, runs[..r]) + RunItems(prev, runs[r])
    ensures |Items(prev, runs[..r + 1])| <= |Items(prev, runs)|
    decreases |runs| - r
  {
    assert runs[..r + 1][..r] == runs[..r];
    if r + 1 < |runs| {
      ItemsPrefix(prev, runs, r + 1);
    } else {
      assert runs[..r + 1] == runs;
    }
  }

  // --- what a patch has to tell ---

  /** The rows of the next result that differ from the previous row of their key. */
  ghost function Changed(prev: seq<Row>, next: seq<Row>, pk: seq<nat>): set<nat> {
    set n: nat | n < |next| && Differs(prev, next[n], pk)
  }

  ghost predicate Differs(prev: seq<Row>, row: Row, pk: seq<nat>) {
    exists p: nat :: p < |prev| && IsPair(prev, pk, KeyOf(row, pk), Some(p)) && prev[p] != row
  }

  lemma ChangedCount(prev: seq<Row>, next: seq<Row>, pk: seq<nat>, items: seq<Item>)
    requires UniqueKeys(prev, pk) && UniqueKeys(next, pk) && FaithfulItems(prev, next, pk, items)
    ensures Changed(prev, next, pk) == ChangedAt(items)
  {
    hide KeyOf, UniqueKeys, HasKey, IsPair;
    forall n: nat | n < |items| ensures n in Changed(prev, next, pk) <==> n in ChangedAt(items) {
      MatchedArePaired(prev, next, pk, items, n);
      assert FaithfulItem(prev, next, pk, items[n], n);
      if p: nat :| p < |prev| && IsPair(prev, pk, KeyOf(next[n], pk), Some(p)) && prev[p] != next[n] {
        PairIsUnique(prev, pk, KeyOf(next[n], pk), Some(p), items[n].prev);
      }
    }
  }

  /** The items rebuild the next rows, each standing for a previous row with its key or for none. */
  ghost predicate FaithfulItems(prev: seq<Row>, next: seq<Row>, pk: seq<nat>, items: seq<Item>) {
    && |items| == |next|
    && (forall n :: 0 <= n < |items| ==> FaithfulItem(prev, next, pk, items[n], n))
    && (forall m, n :: 0 <= m < n < |items| && items[m].prev.Some? ==> items[m].prev != items[n].prev)
  }

  /** A row is sent as added only if no previous row has its key, or if an earlier row took that key's rows. */
  ghost predicate FaithfulItem(prev: seq<Row>, next: seq<Row>, pk: seq<nat>, item: Item, n: nat) {
    && n < |next| && item.row == next[n]
    && (item.prev.Some? ==> item.prev.value < |prev| && KeyOf(prev[item.prev.value], pk) == KeyOf(next[n], pk))
    && (item.kept ==> item.prev.Some?)
    && (item.prev.Some? ==> (item.kept <==> prev[item.prev.value] == next[n]))
    && (item.prev.None? ==>
          !HasKey(prev, pk, KeyOf(next[n], pk)) || exists m :: 0 <= m < n && KeyOf(next[m], pk) == KeyOf(next[n], pk))
  }

  ghost function Matched(items: seq<Item>): set<nat> {
    set n | 0 <= n < |items| && items[n].prev.Some? :: items[n].prev.value
  }

  /** Rows sent in full that stand for a previous row. */
  ghost function ChangedAt(items: seq<Item>): set<nat> {
    set n: nat | n < |items| && items[n].prev.Some? && !items[n].kept
  }

  /** Rows sent as added. */
  ghost function AddedAt(items: seq<Item>): set<nat> { set n: nat | n < |items| && items[n].prev.None? }

  ghost predicate Faithful(prev: seq<Row>, next: seq<Row>, pk: seq<nat>, patch: Patch) {
    && patch.totalRows == |next| && AllInRange(prev, patch.runs)
    && (patch.isSame ==> prev == next && patch.removedCount == 0 && patch.addedCount == 0 && patch.changedCount == 0)
    && (!patch.isSame ==>
          var items := Items(prev, patch.runs);
          && FaithfulItems(prev, next, pk, items) && patch.removedCount == |prev| - |Matched(items)|
          && patch.addedCount == |AddedAt(items)| && patch.changedCount == |ChangedAt(items)|)
  }

  /** The flag of a cell as the grid reads it; missing flags are off. */
  predicate Flag(d: RowDiff, n: nat, c: nat) { n < |d.changedCells| && c < |d.changedCells[n]| && d.changedCells[n][c] }

  /** A previous row is matched exactly when the full difference pairs it. */
  lemma MatchedArePaired(prev: seq<Row>, next: seq<Row>, pk: seq<nat>, items: seq<Item>, n: nat)
    requires UniqueKeys(prev, pk) && UniqueKeys(next, pk) && FaithfulItems(prev, next, pk, items) && n < |items|
    ensures IsPair(prev, pk, KeyOf(next[n], pk), items[n].prev)
  {
    hide KeyOf;
    assert FaithfulItem(prev, next, pk, items[n], n);
  }

  lemma FaithfulFlags(prev: seq<Row>, next: seq<Row>, pk: seq<nat>, items: seq<Item>, columns: nat, n: nat)
    requires UniqueKeys(prev, pk) && UniqueKeys(next, pk) && FaithfulItems(prev, next, pk, items) && n < |items|
    ensures RowFlags(prev, next[n], pk, columns, ItemFlags(prev, items[n], columns))
  {
    hide KeyOf, IsPair, UniqueKeys;
    MatchedArePaired(prev, next, pk, items, n);
    assert FaithfulItem(prev, next, pk, items[n], n);
    if items[n].kept {
      SameRowHasNoFlags(next[n], columns);
    }
  }

  lemma SameRowHasNoFlags(row: Row, columns: nat)
    ensures FlagsOf(row, row, columns) == NoFlags(columns)
  {
  }

  lemma MatchedCount(prev: seq<Row>, next: seq<Row>, pk: seq<nat>, items: seq<Item>)
    requires UniqueKeys(prev, pk) && UniqueKeys(next, pk) && FaithfulItems(prev, next, pk, items)
    ensures |prev| - |Matched(items)| == |Unpaired(prev, next, pk)|
    ensures Added(prev, next, pk) == AddedAt(items)
  {
    hide KeyOf, UniqueKeys, HasKey;
    var all := Below(|prev|);
    CountBelow(|prev|);
    forall n: nat | n < |items| ensures IsPair(prev, pk, KeyOf(next[n], pk), items[n].prev) {
      MatchedArePaired(prev, next, pk, items, n);
    }
    forall n: nat | n < |items| ensures items[n].prev.None? <==> !HasKey(prev, pk, KeyOf(next[n], pk)) {
      PairTellsKey(prev, pk, KeyOf(next[n], pk), items[n].prev);
    }
    forall i: nat | i < |prev| ensures i in Unpaired(prev, next, pk) <==> i !in Matched(items) {
      if n :| 0 <= n < |next| && IsPair(prev, pk, KeyOf(next[n], pk), Some(i)) {
        PairIsUnique(prev, pk, KeyOf(next[n], pk), Some(i), items[n].prev);
      }
    }
    assert Unpaired(prev, next, pk) == all - Matched(items);
    assert Matched(items) <= all by {
      forall n | 0 <= n < |items| && items[n].prev.Some? ensures items[n].prev.value < |prev| {
        assert FaithfulItem(prev, next, pk, items[n], n);
      }
    }
  }

  lemma PairTellsKey(prev: seq<Row>, pk: seq<nat>, key: PkKey, p: Option<nat>)
    requires IsPair(prev, pk, key, p)
    ensures p.None? <==> !HasKey(prev, pk, key)
  {
  }

  function Below(n: nat): set<nat> { if n == 0 then {} else Below(n - 1) + {n - 1} }

  lemma {:induction false} CountBelow(n: nat)
    ensures |Below(n)| == n && forall i :: i in Below(n) <==> 0 <= i < n
  {
    if n > 0 {
      CountBelow(n - 1);
    }
  }

  /**
   * A faithful patch rebuilds the next rows, whatever the keys; flags and counts of a result without patch are not
   * needed.
   */
  lemma PatchRebuildsRows(prev: seq<Row>, next: seq<Row>, pk: seq<nat>, patch: Patch, columns: nat, rows: seq<Row>,
                          d: RowDiff)
    requires Faithful(prev, next, pk, patch) && IsApplied(prev, patch, columns, rows, d)
    ensures rows == next
  {
    hide KeyOf;
    if !patch.isSame {
      var items := Items(prev, patch.runs);
      forall k | 0 <= k < |rows| ensures rows[k] == next[k] {
        assert FaithfulItem(prev, next, pk, items[k], k);
      }
    }
  }

  /** What the reader returns for a patch, as its contract states it. */
  ghost predicate IsApplied(prev: seq<Row>, patch: Patch, columns: nat, rows: seq<Row>, d: RowDiff)
    requires AllInRange(prev, patch.runs)
  {
    if patch.isSame then rows == prev && d == RowDiff([], {}, 0, false)
    else
      var any := AnyFlag(d.changedCells);
      Applied(prev, Items(prev, patch.runs), columns, rows, d.changedCells, d.addedRows, any) &&
      d.removedCount == patch.removedCount && d.hasChanges == (any || d.addedRows != {} || d.removedCount > 0)
  }

  /**
   * Under unique keys the flags, added rows, removed count and summary that come with a patch are those of comparing
   * the two results in full. A patch that says "the same" leaves the flag arrays out, so flags agree as the grid reads
   * them.
   */
  lemma PatchAgreesWithDiff(prev: seq<Row>, next: seq<Row>, pk: seq<nat>, patch: Patch, columns: nat, rows: seq<Row>,
                            d: RowDiff, full: RowDiff)
    requires pk != [] && UniqueKeys(prev, pk) && UniqueKeys(next, pk)
    requires Faithful(prev, next, pk, patch) && IsApplied(prev, patch, columns, rows, d)
    requires IsDiff(prev, next, pk, columns, full)
    ensures rows == next && d.addedRows == full.addedRows && d.removedCount == full.removedCount &&
            d.hasChanges == full.hasChanges
    ensures forall n: nat, c: nat :: Flag(d, n, c) == Flag(full, n, c)
    ensures !patch.isSame ==> d == full
    ensures patch.addedCount == |full.addedRows| && patch.changedCount == |Changed(prev, next, pk)|
  {
    hide KeyOf, IsPair, UniqueKeys, RowFlags, ItemFlags, FlagsOf;
    PatchRebuildsRows(prev, next, pk, patch, columns, rows, d);
    if patch.isSame {
      SameRowsDiff(prev, pk, columns);
      NoneChanged(prev, pk);
      DiffIsUnique(prev, next, pk, columns, full, RowDiff(seq(|prev|, _ => NoFlags(columns)), {}, 0, false));
    } else {
      AppliedIsDiff(prev, next, pk, patch, columns, rows, d);
      ChangedCount(prev, next, pk, Items(prev, patch.runs));
      DiffIsUnique(prev, next, pk, columns, d, full);
    }
  }

  lemma NoneChanged(rows: seq<Row>, pk: seq<nat>)
    requires UniqueKeys(rows, pk)
    ensures Changed(rows, rows, pk) == {}
  {
    hide KeyOf;
  }

  lemma AppliedIsDiff(prev: seq<Row>, next: seq<Row>, pk: seq<nat>, patch: Patch, columns: nat, rows: seq<Row>,
                      d: RowDiff)
    requires pk != [] && UniqueKeys(prev, pk) && UniqueKeys(next, pk) && !patch.isSame
    requires Faithful(prev, next, pk, patch) && IsApplied(prev, patch, columns, rows, d)
    ensures IsDiff(prev, next, pk, columns, d) && patch.addedCount == |d.addedRows|
  {
    hide KeyOf, IsPair, UniqueKeys, RowFlags, ItemFlags, FlagsOf, AnyFlag, Unpaired, Added, Items;
    var items := Items(prev, patch.runs);
    forall n | 0 <= n < |next| ensures RowFlags(prev, next[n], pk, columns, d.changedCells[n]) {
      FaithfulFlags(prev, next, pk, items, columns, n);
    }
    MatchedCount(prev, next, pk, items);
    forall n | 0 <= n < |items| ensures items[n].kept ==> items[n].prev.Some? {
      assert FaithfulItem(prev, next, pk, items[n], n);
    }
    assert d.addedRows == Added(prev, next, pk);
  }

  lemma SameRowsDiff(rows: seq<Row>, pk: seq<nat>, columns: nat)
    requires pk != [] && UniqueKeys(rows, pk)
    ensures IsDiff(rows, rows, pk, columns, RowDiff(seq(|rows|, _ => NoFlags(columns)), {}, 0, false))
  {
    hide KeyOf, FlagsOf;
    var cells := seq(|rows|, _ => NoFlags(columns));
    forall n | 0 <= n < |rows| ensures RowFlags(rows, rows[n], pk, columns, cells[n]) {
      SameRowHasNoFlags(rows[n], columns);
      assert IsPair(rows, pk, KeyOf(rows[n], pk), Some(n));
    }
    assert Added(rows, rows, pk) == {};
    forall i: nat | i < |rows| ensures i !in Unpaired(rows, rows, pk) {
      assert IsPair(rows, pk, KeyOf(rows[i], pk), Some(i));
    }
    assert Unpaired(rows, rows, pk) == {};
  }
}
