/** The key values of the rows about to be deleted, which the first level of the search counts. */
module DeletedKeys {
  import opened CascadeSpec
  import opened Cascade

  const REF_KEY_LIMIT := 2000

  function Cell(row: seq<Value>, i: nat): Value { if i < |row| then row[i] else Null }

  /** `vals` are distinct non-null values of column `i` in the first `n` deleted rows. */
  ghost predicate Collected(rows: seq<seq<Value>>, deleted: seq<bool>, n: nat, i: nat, vals: seq<Value>) {
    && n <= |rows| == |deleted| && |vals| <= REF_KEY_LIMIT && Distinct(vals)
    && forall v :: v in vals ==> v != Null && exists r :: 0 <= r < n && deleted[r] && Cell(rows[r], i) == v
  }

  /** `vals` has every non-null value of column `i` in the first `n` deleted rows. */
  ghost predicate HasAll(rows: seq<seq<Value>>, deleted: seq<bool>, n: nat, i: nat, vals: seq<Value>) {
    n <= |rows| == |deleted| &&
    forall r :: 0 <= r < n && deleted[r] && Cell(rows[r], i) != Null ==> Cell(rows[r], i) in vals
  }

  /** `vals` is full and lacks a value of column `i` of some deleted row. */
  ghost predicate Lost(rows: seq<seq<Value>>, deleted: seq<bool>, n: nat, i: nat, vals: seq<Value>) {
    && n <= |rows| == |deleted| && |vals| == REF_KEY_LIMIT
    && exists r :: 0 <= r < n && deleted[r] && Cell(rows[r], i) != Null && Cell(rows[r], i) !in vals
  }

  lemma LostStays(rows: seq<seq<Value>>, deleted: seq<bool>, n: nat, i: nat, vals: seq<Value>)
    requires n < |rows| && Lost(rows, deleted, n, i, vals)
    ensures Lost(rows, deleted, n + 1, i, vals)
  {
    var r :| 0 <= r < n && deleted[r] && Cell(rows[r], i) != Null && Cell(rows[r], i) !in vals;
    assert 0 <= r < n + 1 && deleted[r];
  }

  lemma LostNow(rows: seq<seq<Value>>, deleted: seq<bool>, r: nat, i: nat, vals: seq<Value>)
    requires r < |rows| == |deleted| && deleted[r] && |vals| == REF_KEY_LIMIT && Cell(rows[r], i) != Null &&
             Cell(rows[r], i) !in vals
    ensures Lost(rows, deleted, r + 1, i, vals)
  {
  }

  lemma LostIsFull(rows: seq<seq<Value>>, deleted: seq<bool>, n: nat, columns: seq<string>, who: string,
                   keys: map<string, seq<Value>>, partial: bool)
    requires partial ==> who in keys && Lost(rows, deleted, n, IndexOf(columns, who), keys[who])
    ensures partial ==> |keys[who]| == REF_KEY_LIMIT
  {
  }

  /** Adds one cell to the values collected so far; a value that no longer fits makes the result partial. */
  method AddValue(vals: seq<Value>, v: Value) returns (vals': seq<Value>, dropped: bool)
    requires Distinct(vals) && |vals| <= REF_KEY_LIMIT
    ensures Distinct(vals') && |vals'| <= REF_KEY_LIMIT
    ensures forall x :: x in vals' <==> x in vals || (x == v && v != Null && !dropped)
    ensures dropped ==> |vals| == REF_KEY_LIMIT && v !in vals && v != Null
    ensures |vals| == REF_KEY_LIMIT ==> vals' == vals
  {
    vals', dropped := vals, false;
    if v == Null || v in vals {
      return;
    }
    if |vals| >= REF_KEY_LIMIT {
      dropped := true;
      return;
    }
    vals' := vals + [v];
  }

  lemma CollectedFits(rows: seq<seq<Value>>, deleted: seq<bool>, n: nat, i: nat, vals: seq<Value>)
    requires Collected(rows, deleted, n, i, vals)
    ensures Distinct(vals) && |vals| <= REF_KEY_LIMIT
  {
  }

  lemma CollectedStep(rows: seq<seq<Value>>, deleted: seq<bool>, r: nat, i: nat, vals: seq<Value>, more: seq<Value>,
                      dropped: bool)
    requires r < |rows| == |deleted| && deleted[r] && Collected(rows, deleted, r, i, vals)
    requires Distinct(more) && |more| <= REF_KEY_LIMIT
    requires forall x :: x in more <==> x in vals || (x == Cell(rows[r], i) && x != Null && !dropped)
    ensures Collected(rows, deleted, r + 1, i, more)
    ensures !dropped && HasAll(rows, deleted, r, i, vals) ==> HasAll(rows, deleted, r + 1, i, more)
  {
    forall v | v in more ensures v != Null && exists s :: 0 <= s < r + 1 && deleted[s] && Cell(rows[s], i) == v {
      if v in vals {
        var s :| 0 <= s < r && deleted[s] && Cell(rows[s], i) == v;
        assert 0 <= s < r + 1 && deleted[s];
      }
    }
  }

  /**
   * Collects the values of every referenced column. A column the result does not have is unresolved;
   * `partial` tells exactly that a column is unresolved or that some column has more values than fit.
   */
  method CollectDeletedKeyValues(columns: seq<string>, rows: seq<seq<Value>>, deleted: seq<bool>,
                                 referenced: seq<string>)
    returns (keys: map<string, seq<Value>>, partial: bool, unresolved: seq<string>)
    requires |deleted| == |rows|
    ensures forall name :: name in keys <==> name in referenced && name in columns
    ensures forall name :: name in unresolved <==> name in referenced && name !in columns
    ensures forall name :: name in keys ==> Collected(rows, deleted, |rows|, IndexOf(columns, name), keys[name])
    ensures !partial ==> unresolved == []
    ensures !partial ==> forall name :: name in keys ==>
            HasAll(rows, deleted, |rows|, IndexOf(columns, name), keys[name])
    ensures partial && unresolved == [] ==>
              exists name :: name in keys && Lost(rows, deleted, |rows|, IndexOf(columns, name), keys[name])
  {
    keys, unresolved, partial := map[], [], false;
    for k := 0 to |referenced|
      invariant forall name :: name in keys <==> name in referenced[..k] && name in columns
      invariant forall name :: name in unresolved <==> name in referenced[..k] && name !in columns
      invariant forall name :: name in keys ==> keys[name] == []
    {
      assert referenced[..k + 1] == referenced[..k] + [referenced[k]];
      if referenced[k] in columns {
        keys := keys[referenced[k] := []];
      } else if referenced[k] !in unresolved {
        unresolved := unresolved + [referenced[k]];
      }
    }
    assert referenced[..|referenced|] == referenced;
    var names := keys.Keys;
    ghost var who := "";
    for r := 0 to |rows|
      invariant keys.Keys == names
      invariant forall name :: name in names ==> Collected(rows, deleted, r, IndexOf(columns, name), keys[name])
      invariant !partial ==> forall name :: name in names ==>
                HasAll(rows, deleted, r, IndexOf(columns, name), keys[name])
      invariant partial ==> who in names && Lost(rows, deleted, r, IndexOf(columns, who), keys[who])
    {
      if partial {
        LostStays(rows, deleted, r, IndexOf(columns, who), keys[who]);
      }
      if deleted[r] {
        keys, partial, who := CollectRow(columns, rows, deleted, r, keys, partial, who);
      }
    }
    partial := partial || |unresolved| > 0;
  }

  function IndexOf(columns: seq<string>, name: string): nat {
    if columns == [] || columns[0] == name then 0 else 1 + IndexOf(columns[1..], name)
  }

  /** Adds the cells of one deleted row to the values of all resolved columns. */
  method CollectRow(columns: seq<string>, rows: seq<seq<Value>>, deleted: seq<bool>, r: nat,
                    keys: map<string, seq<Value>>,
                    partial: bool, ghost who: string)
    returns (keys': map<string, seq<Value>>, partial': bool, ghost who': string)
    requires r < |rows| == |deleted| && deleted[r]
    requires forall name :: name in keys ==> Collected(rows, deleted, r, IndexOf(columns, name), keys[name])
    requires !partial ==> forall name :: name in keys ==> HasAll(rows, deleted, r, IndexOf(columns, name), keys[name])
    requires partial ==> who in keys && Lost(rows, deleted, r + 1, IndexOf(columns, who), keys[who])
    ensures partial' ==> who' in keys' && Lost(rows, deleted, r + 1, IndexOf(columns, who'), keys'[who'])
    ensures keys'.Keys == keys.Keys
    ensures forall name :: name in keys' ==> Collected(rows, deleted, r + 1, IndexOf(columns, name), keys'[name])
    ensures !partial' ==> !partial
    ensures !partial' ==> forall name :: name in keys' ==>
            HasAll(rows, deleted, r + 1, IndexOf(columns, name), keys'[name])
  {
    hide Lost, Collected, HasAll, Distinct, IndexOf, Cell;
    keys', partial', who' := keys, partial, who;
    LostIsFull(rows, deleted, r + 1, columns, who, keys, partial);
    var left := keys.Keys;
    while left != {}
      invariant keys'.Keys == keys.Keys && left <= keys.Keys && (!partial' ==> !partial)
      invariant forall name :: name in left ==> keys'[name] == keys[name]
      invariant partial' ==>
                  who' in keys' && |keys'[who']| == REF_KEY_LIMIT &&
                  Lost(rows, deleted, r + 1, IndexOf(columns, who'), keys'[who'])
      invariant forall name :: name in keys && name !in left ==>
                  Collected(rows, deleted, r + 1, IndexOf(columns, name), keys'[name])
      invariant !partial' ==> forall name :: name in keys && name !in left ==>
                  HasAll(rows, deleted, r + 1, IndexOf(columns, name), keys'[name])
      decreases |left|
    {
      var name :| name in left;
      left := left - {name};
      var v := Cell(rows[r], IndexOf(columns, name));
      CollectedFits(rows, deleted, r, IndexOf(columns, name), keys[name]);
      var vals, dropped := AddValue(keys'[name], v);
      CollectedStep(rows, deleted, r, IndexOf(columns, name), keys[name], vals, dropped);
      if dropped {
        LostNow(rows, deleted, r, IndexOf(columns, name), vals);
        who' := name;
      }
      keys' := keys'[name := vals];
      partial' := partial' || dropped;
    }
  }

  // --- the first level of the cascade ---

  /** The predicates the collected keys give for each foreign key. */
  function RootsFromKeys(keys: map<string, seq<Value>>): Fk -> seq<Pred> {
    (fk: Fk) => KeyPreds(fk.column, if fk.referencedColumn in keys then keys[fk.referencedColumn] else [])
  }

  /** Some deleted row has the value `v` in the column. */
  ghost predicate DeletedValue(columns: seq<string>, rows: seq<seq<Value>>, deleted: seq<bool>, column: string,
                               v: Value)
  {
    v != Null &&
    exists r :: 0 <= r < |rows| && r < |deleted| && deleted[r] && Cell(rows[r], IndexOf(columns, column)) == v
  }

  /** `i` is the first column of that name. */
  predicate FirstNamed(columns: seq<string>, name: string, i: nat) {
    i < |columns| && columns[i] == name && forall j :: 0 <= j < i ==> columns[j] != name
  }

  lemma {:induction false} IndexIsFirst(columns: seq<string>, name: string)
    requires name in columns
    ensures FirstNamed(columns, name, IndexOf(columns, name))
  {
    if columns[0] != name {
      IndexIsFirst(columns[1..], name);
      assert forall j :: 0 < j < |columns| ==> columns[j] == columns[1..][j - 1];
    }
  }

  /** A deleted row has the value in the first column of that name. */
  lemma DeletedValueIsTold(columns: seq<string>, rows: seq<seq<Value>>, deleted: seq<bool>, column: string, v: Value)
    requires column in columns
    ensures DeletedValue(columns, rows, deleted, column, v) <==>
            v != Null && exists i: nat, r: nat ::
              FirstNamed(columns, column, i) && r < |rows| && r < |deleted| && deleted[r] &&
              i < |rows[r]| && rows[r][i] == v
  {
    IndexIsFirst(columns, column);
    hide IndexOf;
  }

  /** The child rows that refer to a deleted row. */
  ghost function ReferringToDeleted(db: Db, database: string, fk: Fk, columns: seq<string>, rows: seq<seq<Value>>,
                                    deleted: seq<bool>): set<nat>
  {
    var t := Child(database, fk);
    set i: nat |
      i < |Rows(db, t)| &&
      DeletedValue(columns, rows, deleted, fk.referencedColumn, Get(Rows(db, t)[i], fk.column))
  }

  lemma CollectedAreDeleted(columns: seq<string>, rows: seq<seq<Value>>, deleted: seq<bool>, column: string,
                            vals: seq<Value>, v: Value)
    requires Collected(rows, deleted, |rows|, IndexOf(columns, column), vals)
    requires HasAll(rows, deleted, |rows|, IndexOf(columns, column), vals)
    ensures v != Null && v in vals <==> DeletedValue(columns, rows, deleted, column, v)
  {
    hide IndexOf, Cell;
  }

  /**
   * From the grid to the search: when the collected keys are not partial, the predicates built from them reach, on
   * the first level, exactly the child rows that refer to a deleted row, and count each of them once.
   */
  lemma FirstLevelIsExact(db: Db, q: Query, fk: Fk, columns: seq<string>, rows: seq<seq<Value>>, deleted: seq<bool>,
                          keys: map<string, seq<Value>>)
    requires q.roots == RootsFromKeys(keys) && fk.referencedColumn in keys
    requires Collected(rows, deleted, |rows|, IndexOf(columns, fk.referencedColumn), keys[fk.referencedColumn])
    requires HasAll(rows, deleted, |rows|, IndexOf(columns, fk.referencedColumn), keys[fk.referencedColumn])
    ensures Reached(db, q, [fk]) == ReferringToDeleted(db, q.database, fk, columns, rows, deleted)
    ensures CountOf(db, q, [fk]) == |ReferringToDeleted(db, q.database, fk, columns, rows, deleted)|
  {
    hide Collected, HasAll, Cell, IndexOf, DeletedValue;
    var vals := keys[fk.referencedColumn];
    CollectedFits(rows, deleted, |rows|, IndexOf(columns, fk.referencedColumn), vals);
    KeyPredsCover(db, Child(q.database, fk), fk.column, vals);
    forall v ensures v != Null && v in vals <==> DeletedValue(columns, rows, deleted, fk.referencedColumn, v) {
      CollectedAreDeleted(columns, rows, deleted, fk.referencedColumn, vals, v);
    }
    assert HoldingOneOf(db, Child(q.database, fk), fk.column, vals) ==
           ReferringToDeleted(db, q.database, fk, columns, rows, deleted);
    hide Reached, CountOf, Exact;
    ChainOfOne(db, q, fk);
    CountIsReached(db, q, [fk]);
  }

  lemma ChainOfOne(db: Db, q: Query, fk: Fk)
    ensures Reached(db, q, [fk]) == Union(db, Child(q.database, fk), q.roots(fk))
    ensures Disjoint(db, Child(q.database, fk), q.roots(fk)) ==> Exact(db, q, [fk])
  {
    hide Union, Disjoint;
  }
}
