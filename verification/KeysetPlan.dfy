/** Choosing the keys of a keyset plan, and why the chosen keys put the rows of a table in one strict order. */
module KeysetPlan {
  import opened Common
  import opened Keyset

  datatype TableColumn = TableColumn(name: string, primary: bool, nullable: bool, comparable: bool)

  datatype Sort = Sort(column: string, asc: bool)

  predicate DistinctNames(columns: seq<TableColumn>) {
    forall i, j :: 0 <= i < j < |columns| ==> columns[i].name != columns[j].name
  }

  predicate Orderable(c: TableColumn) { !c.nullable && c.comparable }

  /** A column the order needs: the sort column, and every primary key column as a tie-breaker. */
  predicate Needed(c: TableColumn, sort: Option<Sort>) {
    c.primary || (sort.Some? && c.name == sort.value.column)
  }

  predicate Listed(columns: seq<TableColumn>, name: string) {
    exists k :: 0 <= k < |columns| && columns[k].name == name
  }

  predicate Names(keys: seq<Key>, column: string) { exists i :: 0 <= i < |keys| && keys[i].column == column }

  /** Why no plan is possible. */
  ghost predicate Unusable(columns: Option<seq<TableColumn>>, sort: Option<Sort>, result: seq<string>) {
    || columns.None?
    || (forall c :: c in columns.value ==> !c.primary)
    || (sort.Some? && forall c :: c in columns.value ==> c.name != sort.value.column)
    || (exists c :: c in columns.value && Needed(c, sort) && (c.nullable || !c.comparable || c.name !in result))
  }

  /** The keys name exactly the needed columns, once each, the sort column first, all in one direction. */
  ghost predicate IsPlan(keys: seq<Key>, columns: seq<TableColumn>, sort: Option<Sort>) {
    && keys != []
    && (forall i, j :: 0 <= i < j < |keys| ==> keys[i].column != keys[j].column)
    && (forall c :: c in columns ==> (Needed(c, sort) <==> Names(keys, c.name)))
    && (forall k :: k in keys ==> exists c :: c in columns && c.name == k.column)
    && (forall k :: k in keys ==> k.asc == (sort.None? || sort.value.asc))
    && (sort.Some? ==> keys[0].column == sort.value.column)
  }

  method ResolveKeysetPlan(columns: Option<seq<TableColumn>>, sort: Option<Sort>, result: seq<string>)
    returns (plan: Option<seq<Key>>)
    requires columns.Some? ==> DistinctNames(columns.value)
    ensures plan.None? <==> Unusable(columns, sort, result)
    ensures plan.Some? ==> IsPlan(plan.value, columns.value, sort)
  {
    hide Collected, Needed, IsPlan, DistinctNames;
    if columns.None? {
      return None;
    }
    var table := columns.value;
    var asc := sort.None? || sort.value.asc;
    var cols: seq<TableColumn> := [];
    if sort.Some? {
      var i := 0;
      while i < |table| && table[i].name != sort.value.column
        invariant 0 <= i <= |table|
        invariant forall j :: 0 <= j < i ==> table[j].name != sort.value.column
      {
        i := i + 1;
      }
      if i == |table| {
        return None;
      }
      cols := [table[i]];
    }
    CollectedStart(table, sort, cols);
    var anyPrimary := false;
    for i := 0 to |table|
      invariant anyPrimary <==> exists j :: 0 <= j < i && table[j].primary
      invariant Collected(table, sort, cols, i)
    {
      CollectedStep(table, sort, cols, i);
      if table[i].primary {
        anyPrimary := true;
        if !Listed(cols, table[i].name) {
          cols := cols + [table[i]];
        }
      }
    }
    if !anyPrimary {
      return None;
    }
    CollectedExactly(table, sort, cols);
    for i := 0 to |cols|
      invariant forall k :: 0 <= k < i ==> Orderable(cols[k]) && cols[k].name in result
    {
      if !Orderable(cols[i]) || cols[i].name !in result {
        assert cols[i] in cols;
        return None;
      }
    }
    var keys := seq(|cols|, i requires 0 <= i < |cols| => Key(cols[i].name, asc));
    CollectedIsPlan(table, sort, cols, keys, asc);
    plan := Some(keys);
  }

  /** After `n` columns: the sort column first, then the primary key columns seen, each once. */
  ghost predicate Collected(table: seq<TableColumn>, sort: Option<Sort>, cols: seq<TableColumn>, n: nat)
    requires n <= |table|
  {
    && (forall k :: 0 <= k < |cols| ==> cols[k] in table && Needed(cols[k], sort))
    && (forall j, k :: 0 <= j < k < |cols| ==> cols[j].name != cols[k].name)
    && (sort.Some? ==> cols != [] && cols[0].name == sort.value.column)
    && (forall i :: 0 <= i < n && table[i].primary ==> Listed(cols, table[i].name))
  }

  lemma CollectedStart(table: seq<TableColumn>, sort: Option<Sort>, cols: seq<TableColumn>)
    requires if sort.None? then cols == [] else exists c :: c in table && c.name == sort.value.column && cols == [c]
    ensures Collected(table, sort, cols, 0)
  {
  }

  lemma CollectedStep(table: seq<TableColumn>, sort: Option<Sort>, cols: seq<TableColumn>, n: nat)
    requires n < |table| && Collected(table, sort, cols, n)
    ensures var c := table[n];
            Collected(table, sort, if c.primary && !Listed(cols, c.name) then cols + [c] else cols, n + 1)
  {
    var c := table[n];
    if c.primary && !Listed(cols, c.name) {
      hide Listed;
      var more := cols + [c];
      forall i | 0 <= i < n + 1 && table[i].primary ensures Listed(more, table[i].name) {
        ListedMore(cols, c, table[i].name);
      }
      forall k | 0 <= k < |cols| ensures cols[k].name != c.name {
        ListedAt(cols, k);
      }
    }
  }

  lemma ListedMore(cols: seq<TableColumn>, c: TableColumn, name: string)
    ensures Listed(cols + [c], name) <==> Listed(cols, name) || name == c.name
  {
    var more := cols + [c];
    if k :| 0 <= k < |cols| && cols[k].name == name {
      assert more[k].name == name;
    }
    assert more[|cols|] == c;
  }

  lemma ListedAt(cols: seq<TableColumn>, k: nat)
    requires k < |cols|
    ensures Listed(cols, cols[k].name)
  {
  }

  lemma CollectedExactly(table: seq<TableColumn>, sort: Option<Sort>, cols: seq<TableColumn>)
    requires DistinctNames(table) && Collected(table, sort, cols, |table|)
    ensures forall c :: c in cols <==> c in table && Needed(c, sort)
  {
    forall c | c in table && Needed(c, sort) ensures c in cols {
      assert Listed(cols, c.name);
      var k :| 0 <= k < |cols| && cols[k].name == c.name;
      assert cols[k] in table && cols[k] == c;
    }
  }

  lemma CollectedIsPlan(table: seq<TableColumn>, sort: Option<Sort>, cols: seq<TableColumn>, keys: seq<Key>, asc: bool)
    requires DistinctNames(table) && Collected(table, sort, cols, |table|)
    requires exists j :: 0 <= j < |table| && table[j].primary
    requires |keys| == |cols| && forall i :: 0 <= i < |cols| ==> keys[i] == Key(cols[i].name, asc)
    requires asc == (sort.None? || sort.value.asc)
    ensures IsPlan(keys, table, sort)
  {
    hide Needed, Names, Listed;
    CollectedExactly(table, sort, cols);
    PrimaryIsCollected(table, sort, cols);
    forall c | c in table ensures Needed(c, sort) <==> Names(keys, c.name) {
      NeededIsNamed(table, sort, cols, keys, asc, c);
    }
    forall k | k in keys ensures exists c :: c in table && c.name == k.column {
      var i :| 0 <= i < |keys| && keys[i] == k;
      assert cols[i] in table;
    }
  }

  lemma PrimaryIsCollected(table: seq<TableColumn>, sort: Option<Sort>, cols: seq<TableColumn>)
    requires Collected(table, sort, cols, |table|)
    requires exists j :: 0 <= j < |table| && table[j].primary
    ensures cols != []
  {
    hide Needed;
    var j :| 0 <= j < |table| && table[j].primary;
    assert Listed(cols, table[j].name);
  }

  lemma NeededIsNamed(table: seq<TableColumn>, sort: Option<Sort>, cols: seq<TableColumn>, keys: seq<Key>, asc: bool,
                      c: TableColumn)
    requires DistinctNames(table) && c in table && forall d :: d in cols <==> d in table && Needed(d, sort)
    requires |keys| == |cols| && forall i :: 0 <= i < |cols| ==> keys[i] == Key(cols[i].name, asc)
    ensures Needed(c, sort) <==> Names(keys, c.name)
  {
    hide Needed;
    NamesOfColumns(cols, keys, asc, c.name);
    if Listed(cols, c.name) {
      var k :| 0 <= k < |cols| && cols[k].name == c.name;
      assert cols[k] in cols && cols[k] == c;
    }
  }

  lemma NamesOfColumns(cols: seq<TableColumn>, keys: seq<Key>, asc: bool, name: string)
    requires |keys| == |cols| && forall i :: 0 <= i < |cols| ==> keys[i] == Key(cols[i].name, asc)
    ensures Names(keys, name) <==> Listed(cols, name)
    ensures forall c :: c in cols && c.name == name ==> Listed(cols, name)
  {
    if k :| 0 <= k < |cols| && cols[k].name == name {
      assert keys[k].column == name;
    }
  }

  // --- the keys order the table ---

  /** Columns that are not nullable hold values, and no two rows share their primary key. */
  ghost predicate Stored(rows: set<Row>, columns: seq<TableColumn>) {
    && (forall r, c :: r in rows && c in columns && !c.nullable ==> Get(r, c.name).Val?)
    && (forall r, q :: r in rows && q in rows && r != q ==>
          exists c :: c in columns && c.primary && Get(r, c.name) != Get(q, c.name))
  }

  /** Two rows with values in the keys, one of which differs, are ordered one way or the other. */
  lemma {:induction false} Comparable(keys: seq<Key>, a: Row, b: Row, i: nat)
    requires HasKeys(keys, a) && HasKeys(keys, b) && i < |keys|
    requires Get(a, keys[i].column) != Get(b, keys[i].column)
    ensures Before(keys, a, b) || Before(keys, b, a)
  {
    assert AnchorOf(keys, a)[0] == Get(a, keys[0].column).n && AnchorOf(keys, b)[0] == Get(b, keys[0].column).n;
    if Get(a, keys[0].column) == Get(b, keys[0].column) {
      Comparable(keys[1..], a, b, i - 1);
      assert AnchorOf(keys, a)[1..] == AnchorOf(keys[1..], a) && AnchorOf(keys, b)[1..] == AnchorOf(keys[1..], b);
    }
  }

  lemma {:induction false} Transitive(keys: seq<Key>, a: Row, b: Row, c: Row)
    requires HasKeys(keys, a) && HasKeys(keys, b) && Before(keys, a, b) && Before(keys, b, c)
    ensures Before(keys, a, c)
  {
    assert AnchorOf(keys, a)[0] == Get(a, keys[0].column).n && AnchorOf(keys, b)[0] == Get(b, keys[0].column).n;
    assert AnchorOf(keys, a)[1..] == AnchorOf(keys[1..], a) && AnchorOf(keys, b)[1..] == AnchorOf(keys[1..], b);
    if Get(a, keys[0].column) == Get(b, keys[0].column) == Get(c, keys[0].column) {
      Transitive(keys[1..], a, b, c);
    }
  }

  ghost predicate Ordered(keys: seq<Key>, rows: set<Row>) {
    && (forall r :: r in rows ==> HasKeys(keys, r))
    && (forall r, q :: r in rows && q in rows && r != q ==> Before(keys, r, q) || Before(keys, q, r))
  }

  lemma {:induction false} HasOrdering(keys: seq<Key>, rows: set<Row>) returns (s: seq<Row>)
    requires Ordered(keys, rows)
    ensures IsOrdering(s, rows, keys)
    decreases |rows|
  {
    hide Before, HasKeys;
    if rows == {} {
      s := [];
    } else {
      var r :| r in rows;
      var t := HasOrdering(keys, rows - {r});
      var p := 0;
      while p < |t| && Before(keys, t[p], r)
        invariant 0 <= p <= |t|
        invariant forall i :: 0 <= i < p ==> Before(keys, t[i], r)
      {
        p := p + 1;
      }
      s := t[..p] + [r] + t[p..];
      Inserted(keys, rows, r, t, p);
    }
  }

  lemma Inserted(keys: seq<Key>, rows: set<Row>, r: Row, t: seq<Row>, p: nat)
    requires Ordered(keys, rows) && r in rows && IsOrdering(t, rows - {r}, keys)
    requires p <= |t| && (forall i :: 0 <= i < p ==> Before(keys, t[i], r)) && (p < |t| ==> !Before(keys, t[p], r))
    ensures IsOrdering(t[..p] + [r] + t[p..], rows, keys)
  {
    hide Before, HasKeys;
    var s := t[..p] + [r] + t[p..];
    forall i | p <= i < |t| ensures Before(keys, r, t[i]) {
      assert t[p] in t && t[p] in rows - {r};
      if p < i {
        Transitive(keys, r, t[p], t[i]);
      }
    }
    forall i, j | 0 <= i < j < |s| ensures Before(keys, s[i], s[j]) {
      var i1, j1 := if i <= p then i else i - 1, if j <= p then j else j - 1;
      if i != p && j != p {
        assert Before(keys, t[i1], t[j1]);
      }
    }
    forall x ensures x in s <==> x in rows {
      assert x in s <==> x in t[..p] || x == r || x in t[p..];
      assert t == t[..p] + t[p..];
      assert x in t <==> x in t[..p] || x in t[p..];
      assert x in t <==> x in rows - {r};
    }
  }

  lemma PlanIsOrdered(keys: seq<Key>, columns: seq<TableColumn>, sort: Option<Sort>, result: seq<string>,
                      rows: set<Row>)
    requires IsPlan(keys, columns, sort) && !Unusable(Some(columns), sort, result)
    requires exists table :: rows <= table && Stored(table, columns)
    ensures Ordered(keys, rows)
  {
    hide Before;
    var table :| rows <= table && Stored(table, columns);
    forall r | r in rows ensures HasKeys(keys, r) {
      forall i | 0 <= i < |keys| ensures Get(r, keys[i].column).Val? {
        assert keys[i] in keys;
        var c :| c in columns && c.name == keys[i].column;
        assert Names(keys, c.name);
      }
    }
    forall r, q | r in rows && q in rows && r != q ensures Before(keys, r, q) || Before(keys, q, r) {
      var c :| c in columns && c.primary && Get(r, c.name) != Get(q, c.name);
      assert Names(keys, c.name);
      var i :| 0 <= i < |keys| && keys[i].column == c.name;
      Comparable(keys, r, q, i);
    }
  }

  /** Every plan the resolver returns lists any rows of the table in exactly one order. */
  lemma PlanOrdersRows(keys: seq<Key>, columns: seq<TableColumn>, sort: Option<Sort>, result: seq<string>,
                       rows: set<Row>)
    requires IsPlan(keys, columns, sort) && !Unusable(Some(columns), sort, result) && Stored(rows, columns)
    ensures exists s :: IsOrdering(s, rows, keys)
    ensures forall s, t :: IsOrdering(s, rows, keys) && IsOrdering(t, rows, keys) ==> s == t
  {
    hide Before, Stored, Unusable, IsPlan;
    PlanIsOrdered(keys, columns, sort, result, rows);
    var s := HasOrdering(keys, rows);
    forall u, t | IsOrdering(u, rows, keys) && IsOrdering(t, rows, keys) ensures u == t {
      OrderingIsUnique(u, t, rows, keys);
    }
  }
}
