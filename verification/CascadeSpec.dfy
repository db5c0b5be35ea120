/** Which child rows a deletion takes with it, and how the counting predicates describe them. */
module CascadeSpec {
  import opened Common

  datatype Value = Null | Val(n: int)

  type Row = map<string, Value>

  datatype TableName = TableName(schema: string, name: string)

  type Db = map<TableName, seq<Row>>

  datatype OnDelete = Cascade | SetNull | SetDefault | Restrict | NoAction

  datatype Fk = Fk(schema: Option<string>, table: string, column: string, referencedColumn: string, onDelete: OnDelete)

  datatype FkKey = FkKey(schema: string, table: string, column: string, referencedColumn: string)

  /** What tells foreign keys apart; no schema and an empty one are the same. */
  function EdgeKey(fk: Fk): FkKey {
    FkKey(if fk.schema.Some? then fk.schema.value else "", fk.table, fk.column, fk.referencedColumn)
  }

  /** The name a child table is shown by. */
  function ChildName(fk: Fk): string {
    if fk.schema.Some? && fk.schema.value != "" then fk.schema.value + "." + fk.table else fk.table
  }

  /** Keys are the same exactly when table and columns are, and the schema, none or empty being one. */
  lemma KeysTellApart(f: Fk, g: Fk)
    ensures EdgeKey(f) == EdgeKey(g) <==>
            && f.table == g.table && f.column == g.column && f.referencedColumn == g.referencedColumn
            && (f.schema == g.schema || {f.schema, g.schema} <= {None, Some("")})
    ensures f.schema in {None, Some("")} ==> ChildName(f) == f.table
    ensures f.schema.Some? && f.schema.value != "" ==> ChildName(f) == f.schema.value + "." + f.table
  {
    assert f.schema in {f.schema, g.schema} && g.schema in {f.schema, g.schema};
  }

  /** The child table of a foreign key; without a schema it lives in the current database. */
  function Child(database: string, fk: Fk): TableName {
    TableName(if fk.schema.Some? then fk.schema.value else database, fk.table)
  }

  function Rows(db: Db, t: TableName): seq<Row> { if t in db then db[t] else [] }

  function Get(row: Row, column: string): Value { if column in row then row[column] else Null }

  /** The predicates the counting queries use. */
  datatype Pred =
    | InValues(column: string, vals: seq<Value>)
    | InSelect(column: string, ref: string, from: TableName, inner: Pred)

  ghost predicate Sat(db: Db, p: Pred, row: Row)
    decreases p
  {
    var v := Get(row, p.column);
    v != Null &&
    match p
    case InValues(_, vals) => v in vals
    case InSelect(_, ref, from, inner) =>
      exists j :: 0 <= j < |Rows(db, from)| && Sat(db, inner, Rows(db, from)[j]) && Get(Rows(db, from)[j], ref) == v
  }

  /** The rows of `t` that satisfy `p`, by position. */
  ghost function Matching(db: Db, t: TableName, p: Pred): set<nat> {
    set i: nat | i < |Rows(db, t)| && Sat(db, p, Rows(db, t)[i])
  }

  ghost function Union(db: Db, t: TableName, ps: seq<Pred>): set<nat> {
    if ps == [] then {} else Matching(db, t, ps[0]) + Union(db, t, ps[1..])
  }

  /** What the counting queries report for a list of predicates: the sum of their counts. */
  ghost function Count(db: Db, t: TableName, ps: seq<Pred>): nat {
    if ps == [] then 0 else |Matching(db, t, ps[0])| + Count(db, t, ps[1..])
  }

  ghost predicate Disjoint(db: Db, t: TableName, ps: seq<Pred>) {
    forall i, j :: 0 <= i < j < |ps| ==> Matching(db, t, ps[i]) !! Matching(db, t, ps[j])
  }

  lemma {:induction false} InUnion(db: Db, t: TableName, ps: seq<Pred>, i: nat)
    ensures i in Union(db, t, ps) <==> exists k :: 0 <= k < |ps| && i in Matching(db, t, ps[k])
  {
    hide Matching;
    if ps != [] {
      InUnion(db, t, ps[1..], i);
      assert forall k :: 1 <= k < |ps| ==> ps[k] == ps[1..][k - 1];
      if k :| 0 <= k < |ps[1..]| && i in Matching(db, t, ps[1..][k]) {
        assert i in Matching(db, t, ps[k + 1]);
      }
    }
  }

  lemma DisjointFirst(db: Db, t: TableName, ps: seq<Pred>)
    requires Disjoint(db, t, ps) && ps != []
    ensures Disjoint(db, t, ps[1..]) && Matching(db, t, ps[0]) !! Union(db, t, ps[1..])
  {
    hide Matching, Union;
    var rest := ps[1..];
    assert forall k :: 0 <= k < |rest| ==> rest[k] == ps[k + 1];
    forall i | i in Matching(db, t, ps[0]) ensures i !in Union(db, t, rest) {
      InUnion(db, t, rest, i);
    }
  }

  lemma SizeOfUnion(a: set<nat>, b: set<nat>)
    ensures |a + b| <= |a| + |b| && (a !! b ==> |a + b| == |a| + |b|)
    ensures |a + b| == 0 <==> |a| + |b| == 0
  {
    assert |a + b| == |a| + |b| - |a * b|;
    assert |a * b| <= |a| && |a * b| <= |b| by {
      assert a == a * b + (a - b) && b == a * b + (b - a);
    }
  }

  /** The sum bounds the number of rows from above, vanishes with it, and is exact for disjoint predicates. */
  lemma {:induction false} CountOfUnion(db: Db, t: TableName, ps: seq<Pred>)
    ensures |Union(db, t, ps)| <= Count(db, t, ps)
    ensures Count(db, t, ps) == 0 <==> Union(db, t, ps) == {}
    ensures Disjoint(db, t, ps) ==> Count(db, t, ps) == |Union(db, t, ps)|
  {
    hide Matching, Disjoint;
    if ps != [] {
      CountOfUnion(db, t, ps[1..]);
      SizeOfUnion(Matching(db, t, ps[0]), Union(db, t, ps[1..]));
      if Disjoint(db, t, ps) {
        DisjointFirst(db, t, ps);
      }
    }
  }

  // --- one level further down ---

  function Below(g: Fk, from: TableName, ps: seq<Pred>): seq<Pred> {
    seq(|ps|, k requires 0 <= k < |ps| => InSelect(g.column, g.referencedColumn, from, ps[k]))
  }

  /** The rows of `t` whose `column` refers to one of the rows `parents` of `from` by its `ref`. */
  ghost function Referring(db: Db, t: TableName, column: string, ref: string, from: TableName,
                           parents: set<nat>): set<nat>
  {
    set i: nat | i < |Rows(db, t)| && RefersTo(db, Get(Rows(db, t)[i], column), ref, from, parents)
  }

  ghost predicate RefersTo(db: Db, v: Value, ref: string, from: TableName, parents: set<nat>) {
    v != Null && exists j :: j in parents && j < |Rows(db, from)| && Get(Rows(db, from)[j], ref) == v
  }

  lemma SelectMatches(db: Db, t: TableName, g: Fk, from: TableName, p: Pred)
    ensures Matching(db, t, InSelect(g.column, g.referencedColumn, from, p)) ==
            Referring(db, t, g.column, g.referencedColumn, from, Matching(db, from, p))
  {
    forall i: nat | i < |Rows(db, t)|
      ensures Sat(db, InSelect(g.column, g.referencedColumn, from, p), Rows(db, t)[i]) <==>
              RefersTo(db, Get(Rows(db, t)[i], g.column), g.referencedColumn, from, Matching(db, from, p))
    {
      var v := Get(Rows(db, t)[i], g.column);
      if RefersTo(db, v, g.referencedColumn, from, Matching(db, from, p)) {
        var j :| j in Matching(db, from, p) && Get(Rows(db, from)[j], g.referencedColumn) == v;
        assert Sat(db, p, Rows(db, from)[j]);
      }
      if Sat(db, InSelect(g.column, g.referencedColumn, from, p), Rows(db, t)[i]) {
        var j :| 0 <= j < |Rows(db, from)| && Sat(db, p, Rows(db, from)[j]) &&
        Get(Rows(db, from)[j], g.referencedColumn) == v;
        assert j in Matching(db, from, p);
      }
    }
  }

  lemma {:induction false} BelowUnion(db: Db, t: TableName, g: Fk, from: TableName, ps: seq<Pred>)
    ensures Union(db, t, Below(g, from, ps)) ==
            Referring(db, t, g.column, g.referencedColumn, from, Union(db, from, ps))
  {
    if ps != [] {
      assert Below(g, from, ps)[1..] == Below(g, from, ps[1..]);
      SelectMatches(db, t, g, from, ps[0]);
      BelowUnion(db, t, g, from, ps[1..]);
      ReferringUnion(db, t, g, from, Matching(db, from, ps[0]), Union(db, from, ps[1..]));
    }
  }

  lemma ReferringUnion(db: Db, t: TableName, g: Fk, from: TableName, a: set<nat>, b: set<nat>)
    ensures Referring(db, t, g.column, g.referencedColumn, from, a + b) ==
            Referring(db, t, g.column, g.referencedColumn, from, a) +
            Referring(db, t, g.column, g.referencedColumn, from, b)
  {
    forall v ensures RefersTo(db, v, g.referencedColumn, from, a + b) <==>
                     RefersTo(db, v, g.referencedColumn, from, a) || RefersTo(db, v, g.referencedColumn, from, b)
    {
      if RefersTo(db, v, g.referencedColumn, from, a + b) {
        var j :| j in a + b && j < |Rows(db, from)| && Get(Rows(db, from)[j], g.referencedColumn) == v;
        assert j in a || j in b;
      }
    }
  }

  ghost predicate UniqueColumn(db: Db, t: TableName, column: string) {
    forall i, j :: 0 <= i < j < |Rows(db, t)| ==>
      Get(Rows(db, t)[i], column) == Null || Get(Rows(db, t)[i], column) != Get(Rows(db, t)[j], column)
  }

  /** Branches that count different parents count different children when the referenced column is unique. */
  lemma BelowDisjoint(db: Db, t: TableName, g: Fk, from: TableName, ps: seq<Pred>)
    requires Disjoint(db, from, ps) && UniqueColumn(db, from, g.referencedColumn)
    ensures Disjoint(db, t, Below(g, from, ps))
  {
    var bs := Below(g, from, ps);
    forall x, y | 0 <= x < y < |bs| ensures Matching(db, t, bs[x]) !! Matching(db, t, bs[y]) {
      SelectMatches(db, t, g, from, ps[x]);
      SelectMatches(db, t, g, from, ps[y]);
      ReferringDisjoint(db, t, g, from, Matching(db, from, ps[x]), Matching(db, from, ps[y]));
    }
  }

  lemma ReferringDisjoint(db: Db, t: TableName, g: Fk, from: TableName, a: set<nat>, b: set<nat>)
    requires a !! b && UniqueColumn(db, from, g.referencedColumn)
    ensures Referring(db, t, g.column, g.referencedColumn, from, a) !!
            Referring(db, t, g.column, g.referencedColumn, from, b)
  {
    forall v | RefersTo(db, v, g.referencedColumn, from, a) ensures !RefersTo(db, v, g.referencedColumn, from, b) {
      var j :| j in a && j < |Rows(db, from)| && Get(Rows(db, from)[j], g.referencedColumn) == v;
      forall j' | j' in b && j' < |Rows(db, from)| ensures Get(Rows(db, from)[j'], g.referencedColumn) != v {
        assert j != j';
      }
    }
  }

  // --- the first level ---

  const IN_CHUNK := 500

  /** The first level's predicates for the key values `vals`, in chunks of `IN_CHUNK`. */
  function KeyPreds(column: string, vals: seq<Value>): seq<Pred>
    decreases |vals|
  {
    if vals == [] then []
    else if |vals| <= IN_CHUNK then [InValues(column, vals)]
    else [InValues(column, vals[..IN_CHUNK])] + KeyPreds(column, vals[IN_CHUNK..])
  }

  /** Chunk `k` of the key values: the next 500 of them, or the rest. */
  predicate IsChunk(p: Pred, column: string, vals: seq<Value>, k: nat) {
    && p.InValues? && p.column == column && k * 500 < |vals|
    && p.vals == vals[k * 500..if (k + 1) * 500 < |vals| then (k + 1) * 500 else |vals|]
  }

  /** Each predicate has the next chunk of values, none is empty, and together they have all values. */
  lemma {:induction false} KeyPredsAreChunks(column: string, vals: seq<Value>)
    ensures var ps := KeyPreds(column, vals);
            (forall k :: 0 <= k < |ps| ==> IsChunk(ps[k], column, vals, k)) && |vals| <= |ps| * 500
    decreases |vals|
  {
    if |vals| > IN_CHUNK {
      var rest, ps := vals[IN_CHUNK..], KeyPreds(column, vals);
      KeyPredsAreChunks(column, rest);
      var more := KeyPreds(column, rest);
      assert ps == [InValues(column, vals[..IN_CHUNK])] + more;
      hide KeyPreds, IsChunk;
      assert IsChunk(ps[0], column, vals, 0) by {
        FirstIsChunk(column, vals);
      }
      forall k | 1 <= k < |ps| ensures IsChunk(ps[k], column, vals, k) {
        assert ps[k] == more[k - 1];
        ChunkMovesUp(ps[k], column, vals, k);
      }
    }
  }

  lemma FirstIsChunk(column: string, vals: seq<Value>)
    requires |vals| > IN_CHUNK
    ensures IsChunk(InValues(column, vals[..IN_CHUNK]), column, vals, 0)
  {
  }

  lemma ChunkMovesUp(p: Pred, column: string, vals: seq<Value>, k: nat)
    requires 1 <= k && |vals| > IN_CHUNK && IsChunk(p, column, vals[IN_CHUNK..], k - 1)
    ensures IsChunk(p, column, vals, k)
  {
    var rest, from := vals[500..], (k - 1) * 500;
    var to := if k * 500 < |rest| then k * 500 else |rest|;
    assert p.vals == rest[from..to];
    assert rest[from..to] == vals[from + 500..to + 500];
  }

  ghost function HoldingOneOf(db: Db, t: TableName, column: string, vals: seq<Value>): set<nat> {
    set i: nat | i < |Rows(db, t)| && Get(Rows(db, t)[i], column) != Null && Get(Rows(db, t)[i], column) in vals
  }

  ghost predicate Distinct(vals: seq<Value>) {
    forall i, j :: 0 <= i < j < |vals| ==> vals[i] != vals[j]
  }

  /** Chunking the keys loses no row, and counts none twice when the key values are distinct. */
  lemma {:induction false} KeyPredsCover(db: Db, t: TableName, column: string, vals: seq<Value>)
    ensures Union(db, t, KeyPreds(column, vals)) == HoldingOneOf(db, t, column, vals)
    ensures Distinct(vals) ==> Disjoint(db, t, KeyPreds(column, vals))
    decreases |vals|
  {
    var ps := KeyPreds(column, vals);
    if |vals| > IN_CHUNK {
      var a, b := vals[..IN_CHUNK], vals[IN_CHUNK..];
      assert vals == a + b;
      KeyPredsCover(db, t, column, b);
      assert ps[1..] == KeyPreds(column, b);
      assert Matching(db, t, ps[0]) == HoldingOneOf(db, t, column, a);
      if Distinct(vals) {
        assert Distinct(b);
        forall j | 1 <= j < |ps| ensures Matching(db, t, ps[0]) !! Matching(db, t, ps[j]) {
          forall i | i in Matching(db, t, ps[0]) ensures i !in Matching(db, t, ps[j]) {
            InUnion(db, t, ps[1..], i);
            assert ps[1..][j - 1] == ps[j];
            ChunksApart(vals, Get(Rows(db, t)[i], column));
          }
        }
        assert forall i, j :: 1 <= i < j < |ps| ==> ps[1..][i - 1] == ps[i] && ps[1..][j - 1] == ps[j];
      }
    } else if vals != [] {
      assert ps[1..] == [];
    }
  }

  lemma ChunksApart(vals: seq<Value>, v: Value)
    requires |vals| > IN_CHUNK && Distinct(vals) && v in vals[..IN_CHUNK]
    ensures v !in vals[IN_CHUNK..]
  {
  }
}
