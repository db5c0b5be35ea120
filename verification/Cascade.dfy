/** The bounded breadth-first search through foreign keys that delete their children. */
module Cascade {
  import opened Common
  import opened CascadeSpec

  const MAX_DEPTH := 3
  const MAX_EDGES := 24
  const BRANCHES_PER_QUERY := 100

  /** What the search is given; `roots` are the first level's predicates, `incoming` the schema. */
  datatype Query = Query(database: string, parentTable: string, refs: seq<Fk>, roots: Fk -> seq<Pred>,
                         incoming: Fk -> seq<Fk>)

  datatype Edge = Edge(fk: Fk, preds: seq<Pred>, parentName: string, depth: nat)

  datatype Impact = Impact(parentName: string, fk: Fk, count: nat, depth: nat)

  datatype Report = Report(impacts: seq<Impact>, moreCascade: bool, unverified: seq<string>)

  datatype Result = Counted(report: Report) | Failed

  // --- paths of foreign keys ---

  function Last(path: seq<Fk>): Fk
    requires path != []
  {
    path[|path| - 1]
  }

  function Front(path: seq<Fk>): seq<Fk>
    requires path != []
  {
    path[..|path| - 1]
  }

  function PredsOf(q: Query, path: seq<Fk>): seq<Pred>
    requires path != []
  {
    if |path| == 1 then q.roots(path[0])
    else Below(Last(path), Child(q.database, Last(Front(path))), PredsOf(q, Front(path)))
  }

  function EdgeOf(q: Query, path: seq<Fk>): Edge
    requires path != []
  {
    Edge(Last(path), PredsOf(q, path), if |path| == 1 then q.parentTable else ChildName(Last(Front(path))), |path|)
  }

  ghost function CountOf(db: Db, q: Query, path: seq<Fk>): nat
    requires path != []
  {
    Count(db, Child(q.database, Last(path)), PredsOf(q, path))
  }

  function ImpactOf(e: Edge, count: nat): Impact { Impact(e.parentName, e.fk, count, e.depth) }

  /** The child rows the chain reaches, told without predicates. */
  ghost function Reached(db: Db, q: Query, path: seq<Fk>): set<nat>
    requires path != []
  {
    var g := Last(path);
    if |path| == 1 then Union(db, Child(q.database, g), q.roots(g))
    else
      var f := Last(Front(path));
      Referring(db, Child(q.database, g), g.column, g.referencedColumn, Child(q.database, f),
                Reached(db, q, Front(path)))
  }

  /** A chain the deletion runs down: each key but the last deletes rows of its child by CASCADE. */
  ghost predicate IsPath(db: Db, q: Query, path: seq<Fk>)
    decreases |path|
  {
    path != [] &&
    if |path| == 1 then path[0] in q.refs && q.roots(path[0]) != []
    else
      var p := Front(path);
      IsPath(db, q, p) && Last(path) in q.incoming(Last(p)) && Last(p).onDelete == CascadeSpec.Cascade &&
      Reached(db, q, p) != {}
  }

  /** Every key of the chain refers to a unique column, and the first level's predicates do not overlap. */
  ghost predicate Exact(db: Db, q: Query, path: seq<Fk>)
    requires path != []
  {
    if |path| == 1 then Disjoint(db, Child(q.database, path[0]), q.roots(path[0]))
    else UniqueColumn(db, Child(q.database, Last(Front(path))), Last(path).referencedColumn) &&
         Exact(db, q, Front(path))
  }

  /** The nested subqueries select exactly the rows the chain reaches. */
  lemma {:induction false} PredsReach(db: Db, q: Query, path: seq<Fk>)
    requires path != []
    ensures Union(db, Child(q.database, Last(path)), PredsOf(q, path)) == Reached(db, q, path)
    ensures Exact(db, q, path) ==> Disjoint(db, Child(q.database, Last(path)), PredsOf(q, path))
    decreases |path|
  {
    if |path| > 1 {
      var p := Front(path);
      var t, from := Child(q.database, Last(path)), Child(q.database, Last(p));
      PredsReach(db, q, p);
      BelowUnion(db, t, Last(path), from, PredsOf(q, p));
      if Exact(db, q, path) {
        BelowDisjoint(db, t, Last(path), from, PredsOf(q, p));
      }
    }
  }

  /** The count reported for a chain is positive exactly when it reaches rows, and exact under `Exact`. */
  lemma CountIsReached(db: Db, q: Query, path: seq<Fk>)
    requires path != []
    ensures CountOf(db, q, path) > 0 <==> Reached(db, q, path) != {}
    ensures CountOf(db, q, path) >= |Reached(db, q, path)|
    ensures Exact(db, q, path) ==> CountOf(db, q, path) == |Reached(db, q, path)|
  {
    PredsReach(db, q, path);
    CountOfUnion(db, Child(q.database, Last(path)), PredsOf(q, path));
  }

  // --- the rows told from the tables alone ---

  /** A row of `t` whose `column` is there, not NULL and has the value `v`. */
  ghost predicate HasValue(db: Db, t: TableName, i: nat, column: string, v: Value) {
    t in db && i < |db[t]| && column in db[t][i] && db[t][i][column] == v && v.Val?
  }

  /** The table a key belongs to: in its own schema, or in the current database. */
  ghost predicate IsTableOf(t: TableName, database: string, fk: Fk) {
    t.name == fk.table && t.schema == (match fk.schema case Some(s) => s case None => database)
  }

  lemma ValueOfRow(db: Db, t: TableName, i: nat, column: string, v: Value)
    ensures HasValue(db, t, i, column, v) <==>
            i < |Rows(db, t)| && Get(Rows(db, t)[i], column) == v && v != Null
  {
  }

  lemma MatchingIsTold(db: Db, t: TableName, p: Pred, i: nat)
    requires p.InValues?
    ensures i in Matching(db, t, p) <==> exists v :: v in p.vals && HasValue(db, t, i, p.column, v)
  {
    hide HasValue;
    forall v ensures HasValue(db, t, i, p.column, v) <==>
                     i < |Rows(db, t)| && Get(Rows(db, t)[i], p.column) == v && v != Null
    {
      ValueOfRow(db, t, i, p.column, v);
    }
    hide Rows, Get;
    if i in Matching(db, t, p) {
      assert HasValue(db, t, i, p.column, Get(Rows(db, t)[i], p.column));
    }
  }

  /** The first level by values: the child rows whose column has one of them. */
  lemma RootRowsAreTold(db: Db, q: Query, fk: Fk, t: TableName, i: nat)
    requires forall p :: p in q.roots(fk) ==> p.InValues? && p.column == fk.column
    requires IsTableOf(t, q.database, fk)
    ensures i in Reached(db, q, [fk]) <==>
            exists p, v :: p in q.roots(fk) && v in p.vals && HasValue(db, t, i, fk.column, v)
  {
    assert Child(q.database, fk) == t;
    hide Matching, HasValue, Child;
    InUnion(db, t, q.roots(fk), i);
    forall p | p in q.roots(fk)
      ensures i in Matching(db, t, p) <==> exists v :: v in p.vals && HasValue(db, t, i, fk.column, v)
    {
      MatchingIsTold(db, t, p, i);
    }
  }

  ghost predicate Refers(db: Db, t: TableName, i: nat, g: Fk, from: TableName, j: nat) {
    exists v :: HasValue(db, from, j, g.referencedColumn, v) && HasValue(db, t, i, g.column, v)
  }

  lemma ReferringIsTold(db: Db, t: TableName, g: Fk, from: TableName, parents: set<nat>, i: nat)
    ensures i in Referring(db, t, g.column, g.referencedColumn, from, parents) <==>
            exists j :: j in parents && Refers(db, t, i, g, from, j)
  {
    var v := if i < |Rows(db, t)| then Get(Rows(db, t)[i], g.column) else Null;
    forall j | j in parents
      ensures Refers(db, t, i, g, from, j) <==>
              i < |Rows(db, t)| && v != Null && j < |Rows(db, from)| && Get(Rows(db, from)[j], g.referencedColumn) == v
    {
      RefersIsTold(db, t, i, g, from, j, v);
    }
    hide Rows, Get, Refers;
  }

  lemma RefersIsTold(db: Db, t: TableName, i: nat, g: Fk, from: TableName, j: nat, v: Value)
    requires v == if i < |Rows(db, t)| then Get(Rows(db, t)[i], g.column) else Null
    ensures Refers(db, t, i, g, from, j) <==>
            i < |Rows(db, t)| && v != Null && j < |Rows(db, from)| && Get(Rows(db, from)[j], g.referencedColumn) == v
  {
    hide HasValue;
    forall w ensures HasValue(db, t, i, g.column, w) <==>
                     i < |Rows(db, t)| && Get(Rows(db, t)[i], g.column) == w && w != Null
    {
      ValueOfRow(db, t, i, g.column, w);
    }
    forall w ensures HasValue(db, from, j, g.referencedColumn, w) <==>
                     j < |Rows(db, from)| && Get(Rows(db, from)[j], g.referencedColumn) == w && w != Null
    {
      ValueOfRow(db, from, j, g.referencedColumn, w);
    }
    hide Rows, Get;
    if i < |Rows(db, t)| && v != Null && j < |Rows(db, from)| && Get(Rows(db, from)[j], g.referencedColumn) == v {
      assert HasValue(db, from, j, g.referencedColumn, v) && HasValue(db, t, i, g.column, v);
    }
  }

  /** Each further level: the child rows whose column refers to a row reached before. */
  lemma NextRowsAreTold(db: Db, q: Query, path: seq<Fk>, g: Fk, t: TableName, from: TableName, i: nat)
    requires path != [] && IsTableOf(t, q.database, g) && IsTableOf(from, q.database, Last(path))
    ensures i in Reached(db, q, path + [g]) <==>
            exists j :: j in Reached(db, q, path) && Refers(db, t, i, g, from, j)
  {
    assert Front(path + [g]) == path && Last(path + [g]) == g;
    assert Child(q.database, g) == t && Child(q.database, Last(path)) == from;
    hide Referring, Refers, Child;
    ReferringIsTold(db, t, g, from, Reached(db, q, path), i);
  }

  // --- counting one level ---

  /** The database answers a counting branch with the number of matching rows. */
  ghost predicate Answers(db: Db, answer: (TableName, Pred) -> nat) {
    forall t, p :: answer(t, p) == |Matching(db, t, p)|
  }

  datatype Branch = Branch(i: nat, table: TableName, pred: Pred)

  function EdgeBranches(database: string, i: nat, e: Edge): seq<Branch> {
    seq(|e.preds|, k requires 0 <= k < |e.preds| => Branch(i, Child(database, e.fk), e.preds[k]))
  }

  function LevelBranches(database: string, level: seq<Edge>): seq<Branch> {
    if level == [] then []
    else LevelBranches(database, level[..|level| - 1]) + EdgeBranches(database, |level| - 1, level[|level| - 1])
  }

  ghost function SumFor(db: Db, bs: seq<Branch>, i: nat): nat {
    if bs == [] then 0
    else SumFor(db, bs[..|bs| - 1], i) +
         var b := bs[|bs| - 1]; if b.i == i then |Matching(db, b.table, b.pred)| else 0
  }

  lemma {:induction false} SumForAppend(db: Db, a: seq<Branch>, b: seq<Branch>, i: nat)
    ensures SumFor(db, a + b, i) == SumFor(db, a, i) + SumFor(db, b, i)
  {
    if b == [] {
      assert a + b == a;
    } else {
      assert (a + b)[..|a + b| - 1] == a + b[..|b| - 1];
      SumForAppend(db, a, b[..|b| - 1], i);
    }
  }

  lemma {:induction false} CountAppend(db: Db, t: TableName, a: seq<Pred>, p: Pred)
    ensures Count(db, t, a + [p]) == Count(db, t, a) + |Matching(db, t, p)|
  {
    if a == [] {
      assert a + [p] == [p];
    } else {
      assert (a + [p])[1..] == a[1..] + [p];
      CountAppend(db, t, a[1..], p);
    }
  }

  lemma {:induction false} SumForEdge(db: Db, database: string, i: nat, e: Edge, j: nat)
    ensures SumFor(db, EdgeBranches(database, i, e), j) ==
            if i == j then Count(db, Child(database, e.fk), e.preds) else 0
    decreases |e.preds|
  {
    var n := |e.preds|;
    if n > 0 {
      var e' := e.(preds := e.preds[..n - 1]);
      var bs := EdgeBranches(database, i, e);
      assert bs[..n - 1] == EdgeBranches(database, i, e');
      SumForEdge(db, database, i, e', j);
      CountAppend(db, Child(database, e.fk), e'.preds, e.preds[n - 1]);
      assert e'.preds + [e.preds[n - 1]] == e.preds;
    }
  }

  lemma {:induction false} SumForLevel(db: Db, database: string, level: seq<Edge>, i: nat)
    ensures SumFor(db, LevelBranches(database, level), i) ==
            if i < |level| then Count(db, Child(database, level[i].fk), level[i].preds) else 0
  {
    if level != [] {
      var n := |level| - 1;
      SumForLevel(db, database, level[..n], i);
      SumForAppend(db, LevelBranches(database, level[..n]), EdgeBranches(database, n, level[n]), i);
      SumForEdge(db, database, n, level[n], i);
    }
  }

  /** One query's result rows, added up by edge number. */
  method SumRefCounts(ghost db: Db, answer: (TableName, Pred) -> nat, bs: seq<Branch>, totals: map<nat, nat>)
    returns (sums: map<nat, nat>)
    requires Answers(db, answer)
    ensures forall i :: Total(sums, i) == Total(totals, i) + SumFor(db, bs, i)
  {
    sums := totals;
    for k := 0 to |bs|
      invariant forall i :: Total(sums, i) == Total(totals, i) + SumFor(db, bs[..k], i)
    {
      assert bs[..k + 1][..k] == bs[..k];
      sums := sums[bs[k].i := Total(sums, bs[k].i) + answer(bs[k].table, bs[k].pred)];
    }
    assert bs[..|bs|] == bs;
  }

  function Total(totals: map<nat, nat>, i: nat): nat { if i in totals then totals[i] else 0 }

  /** Counts a level in queries of at most `BRANCHES_PER_QUERY` branches; any of them may fail. */
  method CountLevel(ghost db: Db, answer: (TableName, Pred) -> nat, database: string, level: seq<Edge>,
                    fails: nat -> bool)
    returns (totals: Option<map<nat, nat>>)
    requires Answers(db, answer)
    ensures totals.Some? ==> forall i :: 0 <= i < |level| ==>
              Total(totals.value, i) == Count(db, Child(database, level[i].fk), level[i].preds)
    ensures totals.None? ==> exists b :: fails(b)
  {
    var branches := LevelBranches(database, level);
    var sums: map<nat, nat> := map[];
    var b := 0;
    while b < |branches|
      invariant 0 <= b <= |branches|
      invariant forall i :: Total(sums, i) == SumFor(db, branches[..b], i)
    {
      if fails(b) {
        return None;
      }
      var end := if b + BRANCHES_PER_QUERY < |branches| then b + BRANCHES_PER_QUERY else |branches|;
      assert branches[..end] == branches[..b] + branches[b..end];
      forall i
        ensures SumFor(db, branches[..end], i) == SumFor(db, branches[..b], i) + SumFor(db, branches[b..end], i)
      {
        SumForAppend(db, branches[..b], branches[b..end], i);
      }
      sums := SumRefCounts(db, answer, branches[b..end], sums);
      b := end;
    }
    assert branches[..b] == branches;
    forall i | 0 <= i < |level|
      ensures Total(sums, i) == Count(db, Child(database, level[i].fk), level[i].preds)
    {
      SumForLevel(db, database, level, i);
    }
    totals := Some(sums);
  }
}
