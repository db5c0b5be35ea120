/** Paging by keyset and by OFFSET over one filtered table, and when every run of page requests shows OFFSET slices. */
module KeysetPaging {
  import opened Common
  import opened Keyset
  import opened KeysetPlan

  /** What `LIMIT limit OFFSET from` keeps. */
  function Slice<T>(s: seq<T>, from: nat, limit: nat): seq<T> { s[Min(from, |s|)..Min(from + limit, |s|)] }

  // --- page arithmetic ---

  /** The rows of page `page` (counted from 1), as LIMIT and OFFSET fetch them. */
  function OffsetPage<T>(s: seq<T>, size: int, page: int): seq<T> {
    Slice(s, Max(1, size) * (Max(1, page) - 1), Max(1, size))
  }

  function TotalPagesFromCount(total: nat, size: int): int {
    Max(1, (total + Max(1, size) - 1) / Max(1, size))
  }

  function ClampPage(page: int, totalPages: Option<int>): int {
    var p := Max(1, page);
    if totalPages.Some? then Min(p, Max(1, totalPages.value)) else p
  }

  predicate CanGoNext(page: int, totalPages: Option<int>, lastPageRowCount: nat, size: int, confirmed: bool) {
    var full := lastPageRowCount >= Max(1, size);
    if confirmed && totalPages.Some? then page < totalPages.value
    else if totalPages.Some? then page < totalPages.value || full
    else full
  }

  function EffectiveTotalPages(estimated: Option<int>, currentPage: int, currentPageFull: bool,
                               confirmed: bool): Option<int>
  {
    if estimated.None? || confirmed then estimated
    else Some(Max(estimated.value, currentPage + (if currentPageFull then 1 else 0)))
  }

  lemma CountTellsPages(total: nat, size: int, page: int)
    requires page >= 1
    ensures page < TotalPagesFromCount(total, size) <==> total > Max(1, size) * page
  {
    var n := Max(1, size);
    var q := (total + n - 1) / n;
    QuotientBounds(total + n - 1, n);
    if page < q {
      Monotone(page + 1, q, n);
      assert n * (page + 1) == n * page + n;
    } else {
      Monotone(q, page, n);
    }
  }

  lemma QuotientBounds(a: nat, n: int)
    requires n >= 1
    ensures n * (a / n) <= a < n * (a / n) + n
  {
  }

  lemma Monotone(a: int, b: int, n: int)
    requires a <= b && n >= 1
    ensures n * a <= n * b
  {
  }

  /**
   * A page that has rows is never out of reach: from the page before it the "next" button works and
   * the clamp lets the move through, however wrong an estimate is. With a confirmed count the button
   * works exactly when there are rows left.
   */
  lemma NextPageIsReachable<T>(s: seq<T>, size: int, page: int, total: Option<int>, confirmed: bool)
    requires page >= 1
    requires confirmed && total.Some? ==> total.value == TotalPagesFromCount(|s|, size)
    ensures var count := |OffsetPage(s, size, page)|;
            OffsetPage(s, size, page + 1) != [] ==>
              CanGoNext(page, total, count, size, confirmed) &&
              ClampPage(page + 1, EffectiveTotalPages(total, page, count >= Max(1, size), confirmed)) == page + 1
    ensures confirmed && total.Some? ==>
            (CanGoNext(page, total, |OffsetPage(s, size, page)|, size, confirmed) <==>
             OffsetPage(s, size, page + 1) != [])
  {
    var n := Max(1, size);
    CountTellsPages(|s|, size, page);
    assert n * page == n * (page - 1) + n;
    assert n * (page - 1) >= 0;
  }

  // --- the rows beyond an anchor ---

  /** The rows strictly after an anchor. */
  ghost function Beyond(rows: set<Row>, keys: seq<Key>, anchor: seq<int>): set<Row>
    requires |anchor| == |keys|
  {
    set r | r in rows && After(keys, anchor, r)
  }

  lemma NotBeyondItself(s: seq<Row>, rows: set<Row>, keys: seq<Key>, j: nat, k: nat)
    requires IsOrdering(s, rows, keys) && j <= k < |s|
    ensures !Before(keys, s[k], s[j])
  {
    if Before(keys, s[k], s[j]) {
      AfterIsAsymmetric(keys, s[k], s[j]);
    }
    assert j < k ==> Before(keys, s[j], s[k]);
  }

  lemma RowsAfter(s: seq<Row>, rows: set<Row>, keys: seq<Key>, k: nat)
    requires IsOrdering(s, rows, keys) && k < |s|
    ensures IsOrdering(s[k + 1..], Beyond(rows, keys, AnchorOf(keys, s[k])), keys)
  {
    hide After;
    var beyond := Beyond(rows, keys, AnchorOf(keys, s[k]));
    var t := s[k + 1..];
    assert forall i :: 0 <= i < |t| ==> t[i] == s[k + 1 + i];
    forall r ensures r in t <==> r in beyond {
      if r in t {
        var i :| 0 <= i < |t| && t[i] == r;
        assert s[k + 1 + i] in s && Before(keys, s[k], s[k + 1 + i]);
      }
      if r in beyond {
        var j :| 0 <= j < |s| && s[j] == r;
        if j <= k {
          NotBeyondItself(s, rows, keys, j, k);
        }
        assert t[j - k - 1] == r;
      }
    }
  }

  lemma RowsBefore(s: seq<Row>, rows: set<Row>, keys: seq<Key>, k: nat)
    requires IsOrdering(s, rows, keys) && k < |s|
    ensures HasKeys(EffectiveKeys(keys, Prev), s[k])
    ensures var flipped := EffectiveKeys(keys, Prev);
            IsOrdering(Reversed(s[..k]), Beyond(rows, flipped, AnchorOf(flipped, s[k])), flipped)
  {
    hide After;
    var flipped := EffectiveKeys(keys, Prev);
    FlippedAnchor(keys, s[k], Prev);
    var beyond := Beyond(rows, flipped, AnchorOf(flipped, s[k]));
    var t := Reversed(s[..k]);
    assert forall i :: 0 <= i < k ==> t[i] == s[k - 1 - i];
    forall i | 0 <= i < k ensures HasKeys(flipped, t[i]) {
      FlippedAnchor(keys, t[i], Prev);
    }
    forall i, j | 0 <= i < j < k ensures Before(flipped, t[i], t[j]) {
      assert Before(keys, s[k - 1 - j], s[k - 1 - i]);
      FlippedOrder(keys, t[i], t[j]);
    }
    forall r ensures r in t <==> r in beyond {
      if r in t {
        var i :| 0 <= i < k && t[i] == r;
        assert s[k - 1 - i] in s && Before(keys, s[k - 1 - i], s[k]);
        FlippedOrder(keys, s[k], r);
      }
      if r in beyond {
        var j :| 0 <= j < |s| && s[j] == r;
        FlippedOrder(keys, s[k], r);
        if j >= k {
          NotBeyondItself(s, rows, keys, k, j);
        }
        assert t[k - 1 - j] == r;
      }
    }
  }

  // --- queries and their answers ---

  datatype Query =
    | KeysetQuery(cond: Cond, order: seq<Key>, limit: nat)
    | OffsetQuery(order: seq<Key>, limit: nat, offset: nat)

  /**
   * The table, its filter, the keyset plan if there is one, the sort column if one is chosen, and the
   * order in which the server lists the filtered rows to an OFFSET query.
   */
  datatype View = View(table: set<Row>, filter: Option<Cond>, plan: Option<seq<Key>>, sort: Option<Key>,
                       listing: seq<Row>)

  ghost function Matching(table: set<Row>, cond: Cond): set<Row> { set r | r in table && Holds(cond, r) }

  ghost function Filtered(v: View): set<Row> {
    set r | r in v.table && (v.filter.Some? ==> Holds(v.filter.value, r))
  }

  /** An answer to a query with this ORDER BY, which may be empty: each row once, tied rows in any order. */
  ghost predicate IsListing(listing: seq<Row>, rows: set<Row>, order: seq<Key>) {
    && (forall i, j :: 0 <= i < j < |listing| ==> listing[i] != listing[j])
    && (forall i, j :: 0 <= i < j < |listing| ==> !Before(order, listing[j], listing[i]))
    && (forall r :: r in listing <==> r in rows)
  }

  function OrderBy(sort: Option<Key>): seq<Key> { if sort.None? then [] else [sort.value] }

  /** The plan orders the filtered rows, beginning with the sort column. */
  ghost predicate PlanFits(plan: seq<Key>, rows: set<Row>, sort: Option<Key>) {
    plan != [] && Ordered(plan, rows) && (sort.Some? ==> plan[0] == sort.value)
  }

  ghost predicate ValidView(v: View) {
    && IsListing(v.listing, Filtered(v), OrderBy(v.sort))
    && (v.plan.Some? ==> PlanFits(v.plan.value, Filtered(v), v.sort))
  }

  /** The plans the resolver returns fit the rows of the table, however they are filtered. */
  lemma ResolvedPlanFits(keys: seq<Key>, columns: seq<TableColumn>, sort: Option<Sort>, result: seq<string>,
                         table: set<Row>, rows: set<Row>)
    requires IsPlan(keys, columns, sort) && !Unusable(Some(columns), sort, result)
    requires Stored(table, columns) && rows <= table
    ensures PlanFits(keys, rows, if sort.None? then None else Some(Key(sort.value.column, sort.value.asc)))
  {
    hide Before, HasKeys;
    assert keys[0] in keys;
    PlanIsOrdered(keys, columns, sort, result, rows);
  }

  /** What the server may answer. */
  ghost predicate Answers(v: View, q: Query, answer: seq<Row>) {
    match q
    case OffsetQuery(order, limit, offset) =>
      IsListing(v.listing, Filtered(v), order) && answer == Slice(v.listing, offset, limit)
    case KeysetQuery(cond, order, limit) =>
      exists t :: IsOrdering(t, Matching(v.table, cond), order) && answer == Slice(t, 0, limit)
  }

  function PageQuery(v: View, size: int, page: int): Query {
    OffsetQuery(OrderBy(v.sort), Max(1, size), Max(1, size) * (Max(1, page) - 1))
  }

  function KeysetPageQuery(v: View, plan: seq<Key>, anchor: seq<int>, move: Move, size: int): Query
    requires |anchor| == |plan| > 0
  {
    var beyond := BuildCondition(plan, anchor, move);
    var all := (if v.filter.Some? then [v.filter.value] else []) + [beyond];
    KeysetQuery(And(all), EffectiveKeys(plan, move), Max(1, size))
  }

  function ReverseRowsForPrev(rows: seq<Row>, move: Move): seq<Row> {
    if move == Prev then Reversed(rows) else rows
  }

  lemma KeysetRows(v: View, plan: seq<Key>, anchor: seq<int>, move: Move, size: int)
    requires |anchor| == |plan| > 0
    ensures Matching(v.table, KeysetPageQuery(v, plan, anchor, move, size).cond) ==
            Beyond(Filtered(v), EffectiveKeys(plan, move), anchor)
  {
    hide After;
    hide BuildCondition;
    var beyond := BuildCondition(plan, anchor, move);
    var cond := KeysetPageQuery(v, plan, anchor, move, size).cond;
    forall r
      ensures Holds(cond, r) <==>
              (v.filter.Some? ==> Holds(v.filter.value, r)) && After(EffectiveKeys(plan, move), anchor, r)
    {
      ConditionMeansAfter(plan, anchor, move, r);
      assert cond.all[|cond.all| - 1] == beyond;
      assert Holds(cond, r) ==> Holds(cond.all[|cond.all| - 1], r);
      assert v.filter.Some? ==> cond.all[0] == v.filter.value;
      assert v.filter.Some? && Holds(cond, r) ==> Holds(cond.all[0], r);
    }
  }

  /** The neighbours of row `k` in the order of the plan: at most `size` rows after it or before it. */
  function Neighbours(s: seq<Row>, k: nat, move: Move, size: int): seq<Row>
    requires k < |s|
  {
    if move == Next then Slice(s, k + 1, Max(1, size)) else s[Max(0, k - Max(1, size))..k]
  }

  /** The keyset query answers with the neighbours of the anchor row in the order of the plan, in either direction. */
  lemma KeysetAnswer(v: View, s: seq<Row>, k: nat, move: Move, size: int, answer: seq<Row>)
    requires v.plan.Some? && v.plan.value != [] && IsOrdering(s, Filtered(v), v.plan.value) && k < |s|
    requires HasKeys(v.plan.value, s[k])
    requires Answers(v, KeysetPageQuery(v, v.plan.value, AnchorOf(v.plan.value, s[k]), move, size), answer)
    ensures ReverseRowsForPrev(answer, move) == Neighbours(s, k, move, size)
  {
    hide After, IsOrdering, Filtered, Beyond, Matching, BuildCondition;
    var plan := v.plan.value;
    var anchor := AnchorOf(plan, s[k]);
    var keys := EffectiveKeys(plan, move);
    KeysetRows(v, plan, anchor, move, size);
    var beyond := Beyond(Filtered(v), keys, anchor);
    var t :| IsOrdering(t, beyond, keys) && answer == Slice(t, 0, Max(1, size));
    hide Slice;
    SliceOfNeighbours(s, k, Max(1, size));
    if move == Next {
      RowsAfter(s, Filtered(v), plan, k);
      OrderingIsUnique(t, s[k + 1..], beyond, keys);
      assert t == s[k + 1..];
    } else {
      RowsBefore(s, Filtered(v), plan, k);
      FlippedAnchor(plan, s[k], Prev);
      OrderingIsUnique(t, Reversed(s[..k]), beyond, keys);
      assert t == Reversed(s[..k]);
    }
  }

  /** Cut to the limit, what follows row `k` and what stands before it read backwards are its neighbours. */
  lemma SliceOfNeighbours<T>(s: seq<T>, k: nat, limit: nat)
    requires k < |s|
    ensures Slice(s[k + 1..], 0, limit) == Slice(s, k + 1, limit)
    ensures Reversed(Slice(Reversed(s[..k]), 0, limit)) == s[Max(0, k - limit)..k]
  {
    var before := Reversed(Slice(Reversed(s[..k]), 0, limit));
    assert |before| == k - Max(0, k - limit);
    assert forall i :: 0 <= i < |before| ==> before[i] == s[Max(0, k - limit) + i];
  }

  /** Those neighbours are an answer the server may give. */
  lemma NextIsAnswered(v: View, s: seq<Row>, k: nat, size: int)
    requires v.plan.Some? && v.plan.value != [] && IsOrdering(s, Filtered(v), v.plan.value) && k < |s|
    requires HasKeys(v.plan.value, s[k])
    ensures Answers(v, KeysetPageQuery(v, v.plan.value, AnchorOf(v.plan.value, s[k]), Next, size),
                    Neighbours(s, k, Next, size))
  {
    hide After, IsOrdering, Filtered, Beyond, Matching, BuildCondition;
    KeysetRows(v, v.plan.value, AnchorOf(v.plan.value, s[k]), Next, size);
    RowsAfter(s, Filtered(v), v.plan.value, k);
    assert Slice(s[k + 1..], 0, Max(1, size)) == Neighbours(s, k, Next, size);
  }

  // --- when the server has one listing only ---

  /** The chosen sort column tells any two filtered rows apart. A view without a plan pages by OFFSET alone. */
  ghost predicate Settled(v: View) {
    v.plan.None? ||
    forall r, q :: r in Filtered(v) && q in Filtered(v) && r != q ==>
      v.sort.Some? && Get(r, v.sort.value.column) != Get(q, v.sort.value.column)
  }

  ghost predicate InPlanOrder(v: View) {
    v.plan.Some? ==> v.plan.value != [] && IsOrdering(v.listing, Filtered(v), v.plan.value)
  }

  lemma OneKey(key: Key, a: Row, b: Row)
    requires Get(a, key.column).Val?
    ensures Before([key], a, b) == Holds1(Get(b, key.column), OpOf(key), Get(a, key.column).n)
  {
    var keys := [key];
    assert keys[0] == key && keys[1..] == [];
    assert HasKeys(keys, a) && AnchorOf(keys, a)[0] == Get(a, key.column).n;
    var rest := AnchorOf(keys, a)[1..];
    assert rest == [] && !After([], rest, b);
  }

  /** The first key decides wherever it differs. */
  lemma FirstKeyDecides(plan: seq<Key>, a: Row, b: Row)
    requires plan != [] && HasKeys(plan, a) && HasKeys(plan, b)
    ensures Before([plan[0]], a, b) ==> Before(plan, a, b)
    ensures Get(a, plan[0].column) != Get(b, plan[0].column) ==> Before([plan[0]], a, b) || Before([plan[0]], b, a)
    ensures Get(a, plan[0].column) == Get(b, plan[0].column) ==> !Before([plan[0]], a, b) && !Before([plan[0]], b, a)
  {
    OneKey(plan[0], a, b);
    OneKey(plan[0], b, a);
    assert AnchorOf(plan, a)[0] == Get(a, plan[0].column).n;
  }

  /** If the sort column tells the rows apart, whatever listing the server answers with is in the order of the plan. */
  lemma SettledIsInPlanOrder(v: View)
    requires ValidView(v) && Settled(v)
    ensures InPlanOrder(v)
  {
    hide Before, HasKeys, Filtered;
    if v.plan.Some? {
      var plan, s := v.plan.value, v.listing;
      forall i | 0 <= i < |s| ensures HasKeys(plan, s[i]) {
        assert s[i] in s;
      }
      forall i, j | 0 <= i < j < |s| ensures Before(plan, s[i], s[j]) {
        assert s[i] in s && s[j] in s && s[i] != s[j];
        FirstKeyDecides(plan, s[i], s[j]);
      }
    }
  }

  /** Sorting by a primary key of one column settles the view: the plan is that column alone. */
  lemma WholeKeySettles(v: View, columns: seq<TableColumn>, sort: Sort)
    requires v.plan.Some? && IsPlan(v.plan.value, columns, Some(sort)) && |v.plan.value| == 1
    requires Stored(v.table, columns) && v.sort == Some(Key(sort.column, sort.asc))
    ensures Settled(v)
  {
    forall r, q | r in Filtered(v) && q in Filtered(v) && r != q ensures Get(r, sort.column) != Get(q, sort.column) {
      var c :| c in columns && c.primary && Get(r, c.name) != Get(q, c.name);
      assert Names(v.plan.value, c.name);
    }
  }

  // --- runs of page requests ---

  datatype Tab = Tab(view: View, page: int, size: int, rows: seq<Row>)

  /**
   * A request to show a page: `force` carries a new sort or filter; `total` is the known page count, `confirmed` if
   * exact.
   */
  datatype Request = Request(page: int, size: int, force: Option<View>, total: Option<int>, confirmed: bool)

  /** Keyset is used for the adjacent page only, and never to get back to page 1. */
  function KeysetMoveFor(currentPage: int, targetPage: int, force: bool, sizeChanged: bool): Option<Move> {
    if force || sizeChanged then None
    else if targetPage == currentPage + 1 then Some(Next)
    else if targetPage == currentPage - 1 && targetPage >= 2 then Some(Prev)
    else None
  }

  function TargetPage(t: Tab, r: Request): int {
    ClampPage(r.page, EffectiveTotalPages(r.total, t.page, |t.rows| >= Max(1, r.size), r.confirmed))
  }

  function NextView(t: Tab, r: Request): View { if r.force.Some? then r.force.value else t.view }

  function MoveOf(t: Tab, r: Request): Option<Move> {
    KeysetMoveFor(t.page, TargetPage(t, r), r.force.Some?, Max(1, r.size) != t.size)
  }

  /** The keyset query the request sends first, if it may. */
  function KeysetQueryOf(t: Tab, r: Request): Option<Query> {
    var move := MoveOf(t, r);
    var plan := NextView(t, r).plan;
    if move.None? || plan.None? || plan.value == [] || t.rows == [] then None
    else
      var anchor := ReadAnchor(plan.value, Some(if move.value == Next then t.rows[|t.rows| - 1] else t.rows[0]));
      if anchor.None? then None
      else Some(KeysetPageQuery(NextView(t, r), plan.value, anchor.value, move.value, r.size))
  }

  predicate NoOp(t: Tab, r: Request) { r.force.None? && TargetPage(t, r) == t.page }

  datatype Step = Step(request: Request, keysetAnswer: seq<Row>, offsetAnswer: seq<Row>)

  /** The tab after a request, given the server's answers to the keyset query and to the OFFSET query. */
  function AfterStep(t: Tab, s: Step): Tab {
    var r := s.request;
    if NoOp(t, r) then t
    else
      var rows :=
        if KeysetQueryOf(t, r).Some? && s.keysetAnswer != [] then ReverseRowsForPrev(s.keysetAnswer, MoveOf(t, r).value)
        else s.offsetAnswer;
      Tab(NextView(t, r), TargetPage(t, r), Max(1, r.size), rows)
  }

  ghost predicate Honest(t: Tab, s: Step) {
    var v := NextView(t, s.request);
    && ValidView(v)
    && (KeysetQueryOf(t, s.request).Some? ==> Answers(v, KeysetQueryOf(t, s.request).value, s.keysetAnswer))
    && Answers(v, PageQuery(v, s.request.size, TargetPage(t, s.request)), s.offsetAnswer)
  }

  ghost predicate ShowsOffsetPage(t: Tab) {
    t.size >= 1 && t.page >= 1 && t.rows == OffsetPage(t.view.listing, t.size, t.page)
  }

  /** The tab as the first page of a view opens it. */
  function Opened(v: View, size: nat): Tab
    requires size >= 1
  {
    Tab(v, 1, size, OffsetPage(v.listing, size, 1))
  }

  /** Every tab state a run of requests passes through. */
  ghost predicate IsRun(t: Tab, steps: seq<Step>)
    decreases |steps|
  {
    steps == [] || (Honest(t, steps[0]) && IsRun(AfterStep(t, steps[0]), steps[1..]))
  }

  function RunTab(t: Tab, steps: seq<Step>): Tab
    decreases |steps|
  {
    if steps == [] then t else RunTab(AfterStep(t, steps[0]), steps[1..])
  }

  /** No request of the run changes to a view whose sort column leaves ties. */
  ghost predicate SettledSteps(steps: seq<Step>) {
    forall i :: 0 <= i < |steps| && steps[i].request.force.Some? ==> Settled(steps[i].request.force.value)
  }

  /** What a request that may use the keyset asks the server. */
  lemma KeysetQueryShape(t: Tab, r: Request)
    requires KeysetQueryOf(t, r).Some?
    ensures r.force.None? && Max(1, r.size) == t.size && t.view.plan.Some? && t.view.plan.value != [] && t.rows != []
    ensures var move := MoveOf(t, r).value;
            var plan := t.view.plan.value;
            var row := if move == Next then t.rows[|t.rows| - 1] else t.rows[0];
            HasKeys(plan, row) &&
            KeysetQueryOf(t, r).value == KeysetPageQuery(t.view, plan, AnchorOf(plan, row), move, r.size)
    ensures TargetPage(t, r) == (if MoveOf(t, r).value == Next then t.page + 1 else t.page - 1)
    ensures MoveOf(t, r).value == Prev ==> TargetPage(t, r) >= 2
  {
    hide KeysetPageQuery, HasKeys, TargetPage;
  }

  lemma PageOffsets(size: int, page: int)
    requires size >= 1 && page >= 1
    ensures size * (page - 1) >= 0 && size * (page - 1) + size == size * (page + 1 - 1)
  {
  }

  lemma NextRows(t: Tab, r: Request, answer: seq<Row>)
    requires ShowsOffsetPage(t) && InPlanOrder(t.view) && KeysetQueryOf(t, r).Some? && MoveOf(t, r) == Some(Next)
    requires Answers(t.view, KeysetQueryOf(t, r).value, answer)
    ensures answer != [] ==> answer == OffsetPage(t.view.listing, t.size, t.page + 1)
  {
    hide IsOrdering, Filtered, Answers, KeysetPageQuery, KeysetQueryOf, MoveOf, TargetPage, HasKeys;
    KeysetQueryShape(t, r);
    PageOffsets(t.size, t.page);
    var s, from := t.view.listing, t.size * (t.page - 1);
    var k := from + |t.rows| - 1;
    assert s[k] == t.rows[|t.rows| - 1];
    KeysetAnswer(t.view, s, k, Next, r.size, answer);
  }

  lemma PrevRows(t: Tab, r: Request, answer: seq<Row>)
    requires ShowsOffsetPage(t) && InPlanOrder(t.view) && KeysetQueryOf(t, r).Some? && MoveOf(t, r) == Some(Prev)
    requires Answers(t.view, KeysetQueryOf(t, r).value, answer)
    ensures Reversed(answer) == OffsetPage(t.view.listing, t.size, t.page - 1)
  {
    hide IsOrdering, Filtered, Answers, KeysetPageQuery, KeysetQueryOf, MoveOf, TargetPage, HasKeys;
    KeysetQueryShape(t, r);
    PageOffsets(t.size, t.page - 1);
    var s, from := t.view.listing, t.size * (t.page - 1);
    assert s[from] == t.rows[0];
    KeysetAnswer(t.view, s, from, Prev, r.size, answer);
  }

  lemma RequestKeepsOffsetPage(t: Tab, s: Step)
    requires ShowsOffsetPage(t) && Honest(t, s) && Settled(t.view)
    ensures ShowsOffsetPage(AfterStep(t, s))
  {
    hide IsOrdering, BuildCondition, EffectiveKeys, KeysetPageQuery, Settled, ValidView;
    var r := s.request;
    if KeysetQueryOf(t, r).Some? && !NoOp(t, r) {
      SettledIsInPlanOrder(t.view);
      if MoveOf(t, r).value == Next {
        NextRows(t, r, s.keysetAnswer);
      } else {
        PrevRows(t, r, s.keysetAnswer);
      }
    }
  }

  lemma SettledStays(t: Tab, s: Step)
    requires Settled(t.view) && (s.request.force.Some? ==> Settled(s.request.force.value))
    ensures Settled(AfterStep(t, s).view)
  {
    hide Settled;
  }

  /**
   * While the views are settled, a tab shows the OFFSET page after any next, previous, jump, size, sort and filter
   * requests.
   */
  lemma {:induction false} RunsShowOffsetPages(t: Tab, steps: seq<Step>)
    requires ShowsOffsetPage(t) && Settled(t.view) && SettledSteps(steps) && IsRun(t, steps)
    ensures ShowsOffsetPage(RunTab(t, steps))
    decreases |steps|
  {
    hide ShowsOffsetPage, Honest, AfterStep, Settled;
    if steps != [] {
      RequestKeepsOffsetPage(t, steps[0]);
      SettledStays(t, steps[0]);
      RunsShowOffsetPages(AfterStep(t, steps[0]), steps[1..]);
    }
  }
}
