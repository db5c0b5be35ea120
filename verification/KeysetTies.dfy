/** Runs over a view whose sort column leaves ties: keyset paging and OFFSET paging part exactly there. */
module KeysetTies {
  import opened Common
  import opened Keyset
  import opened KeysetPlan
  import opened KeysetPaging

  predicate Tied(sort: Option<Key>, a: Row, b: Row) {
    sort.None? || Get(a, sort.value.column) == Get(b, sort.value.column)
  }

  lemma NeverBoth(plan: seq<Key>, rows: set<Row>, a: Row, b: Row)
    requires Ordered(plan, rows) && a in rows && b in rows && Before(plan, a, b)
    ensures !Before(plan, b, a)
  {
    AfterIsAsymmetric(plan, a, b);
  }

  lemma StrictlyBefore(plan: seq<Key>, rows: set<Row>, a: Row, b: Row)
    requires plan != [] && Ordered(plan, rows) && a in rows && b in rows && Before(plan, a, b)
    requires Get(a, plan[0].column) != Get(b, plan[0].column)
    ensures Get(a, plan[0].column).Val? && Before([plan[0]], a, b)
  {
    hide Before;
    assert HasKeys(plan, a);
    FirstKeyDecides(plan, a, b);
    FirstKeyDecides(plan, b, a);
    NeverBoth(plan, rows, a, b);
  }

  /** Rows of equal sort value are next to each other in the order of the plan. */
  lemma TieIsBetween(plan: seq<Key>, rows: set<Row>, s: seq<Row>, i: nat, j: nat)
    requires plan != [] && Ordered(plan, rows) && IsOrdering(s, rows, plan) && i < j < |s|
    requires Get(s[i], plan[0].column) == Get(s[j], plan[0].column)
    ensures Get(s[i], plan[0].column) == Get(s[i + 1], plan[0].column)
  {
    hide Before, HasKeys;
    assert s[i] in s && s[i + 1] in s && s[j] in s;
    if Get(s[i], plan[0].column) != Get(s[i + 1], plan[0].column) {
      StrictlyBefore(plan, rows, s[i], s[i + 1]);
      StrictlyBefore(plan, rows, s[i + 1], s[j]);
      OneKey(plan[0], s[i], s[i + 1]);
      OneKey(plan[0], s[i + 1], s[j]);
    }
  }

  /** In an unsettled view, two rows next to each other in the order of the plan are tied. */
  lemma TiedNeighbours(v: View, s: seq<Row>) returns (a: nat)
    requires v.plan.Some? && PlanFits(v.plan.value, Filtered(v), v.sort) && !Settled(v)
    requires IsOrdering(s, Filtered(v), v.plan.value)
    ensures a + 1 < |s| && Tied(v.sort, s[a], s[a + 1])
  {
    hide Before, HasKeys, Filtered, Get, Ordered;
    var rows := Filtered(v);
    var r, q :| r in rows && q in rows && r != q && Tied(v.sort, r, q);
    var i :| 0 <= i < |s| && s[i] == r;
    var j :| 0 <= j < |s| && s[j] == q;
    a := if i < j then i else j;
    if v.sort.Some? {
      assert Tied(v.sort, r, q);
      if i < j {
        TieIsBetween(v.plan.value, rows, s, i, j);
      } else {
        TieIsBetween(v.plan.value, rows, s, j, i);
      }
    }
  }

  /** The listing that exchanges rows `a` and `a + 1`. */
  function Swapped(s: seq<Row>, a: nat): (t: seq<Row>)
    requires a + 1 < |s|
    ensures |t| == |s| && forall i :: 0 <= i < |s| ==> t[i] == s[SwapIndex(a, i)]
  {
    s[..a] + [s[a + 1], s[a]] + s[a + 2..]
  }

  function SwapIndex(a: nat, i: nat): nat { if i == a then a + 1 else if i == a + 1 then a else i }

  lemma InOrderPair(v: View, a: Row, b: Row)
    requires v.plan.Some? && PlanFits(v.plan.value, Filtered(v), v.sort)
    requires a in Filtered(v) && b in Filtered(v) && Before(v.plan.value, a, b)
    ensures a != b && !Before(OrderBy(v.sort), b, a)
  {
    hide Before, HasKeys, Filtered;
    var plan := v.plan.value;
    NeverBoth(plan, Filtered(v), a, b);
    if v.sort.Some? {
      FirstKeyDecides(plan, b, a);
    } else {
      NoKeys(b, a);
    }
  }

  lemma NoKeys(a: Row, b: Row)
    ensures !Before([], a, b)
  {
  }

  /** The server may list tied neighbours the other way round. */
  lemma SwappedIsListing(v: View, s: seq<Row>, a: nat)
    requires v.plan.Some? && PlanFits(v.plan.value, Filtered(v), v.sort)
    requires IsOrdering(s, Filtered(v), v.plan.value) && a + 1 < |s| && Tied(v.sort, s[a], s[a + 1])
    ensures IsListing(Swapped(s, a), Filtered(v), OrderBy(v.sort))
  {
    hide Before, HasKeys, Filtered, PlanFits;
    var t, order := Swapped(s, a), OrderBy(v.sort);
    forall i, j | 0 <= i < j < |t| ensures t[i] != t[j] && !Before(order, t[j], t[i]) {
      var x, y := SwapIndex(a, i), SwapIndex(a, j);
      assert s[x] in s && s[y] in s;
      if x < y {
        InOrderPair(v, s[x], s[y]);
      } else {
        InOrderPair(v, s[a], s[a + 1]);
        TiedPair(v, s[a], s[a + 1]);
      }
    }
    forall r ensures r in t <==> r in s {
      if r in s {
        var i :| 0 <= i < |s| && s[i] == r;
        assert t[SwapIndex(a, i)] == r;
      }
    }
  }

  lemma TiedPair(v: View, a: Row, b: Row)
    requires v.plan.Some? && PlanFits(v.plan.value, Filtered(v), v.sort)
    requires a in Filtered(v) && b in Filtered(v) && Tied(v.sort, a, b)
    ensures !Before(OrderBy(v.sort), a, b)
  {
    hide Before, HasKeys, Filtered;
    if v.sort.Some? {
      FirstKeyDecides(v.plan.value, a, b);
    } else {
      NoKeys(a, b);
    }
  }

  lemma {:induction false} RunOfOne(t: Tab, s: Step)
    requires Honest(t, s)
    ensures IsRun(t, [s]) && RunTab(t, [s]) == AfterStep(t, s)
  {
    hide Honest, AfterStep;
    assert [s][1..] == [];
    assert RunTab(AfterStep(t, s), []) == AfterStep(t, s);
  }

  function NextPage(size: nat): Request { Request(2, size, None, None, false) }

  lemma InOrdering(p: seq<Row>, rows: set<Row>, plan: seq<Key>, k: nat)
    requires IsOrdering(p, rows, plan) && k < |p|
    ensures HasKeys(plan, p[k]) && (k + 1 < |p| ==> p[k] != p[k + 1])
  {
    if k + 1 < |p| && p[k] == p[k + 1] {
      AfterIsAsymmetric(plan, p[k], p[k + 1]);
    }
  }

  lemma OffsetIsAnswered(w: View, size: int, page: int)
    requires ValidView(w)
    ensures Answers(w, PageQuery(w, size, page), OffsetPage(w.listing, size, page))
  {
    hide IsListing;
  }

  /**
   * The first page of the exchanged listing ends with row `a` of the plan's order, so the keyset goes on with row
   * `a + 1`.
   */
  lemma FirstPageEnds(w: View, p: seq<Row>, a: nat)
    requires w.plan.Some? && w.plan.value != [] && a + 1 < |p| && w.listing == Swapped(p, a) &&
             HasKeys(w.plan.value, p[a])
    ensures var t := Opened(w, a + 2);
            |t.rows| == a + 2 && t.rows[a + 1] == p[a] &&
            KeysetQueryOf(t, NextPage(a + 2)) ==
              Some(KeysetPageQuery(w, w.plan.value, AnchorOf(w.plan.value, p[a]), Next, a + 2))
  {
    hide HasKeys, AnchorOf, KeysetPageQuery;
    assert Opened(w, a + 2).rows == w.listing[..a + 2];
  }

  lemma FailingStep(w: View, p: seq<Row>, a: nat, s: Step)
    requires ValidView(w) && w.plan.Some? && IsOrdering(p, Filtered(w), w.plan.value) && a + 1 < |p|
    requires w.listing == Swapped(p, a)
    requires s == Step(NextPage(a + 2), Neighbours(p, a, Next, a + 2), OffsetPage(w.listing, a + 2, 2))
    ensures Honest(Opened(w, a + 2), s) && !ShowsOffsetPage(AfterStep(Opened(w, a + 2), s))
  {
    hide IsOrdering, HasKeys, Filtered, Answers, KeysetPageQuery, IsListing, Ordered, AnchorOf, Opened, KeysetQueryOf;
    hide Swapped, ReadAnchor;
    InOrdering(p, Filtered(w), w.plan.value, a);
    FirstPageEnds(w, p, a);
    NextIsAnswered(w, p, a, a + 2);
    OffsetIsAnswered(w, a + 2, 2);
    OpenedView(w, a + 2);
    assert s.keysetAnswer[0] == p[a + 1];
    if |p| > a + 2 {
      assert w.listing[a + 2] == p[a + 2];
      InOrdering(p, Filtered(w), w.plan.value, a + 1);
    }
  }

  lemma OpenedView(w: View, size: nat)
    requires size >= 1
    ensures Opened(w, size).view == w && Opened(w, size).page == 1 && Opened(w, size).size == size
  {
  }

  lemma SameFilter(v: View, listing: seq<Row>)
    ensures Filtered(v.(listing := listing)) == Filtered(v)
  {
  }

  /** A server may list tied neighbours the other way round: then "next" shows a row of the first page again. */
  lemma UnsettledRunFails(v: View) returns (listing: seq<Row>, size: nat, s: Step)
    requires ValidView(v) && !Settled(v)
    ensures size >= 1 && IsListing(listing, Filtered(v), OrderBy(v.sort)) && s.request == NextPage(size)
    ensures Honest(Opened(v.(listing := listing), size), s)
    ensures !ShowsOffsetPage(AfterStep(Opened(v.(listing := listing), size), s))
  {
    hide Honest, ShowsOffsetPage, AfterStep, IsListing, Ordered, Opened, Neighbours, OffsetPage;
    var plan := v.plan.value;
    var p := HasOrdering(plan, Filtered(v));
    var a := TiedNeighbours(v, p);
    listing, size := Swapped(p, a), a + 2;
    SwappedIsListing(v, p, a);
    var w := v.(listing := listing);
    SameFilter(v, listing);
    s := Step(NextPage(size), Neighbours(p, a, Next, size), OffsetPage(listing, size, 2));
    FailingStep(w, p, a, s);
  }

  /**
   * Keyset paging shows the pages OFFSET shows if and only if the sort column tells the filtered rows
   * apart: then for every listing the server may choose and every run from page 1, else not for all.
   */
  lemma OffsetPagesIffSettled(v: View)
    requires ValidView(v)
    ensures Settled(v) <==>
            forall listing, size: nat, steps ::
              size >= 1 && IsListing(listing, Filtered(v), OrderBy(v.sort)) && SettledSteps(steps) &&
              IsRun(Opened(v.(listing := listing), size), steps) ==>
                ShowsOffsetPage(RunTab(Opened(v.(listing := listing), size), steps))
  {
    hide IsListing, Filtered, Honest, AfterStep, ShowsOffsetPage, Settled, SettledSteps, Opened;
    if Settled(v) {
      forall listing, size: nat, steps |
        size >= 1 && IsListing(listing, Filtered(v), OrderBy(v.sort)) && SettledSteps(steps) &&
        IsRun(Opened(v.(listing := listing), size), steps)
        ensures ShowsOffsetPage(RunTab(Opened(v.(listing := listing), size), steps))
      {
        OtherListing(v, listing, size);
        RunsShowOffsetPages(Opened(v.(listing := listing), size), steps);
      }
    } else {
      var listing, size, s := UnsettledRunFails(v);
      RunOfOne(Opened(v.(listing := listing), size), s);
      NextIsSettled(s);
    }
  }

  lemma OtherListing(v: View, listing: seq<Row>, size: nat)
    requires Settled(v) && size >= 1
    ensures var t := Opened(v.(listing := listing), size); Settled(t.view) && ShowsOffsetPage(t)
  {
    hide Get, Holds, Filtered;
    SameFilter(v, listing);
  }

  lemma NextIsSettled(s: Step)
    requires s.request.force.None?
    ensures SettledSteps([s])
  {
  }

  // --- a table opened with no sort ---

  function IdRow(id: int): Row { map["id" := Val(id)] }

  /** Three rows, no sort, and a server that lists row 2 first. */
  function DefaultView(): View {
    View({IdRow(1), IdRow(2), IdRow(3)}, None, Some(IdPlan()), None, [IdRow(2), IdRow(1), IdRow(3)])
  }

  function IdPlan(): seq<Key> { [Key("id", true)] }

  lemma IdOrder(a: int, b: int)
    ensures HasKeys(IdPlan(), IdRow(a)) && (Before(IdPlan(), IdRow(a), IdRow(b)) <==> a < b)
  {
    OneKey(IdPlan()[0], IdRow(a), IdRow(b));
  }

  lemma DefaultRows()
    ensures Filtered(DefaultView()) == {IdRow(1), IdRow(2), IdRow(3)}
    ensures IsOrdering([IdRow(1), IdRow(2), IdRow(3)], Filtered(DefaultView()), IdPlan())
  {
    hide Before, HasKeys;
    forall a, b ensures HasKeys(IdPlan(), IdRow(a)) && (Before(IdPlan(), IdRow(a), IdRow(b)) <==> a < b) {
      IdOrder(a, b);
    }
  }

  lemma IdsDiffer(a: int, b: int)
    ensures IdRow(a) == IdRow(b) <==> a == b
  {
    assert IdRow(a)["id"] == Val(a) && IdRow(b)["id"] == Val(b);
  }

  lemma DefaultIsListing()
    ensures IsListing([IdRow(2), IdRow(1), IdRow(3)], {IdRow(1), IdRow(2), IdRow(3)}, [])
  {
    hide Before, IdRow;
    IdsDiffer(1, 2);
    IdsDiffer(1, 3);
    IdsDiffer(2, 3);
    forall a, b ensures !Before([], a, b) {
      NoKeys(a, b);
    }
  }

  lemma DefaultPlanFits()
    ensures PlanFits(IdPlan(), {IdRow(1), IdRow(2), IdRow(3)}, None)
  {
    hide Before, HasKeys, IdRow;
    IdOrder(1, 2);
    IdOrder(1, 3);
    IdOrder(2, 3);
    IdOrder(3, 3);
  }

  lemma DefaultViewIsValid()
    ensures ValidView(DefaultView())
  {
    hide IsListing, PlanFits, IsOrdering, Filtered, IdRow;
    DefaultRows();
    DefaultIsListing();
    DefaultPlanFits();
  }

  /** With pages of one row, "next" shows row 3 where OFFSET shows row 1: no page of the run shows row 1. */
  lemma DefaultViewSkipsARow()
    ensures ValidView(DefaultView()) && Opened(DefaultView(), 1).rows == [IdRow(2)]
    ensures var s := Step(NextPage(1), [IdRow(3)], [IdRow(1)]);
            Honest(Opened(DefaultView(), 1), s) && AfterStep(Opened(DefaultView(), 1), s).rows == [IdRow(3)]
    ensures OffsetPage(DefaultView().listing, 1, 2) == [IdRow(1)]
  {
    hide Before, IsOrdering, HasKeys, IsListing, PlanFits, Filtered, Answers, KeysetPageQuery, AnchorOf;
    var v, s := DefaultView(), Step(NextPage(1), [IdRow(3)], [IdRow(1)]);
    var p := [IdRow(1), IdRow(2), IdRow(3)];
    DefaultRows();
    DefaultViewIsValid();
    IdOrder(2, 2);
    assert p[1] == IdRow(2);
    NextIsAnswered(v, p, 1, 1);
    assert Neighbours(p, 1, Next, 1) == [IdRow(3)] && OffsetPage(v.listing, 1, 2) == [IdRow(1)];
    OffsetIsAnswered(v, 1, 2);
    var t := Opened(v, 1);
    assert KeysetQueryOf(t, s.request) == Some(KeysetPageQuery(v, IdPlan(), AnchorOf(IdPlan(), p[1]), Next, 1));
  }
}
