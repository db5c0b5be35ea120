/** What a run of page requests shows, told from the requests: the view, the page, the page size and the rows. */
module KeysetRequests {
  import opened Common
  import opened Keyset
  import opened KeysetPlan
  import opened KeysetPaging

  /** The view the last forced request carried, or the one the tab was opened with. */
  function LastView(v: View, steps: seq<Step>): View {
    if steps == [] then v
    else
      var last := steps[|steps| - 1].request;
      if last.force.Some? then last.force.value else LastView(v, steps[..|steps| - 1])
  }

  /**
   * A page that may be shown: any page if no count is known, else one within the count, and as long as that is an
   * estimate also the page shown now or the one behind it if this one is full.
   */
  predicate Allowed(t: Tab, r: Request, page: int) {
    || r.total.None?
    || page <= r.total.value
    || (!r.confirmed && (page <= t.page || (page == t.page + 1 && |t.rows| >= Max(1, r.size))))
  }

  /** The last allowed page up to the one asked for, and page 1 if there is none. */
  predicate IsAskedPage(t: Tab, r: Request, page: int) {
    && 1 <= page <= Max(1, r.page)
    && (page > 1 ==> Allowed(t, r, page))
    && forall p :: page < p <= r.page ==> !Allowed(t, r, p)
  }

  /** Whether a request fetches: it is forced, or it asks for another page. */
  predicate Fetches(t: Tab, r: Request, page: int) { r.force.Some? || page != t.page }

  /** What a request makes of a tab whose view is `v` afterwards. */
  ghost predicate Answered(t: Tab, r: Request, t': Tab) {
    && IsAskedPage(t, r, t'.page)
    && t'.size == (if Fetches(t, r, t'.page) then Max(1, r.size) else t.size)
    && (r.force.Some? ==> t'.view == r.force.value)
    && (r.force.None? ==> t'.view == t.view)
    && (Fetches(t, r, t'.page) || t' == t)
    && (r.force.Some? ==> t'.rows == OffsetPage(t'.view.listing, Max(1, r.size), t'.page))
  }

  lemma TargetIsAsked(t: Tab, r: Request)
    requires t.page >= 1
    ensures IsAskedPage(t, r, TargetPage(t, r))
  {
  }

  /** Each request gives the page asked for as far as the count lets it; a forced one shows the new view's rows. */
  lemma RequestIsAnswered(t: Tab, s: Step)
    requires t.page >= 1 && Honest(t, s)
    ensures Answered(t, s.request, AfterStep(t, s))
  {
    hide IsAskedPage, TargetPage, ValidView, IsListing, KeysetQueryOf, Slice;
    TargetIsAsked(t, s.request);
    if s.request.force.Some? {
      ForcedSendsNoKeyset(t, s.request);
    }
  }

  lemma ForcedSendsNoKeyset(t: Tab, r: Request)
    requires r.force.Some?
    ensures KeysetQueryOf(t, r).None?
  {
  }

  lemma {:induction false} RunSplits(t: Tab, steps: seq<Step>, s: Step)
    requires IsRun(t, steps + [s])
    ensures IsRun(t, steps) && Honest(RunTab(t, steps), s)
    ensures RunTab(t, steps + [s]) == AfterStep(RunTab(t, steps), s)
    decreases |steps|
  {
    hide Honest, AfterStep;
    if steps == [] {
      assert (steps + [s])[0] == s && (steps + [s])[1..] == [];
    } else {
      assert (steps + [s])[1..] == steps[1..] + [s];
      RunSplits(AfterStep(t, steps[0]), steps[1..], s);
    }
  }

  lemma {:induction false} RunKeepsPage(t: Tab, steps: seq<Step>)
    requires t.page >= 1 && IsRun(t, steps)
    ensures RunTab(t, steps).page >= 1
    decreases |steps|
  {
    hide Honest, AfterStep;
    if steps != [] {
      RequestIsAnswered(t, steps[0]);
      RunKeepsPage(AfterStep(t, steps[0]), steps[1..]);
    }
  }

  lemma {:induction false} RunHasLastView(t: Tab, steps: seq<Step>)
    requires t.page >= 1 && IsRun(t, steps)
    ensures RunTab(t, steps).view == LastView(t.view, steps)
    decreases |steps|
  {
    hide Honest, AfterStep, IsAskedPage, IsRun, RunTab;
    if steps == [] {
      NoSteps(t);
    } else {
      var earlier, last := steps[..|steps| - 1], steps[|steps| - 1];
      assert steps == earlier + [last];
      RunSplits(t, earlier, last);
      RunKeepsPage(t, earlier);
      RequestIsAnswered(RunTab(t, earlier), last);
      RunHasLastView(t, earlier);
    }
  }

  lemma NoSteps(t: Tab)
    ensures RunTab(t, []) == t
  {
  }

  /**
   * On every run, told from its requests: the view is the last forced one, or the one opened; the last request gets
   * the page it asked for as far as the count lets it, and its page size unless it fetches nothing; after a forced
   * request the rows are the OFFSET page of its view, and while the views are settled they always are.
   */
  lemma RunFollowsRequests(t: Tab, steps: seq<Step>, s: Step)
    requires ShowsOffsetPage(t) && IsRun(t, steps + [s])
    ensures var before, after := RunTab(t, steps), RunTab(t, steps + [s]);
            && before.view == LastView(t.view, steps) && after.view == LastView(t.view, steps + [s])
            && Answered(before, s.request, after)
            && (Settled(t.view) && SettledSteps(steps + [s]) ==> ShowsOffsetPage(after))
  {
    hide Honest, AfterStep, IsAskedPage, IsRun, RunTab, Settled, SettledSteps, LastView;
    PageOf(t);
    RunSplits(t, steps, s);
    RunKeepsPage(t, steps);
    RunHasLastView(t, steps);
    RunHasLastView(t, steps + [s]);
    RequestIsAnswered(RunTab(t, steps), s);
    if Settled(t.view) && SettledSteps(steps + [s]) {
      RunsShowOffsetPages(t, steps + [s]);
    }
  }

  lemma PageOf(t: Tab)
    requires ShowsOffsetPage(t)
    ensures t.page >= 1
  {
  }

  /** An exact count never leaves the tab behind the last page, wherever it stood and whatever was asked for. */
  lemma ExactCountBoundsPage(t: Tab, r: Request, t': Tab)
    requires t.page >= 1 && Answered(t, r, t') && r.confirmed && r.total.Some?
    ensures t'.page <= Max(1, r.total.value)
    ensures 1 <= r.page <= r.total.value ==> t'.page == r.page
  {
    assert 1 <= r.page <= r.total.value ==> Allowed(t, r, r.page);
  }

  /**
   * The keyset query is sent exactly when the page next to the one shown is asked for, not page 1, with nothing forced
   * and the page size kept, a plan at hand, and no NULL among the keys of the last row, or of the first going back.
   */
  lemma KeysetIsAsked(t: Tab, r: Request)
    requires t.page >= 1
    ensures var page, plan := TargetPage(t, r), NextView(t, r).plan;
            KeysetQueryOf(t, r).Some? <==>
            && r.force.None? && Max(1, r.size) == t.size && plan.Some? && plan.value != [] && t.rows != []
            && ((page == t.page + 1 && HasKeys(plan.value, t.rows[|t.rows| - 1])) ||
                (page == t.page - 1 && page >= 2 && HasKeys(plan.value, t.rows[0])))
  {
    hide TargetPage, HasKeys, KeysetPageQuery;
  }

  /** A known count lets the "next" button through exactly when it is shown as usable. */
  lemma NextButtonMoves(page: int, total: Option<int>, lastPageRowCount: nat, size: int, confirmed: bool)
    requires page >= 1
    ensures var full := lastPageRowCount >= Max(1, size);
            var next := ClampPage(page + 1, EffectiveTotalPages(total, page, full, confirmed));
            && (next == page + 1 <==> total.None? || CanGoNext(page, total, lastPageRowCount, size, confirmed))
            && (total.None? ==> (CanGoNext(page, total, lastPageRowCount, size, confirmed) <==> full))
  {
  }

  /**
   * A page size chosen on the page the request leads to takes effect if and only if the request is forced or the size
   * is the old one: otherwise the request is taken for one that asks for nothing new.
   */
  lemma SizeTakesEffect(t: Tab, s: Step)
    requires t.page >= 1 && Honest(t, s)
    ensures AfterStep(t, s).size == Max(1, s.request.size) <==>
            s.request.force.Some? || AfterStep(t, s).page != t.page || t.size == Max(1, s.request.size)
  {
    hide Honest, AfterStep, IsAskedPage;
    RequestIsAnswered(t, s);
  }

  /** The choice of a page size, which asks for page 1 again. */
  function ChooseSize(size: int, total: Option<int>, confirmed: bool): Request {
    Request(1, size, None, total, confirmed)
  }

  /** On page 1 a new page size is ignored, whatever is known about the count. */
  lemma SizeOnPageOneIsIgnored(t: Tab, size: int, total: Option<int>, confirmed: bool, s: Step)
    requires t.page == 1 && s.request == ChooseSize(size, total, confirmed) && Honest(t, s)
    ensures AfterStep(t, s) == t
  {
    hide Honest, AfterStep;
    RequestIsAnswered(t, s);
  }
}
