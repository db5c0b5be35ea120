/** `loadCascadeImpacts`: what the search reports, and when it may call itself complete. */
module CascadeSearch {
  import opened Common
  import opened CascadeSpec
  import opened Cascade

  ghost predicate DistinctKeys(refs: seq<Fk>) {
    forall i, j :: 0 <= i < j < |refs| ==> EdgeKey(refs[i]) != EdgeKey(refs[j])
  }

  // --- why the search may stop short ---

  /** A chain longer than the search goes. */
  ghost predicate TooDeep(db: Db, q: Query) { exists p :: IsPath(db, q, p) && |p| == MAX_DEPTH + 1 }

  /** Two different chains end in the same key. */
  ghost predicate Meet(db: Db, q: Query) {
    exists p, p' :: IsPath(db, q, p) && IsPath(db, q, p') && p != p' && EdgeKey(Last(p)) == EdgeKey(Last(p'))
  }

  /** More different chains than the search follows. */
  ghost predicate TooMany(db: Db, q: Query) { exists cs :: AreChains(db, q, cs) && |cs| == MAX_EDGES + 1 }

  ghost predicate AreChains(db: Db, q: Query, cs: seq<seq<Fk>>) {
    (forall p :: p in cs ==> IsPath(db, q, p)) && forall i, j :: 0 <= i < j < |cs| ==> cs[i] != cs[j]
  }

  /** The schema lists a key twice. */
  ghost predicate ListsTwice(db: Db, q: Query) {
    !DistinctKeys(q.refs) || exists p :: IsPath(db, q, p) && !DistinctKeys(q.incoming(Last(p)))
  }

  ghost predicate HasMore(db: Db, q: Query) { TooDeep(db, q) || Meet(db, q) || TooMany(db, q) || ListsTwice(db, q) }

  /** What refers to the rows of the table `name` could not be fetched, or its level could not be counted. */
  ghost predicate Unverifiable(db: Db, q: Query, lookupFails: (nat, nat) -> bool, fetchFails: Fk -> bool,
                               name: string) {
    exists p :: IsPath(db, q, p) && name == ChildName(Last(p)) &&
      (|| (Reached(db, q, p) != {} && Last(p).onDelete == CascadeSpec.Cascade && fetchFails(Last(p)))
       || (|p| > 1 && exists b :: lookupFails(|p|, b)))
  }

  /** The search said no more than it had reason to. */
  ghost predicate Explained(db: Db, q: Query, lookupFails: (nat, nat) -> bool, fetchFails: Fk -> bool, p: Progress) {
    && (p.moreCascade ==> HasMore(db, q))
    && forall name :: name in p.unverified ==> Unverifiable(db, q, lookupFails, fetchFails, name)
  }

  /** What the search knows while it runs. */
  datatype Progress = Progress(impacts: seq<Impact>, moreCascade: bool, unverified: seq<string>)

  /** Nothing has been skipped so far. */
  predicate Clear(p: Progress) { !p.moreCascade && p.unverified == [] }

  /** Each key seen is the last of a queued chain. */
  ghost predicate SeenInChains(all: seq<seq<Fk>>, visited: set<FkKey>) {
    forall x :: x in visited ==> exists p :: p in all && p != [] && EdgeKey(Last(p)) == x
  }

  lemma OneMoreSeen(all: seq<seq<Fk>>, visited: set<FkKey>, path: seq<Fk>)
    requires SeenInChains(all, visited) && path != []
    ensures SeenInChains(all + [path], visited + {EdgeKey(Last(path))})
  {
    var all' := all + [path];
    assert path in all' && forall p :: p in all ==> p in all';
  }

  /** Every chain ever queued, with the bookkeeping the search keeps about it. */
  ghost predicate Queued(db: Db, q: Query, all: seq<seq<Fk>>, visited: set<FkKey>, budget: int) {
    && (forall p :: p in all ==> p != [] && IsPath(db, q, p) && EdgeKey(Last(p)) in visited)
    && SeenInChains(all, visited)
    && budget == MAX_EDGES - |all|
    && |all| <= Max(|q.refs|, MAX_EDGES)
    && (DistinctKeys(q.refs) ==>
          forall i, j :: 0 <= i < j < |all| ==>
                 all[i] in all && all[j] in all && EdgeKey(Last(all[i])) != EdgeKey(Last(all[j])))
  }

  /** `level` holds the edges of the chains `paths`, all of length `d`. */
  ghost predicate IsLevel(q: Query, level: seq<Edge>, paths: seq<seq<Fk>>, d: nat) {
    |level| == |paths| &&
    forall i :: 0 <= i < |paths| ==> paths[i] != [] && |paths[i]| == d && level[i] == EdgeOf(q, paths[i])
  }

  lemma PathExtends(db: Db, q: Query, path: seq<Fk>, g: Fk)
    requires IsPath(db, q, path) && Last(path).onDelete == CascadeSpec.Cascade && CountOf(db, q, path) > 0
    requires g in q.incoming(Last(path))
    ensures IsPath(db, q, path + [g]) && Last(path + [g]) == g && |path + [g]| == |path| + 1
    ensures EdgeOf(q, path + [g]) ==
            Edge(g, Below(g, Child(q.database, Last(path)), PredsOf(q, path)), ChildName(Last(path)), |path| + 1)
  {
    CountIsReached(db, q, path);
    assert Front(path + [g]) == path;
  }

  lemma QueueOne(db: Db, q: Query, all: seq<seq<Fk>>, visited: set<FkKey>, budget: int, path: seq<Fk>)
    requires Queued(db, q, all, visited, budget) && path != [] && IsPath(db, q, path)
    requires EdgeKey(Last(path)) !in visited && budget > 0
    ensures Queued(db, q, all + [path], visited + {EdgeKey(Last(path))}, budget - 1)
  {
    hide IsPath, SeenInChains;
    OneMoreSeen(all, visited, path);
    var all' := all + [path];
    assert forall p :: p in all' ==> p in all || p == path;
    assert forall i :: 0 <= i < |all| ==> all'[i] == all[i] && all[i] in all;
  }

  lemma LevelOne(q: Query, next: seq<Edge>, paths: seq<seq<Fk>>, d: nat, path: seq<Fk>)
    requires IsLevel(q, next, paths, d) && path != [] && |path| == d
    ensures IsLevel(q, next + [EdgeOf(q, path)], paths + [path], d)
  {
  }

  /** No chain queued so far goes on from `path`, unless with one of the first `k` keys of `grand`. */
  ghost predicate NotYetFrom(all: seq<seq<Fk>>, path: seq<Fk>, grand: seq<Fk>, k: nat)
    requires k <= |grand|
  {
    forall c :: c in all && c != [] && Front(c) == path ==> exists x :: 0 <= x < k && c == path + [grand[x]]
  }

  /** A key skipped because it was seen before: two chains meet in it, or the schema lists it twice. */
  lemma SeenTwice(db: Db, q: Query, all: seq<seq<Fk>>, visited: set<FkKey>, budget: int, path: seq<Fk>, grand: seq<Fk>,
                  k: nat)
    requires Queued(db, q, all, visited, budget) && IsPath(db, q, path) && grand == q.incoming(Last(path))
    requires k < |grand| && NotYetFrom(all, path, grand, k) && EdgeKey(grand[k]) in visited
    requires IsPath(db, q, path + [grand[k]])
    ensures HasMore(db, q)
  {
    hide IsPath;
    var g := grand[k];
    var c :| c in all && c != [] && EdgeKey(Last(c)) == EdgeKey(g);
    if c == path + [g] {
      assert Front(c) == path;
      var x :| 0 <= x < k && c == path + [grand[x]];
      assert (path + [grand[x]])[|path|] == (path + [g])[|path|];
      assert grand[x] == g && !DistinctKeys(grand);
    } else {
      assert Last(path + [g]) == g;
      assert Meet(db, q);
    }
  }

  /** A key skipped because the budget is spent. */
  lemma BudgetIsSpent(db: Db, q: Query, all: seq<seq<Fk>>, visited: set<FkKey>, budget: int, path: seq<Fk>)
    requires Queued(db, q, all, visited, budget) && budget <= 0 && IsPath(db, q, path) && path != []
    requires EdgeKey(Last(path)) !in visited
    ensures HasMore(db, q)
  {
    hide IsPath;
    if DistinctKeys(q.refs) {
      var cs := all[..MAX_EDGES] + [path];
      forall i | 0 <= i < MAX_EDGES ensures all[i] in all && cs[i] == all[i] {
      }
      forall i, j | 0 <= i < j < |cs| ensures cs[i] != cs[j] {
        assert cs[i] in all;
        assert j < MAX_EDGES ==> EdgeKey(Last(all[i])) != EdgeKey(Last(all[j]));
      }
      forall p | p in cs ensures IsPath(db, q, p) {
        assert p in all || p == path;
      }
      assert AreChains(db, q, cs);
    }
  }

  lemma OneMoreFrom(all: seq<seq<Fk>>, path: seq<Fk>, grand: seq<Fk>, k: nat)
    requires k < |grand| && NotYetFrom(all, path, grand, k)
    ensures NotYetFrom(all, path, grand, k + 1) && NotYetFrom(all + [path + [grand[k]]], path, grand, k + 1)
  {
  }

  /** Queues the keys `grand` that refer to the child of `edge`; what it skips it reports as `more`. */
  method PushChildren(ghost db: Db, q: Query, edge: Edge, ghost path: seq<Fk>, grand: seq<Fk>, next: seq<Edge>,
                      visited: set<FkKey>, budget: int, more: bool, ghost all: seq<seq<Fk>>, ghost hi: nat)
    returns (next': seq<Edge>, visited': set<FkKey>, budget': int, more': bool, ghost all': seq<seq<Fk>>)
    requires IsPath(db, q, path) && edge == EdgeOf(q, path) && edge.fk.onDelete == CascadeSpec.Cascade
    requires CountOf(db, q, path) > 0 && grand == q.incoming(edge.fk)
    requires Queued(db, q, all, visited, budget) && hi <= |all| && IsLevel(q, next, all[hi..], |path| + 1)
    requires DistinctKeys(q.refs) ==> NotYetFrom(all, path, grand, 0)
    ensures Queued(db, q, all', visited', budget') && all <= all' && IsLevel(q, next', all'[hi..], |path| + 1)
    ensures more ==> more'
    ensures more' ==> more || HasMore(db, q)
    ensures !more' ==> forall g :: g in grand ==> path + [g] in all'[hi..]
    ensures FrontsFrom(all'[|all|..], [path])
  {
    hide Queued, IsLevel, IsPath, CountOf, HasMore, NotYetFrom, DistinctKeys, FrontsFrom;
    NoFronts(all, [path]);
    RepeatsAreMore(db, q);
    next', visited', budget', more', all' := next, visited, budget, more, all;
    var childFrom := Child(q.database, edge.fk);
    for k := 0 to |grand|
      invariant Queued(db, q, all', visited', budget') && all <= all' && IsLevel(q, next', all'[hi..], |path| + 1)
      invariant more ==> more'
      invariant more' ==> more || HasMore(db, q)
      invariant !more' ==> forall x :: 0 <= x < k ==> path + [grand[x]] in all'[hi..]
      invariant DistinctKeys(q.refs) ==> NotYetFrom(all', path, grand, k)
      invariant FrontsFrom(all'[|all|..], [path])
    {
      var g := grand[k];
      var key := EdgeKey(g);
      ghost var path' := path + [g];
      PathExtends(db, q, path, g);
      if DistinctKeys(q.refs) {
        OneMoreFrom(all', path, grand, k);
      }
      if key in visited' || budget' <= 0 {
        if DistinctKeys(q.refs) {
          SkippedIsMore(db, q, all', visited', budget', path, grand, k);
        }
        more' := true;
        continue;
      }
      FrontsGrow(all', |all|, path, g);
      QueueOne(db, q, all', visited', budget', path');
      LevelOne(q, next', all'[hi..], |path| + 1, path');
      assert (all' + [path'])[hi..] == all'[hi..] + [path'];
      budget' := budget' - 1;
      visited' := visited' + {key};
      next' := next' + [Edge(g, Below(g, childFrom, edge.preds), ChildName(edge.fk), edge.depth + 1)];
      all' := all' + [path'];
    }
  }

  /** Every chain of `cs` goes on from one of `paths`. */
  ghost predicate FrontsFrom(cs: seq<seq<Fk>>, paths: seq<seq<Fk>>) {
    forall c :: c in cs ==> c != [] && Front(c) in paths
  }

  lemma NoFronts(all: seq<seq<Fk>>, paths: seq<seq<Fk>>)
    ensures FrontsFrom(all[|all|..], paths)
  {
  }

  lemma FrontsGrow(all: seq<seq<Fk>>, from: nat, path: seq<Fk>, g: Fk)
    requires from <= |all| && FrontsFrom(all[from..], [path])
    ensures FrontsFrom((all + [path + [g]])[from..], [path])
  {
    assert (all + [path + [g]])[from..] == all[from..] + [path + [g]];
    assert Front(path + [g]) == path && path in [path];
  }

  lemma RepeatsAreMore(db: Db, q: Query)
    ensures !DistinctKeys(q.refs) ==> HasMore(db, q)
  {
  }

  lemma SkippedIsMore(db: Db, q: Query, all: seq<seq<Fk>>, visited: set<FkKey>, budget: int, path: seq<Fk>,
                      grand: seq<Fk>, k: nat)
    requires Queued(db, q, all, visited, budget) && IsPath(db, q, path) && grand == q.incoming(Last(path))
    requires k < |grand| && NotYetFrom(all, path, grand, k) && IsPath(db, q, path + [grand[k]])
    requires EdgeKey(grand[k]) in visited || budget <= 0
    ensures HasMore(db, q)
  {
    hide HasMore, Queued, IsPath, NotYetFrom;
    if EdgeKey(grand[k]) in visited {
      SeenTwice(db, q, all, visited, budget, path, grand, k);
    } else {
      BudgetIsSpent(db, q, all, visited, budget, path + [grand[k]]);
    }
  }

  lemma FetchIsUnverifiable(db: Db, q: Query, lookupFails: (nat, nat) -> bool, fetchFails: Fk -> bool, path: seq<Fk>)
    requires path != [] && IsPath(db, q, path) && CountOf(db, q, path) > 0
    requires Last(path).onDelete == CascadeSpec.Cascade && fetchFails(Last(path))
    ensures Unverifiable(db, q, lookupFails, fetchFails, ChildName(Last(path)))
  {
    hide IsPath, Reached, CountOf;
    CountIsReached(db, q, path);
  }

  lemma DeepIsMore(db: Db, q: Query, path: seq<Fk>)
    requires IsPath(db, q, path) && |path| == MAX_DEPTH + 1
    ensures HasMore(db, q)
  {
    hide IsPath, Meet, TooMany, ListsTwice;
  }

  lemma NoneYetFrom(all: seq<seq<Fk>>, path: seq<Fk>, grand: seq<Fk>)
    ensures NotYetFrom(all, path, [], 0) ==> NotYetFrom(all, path, grand, 0)
  {
  }

  /** Follows one edge that deletes rows: fetches the keys that refer to its child and queues them. */
  method Expand(ghost db: Db, q: Query, edge: Edge, ghost path: seq<Fk>, ghost lookupFails: (nat, nat) -> bool,
                fetchFails: Fk -> bool, next: seq<Edge>,
                visited: set<FkKey>, budget: int, p: Progress, ghost all: seq<seq<Fk>>, ghost hi: nat)
    returns (next': seq<Edge>, visited': set<FkKey>, budget': int, p': Progress, ghost all': seq<seq<Fk>>)
    requires path != [] && IsPath(db, q, path) && edge == EdgeOf(q, path) && edge.fk.onDelete == CascadeSpec.Cascade
    requires CountOf(db, q, path) > 0
    requires Queued(db, q, all, visited, budget) && hi <= |all| && IsLevel(q, next, all[hi..], |path| + 1)
    requires |path| <= MAX_DEPTH && (|path| == MAX_DEPTH ==> next == [])
    requires Explained(db, q, lookupFails, fetchFails, p) && (DistinctKeys(q.refs) ==> NotYetFrom(all, path, [], 0))
    ensures Queued(db, q, all', visited', budget') && all <= all' && IsLevel(q, next', all'[hi..], |path| + 1)
    ensures |path| >= MAX_DEPTH ==> next' == []
    ensures p'.impacts == p.impacts && (Clear(p') ==> Clear(p))
    ensures Clear(p') ==> forall g :: g in q.incoming(edge.fk) ==> path + [g] in all'[hi..]
    ensures Explained(db, q, lookupFails, fetchFails, p') && FrontsFrom(all'[|all|..], [path])
  {
    hide Queued, IsLevel, IsPath, CountOf, HasMore, Unverifiable, NotYetFrom, DistinctKeys, FrontsFrom, Reached;
    NoFronts(all, [path]);
    next', visited', budget', p', all' := next, visited, budget, p, all;
    if fetchFails(edge.fk) {
      FetchIsUnverifiable(db, q, lookupFails, fetchFails, path);
      p' := p.(unverified := p.unverified + [ChildName(edge.fk)]);
      return;
    }
    var grand := q.incoming(edge.fk);
    if grand == [] {
      return;
    }
    if edge.depth >= MAX_DEPTH {
      PathExtends(db, q, path, grand[0]);
      DeepIsMore(db, q, path + [grand[0]]);
      p' := p.(moreCascade := true);
      return;
    }
    NoneYetFrom(all, path, grand);
    var more;
    next', visited', budget', more, all' :=
      PushChildren(db, q, edge, path, grand, next, visited, budget, p.moreCascade, all, hi);
    p' := p.(moreCascade := more);
  }

  // --- one level ---

  /** The impacts are those of the chains `ps`, each with its count. */
  ghost predicate Reported(db: Db, q: Query, impacts: seq<Impact>, ps: seq<seq<Fk>>) {
    |impacts| == |ps| &&
    forall k :: 0 <= k < |ps| ==>
      && ps[k] != [] && IsPath(db, q, ps[k]) && CountOf(db, q, ps[k]) > 0
      && impacts[k] == ImpactOf(EdgeOf(q, ps[k]), CountOf(db, q, ps[k]))
  }

  /** The chain is reported if it has rows, and the keys below it are queued if it deletes them. */
  ghost predicate Covered(db: Db, q: Query, path: seq<Fk>, ps: seq<seq<Fk>>, queued: seq<seq<Fk>>) {
    path != [] && CountOf(db, q, path) > 0 ==>
      path in ps &&
      (Last(path).onDelete == CascadeSpec.Cascade ==> forall g :: g in q.incoming(Last(path)) ==> path + [g] in queued)
  }

  /** Without duplicate root keys no chain is reported twice. */
  ghost predicate Once(q: Query, ps: seq<seq<Fk>>, queued: seq<seq<Fk>>) {
    && (forall k :: 0 <= k < |ps| ==> ps[k] in queued)
    && (DistinctKeys(q.refs) ==> forall k, l :: 0 <= k < l < |ps| ==> ps[k] != ps[l])
  }

  lemma ReportOne(db: Db, q: Query, impacts: seq<Impact>, ps: seq<seq<Fk>>, path: seq<Fk>)
    requires Reported(db, q, impacts, ps) && path != [] && IsPath(db, q, path) && CountOf(db, q, path) > 0
    ensures Reported(db, q, impacts + [ImpactOf(EdgeOf(q, path), CountOf(db, q, path))], ps + [path])
  {
    hide IsPath, CountOf, EdgeOf;
  }

  lemma OnceMore(db: Db, q: Query, all: seq<seq<Fk>>, visited: set<FkKey>, budget: int, ps: seq<seq<Fk>>, i: nat)
    requires Queued(db, q, all, visited, budget) && i < |all| && Once(q, ps, all[..i])
    ensures Once(q, ps, all[..i + 1]) && Once(q, ps + [all[i]], all[..i + 1])
  {
    hide IsPath;
    assert all[i] in all;
    assert all[..i + 1] == all[..i] + [all[i]];
    if DistinctKeys(q.refs) {
      forall k | 0 <= k < |ps| ensures ps[k] != all[i] {
        var j :| 0 <= j < |all[..i]| && all[..i][j] == ps[k];
        assert all[j] == ps[k] && all[j] in all;
      }
    }
  }

  lemma OncePrefix(q: Query, ps: seq<seq<Fk>>, all: seq<seq<Fk>>, all': seq<seq<Fk>>, i: nat)
    requires all <= all' && i <= |all| && Once(q, ps, all[..i])
    ensures Once(q, ps, all'[..i])
  {
    assert all'[..i] == all[..i];
  }

  lemma CoveredStays(db: Db, q: Query, path: seq<Fk>, ps: seq<seq<Fk>>, ps': seq<seq<Fk>>,
                     queued: seq<seq<Fk>>, queued': seq<seq<Fk>>)
    requires Covered(db, q, path, ps, queued) && ps <= ps' && queued <= queued'
    ensures Covered(db, q, path, ps', queued')
  {
    hide CountOf;
    assert forall x :: x in ps ==> x in ps';
    assert forall x :: x in queued ==> x in queued';
  }

  /** One edge: reports it if it has rows, and follows it if it deletes them. */
  method SearchEdge(ghost db: Db, q: Query, edge: Edge, count: nat, ghost path: seq<Fk>,
                    ghost lookupFails: (nat, nat) -> bool, fetchFails: Fk -> bool, next: seq<Edge>, visited: set<FkKey>,
                    budget: int, p: Progress, ghost all: seq<seq<Fk>>,
                    ghost hi: nat,
                    ghost ps: seq<seq<Fk>>)
    returns (next': seq<Edge>, visited': set<FkKey>, budget': int, p': Progress, ghost all': seq<seq<Fk>>,
             ghost ps': seq<seq<Fk>>)
    requires path != [] && IsPath(db, q, path) && edge == EdgeOf(q, path) && count == CountOf(db, q, path)
    requires Queued(db, q, all, visited, budget) && hi <= |all| && IsLevel(q, next, all[hi..], |path| + 1)
    requires Reported(db, q, p.impacts, ps) && |path| <= MAX_DEPTH && (|path| == MAX_DEPTH ==> next == [])
    requires Explained(db, q, lookupFails, fetchFails, p) && (DistinctKeys(q.refs) ==> NotYetFrom(all, path, [], 0))
    ensures Queued(db, q, all', visited', budget') && all <= all' && IsLevel(q, next', all'[hi..], |path| + 1)
    ensures Reported(db, q, p'.impacts, ps') && (|path| >= MAX_DEPTH ==> next' == [])
    ensures ps' == ps || ps' == ps + [path]
    ensures Clear(p') ==> Clear(p) && Covered(db, q, path, ps', all'[hi..])
    ensures Explained(db, q, lookupFails, fetchFails, p') && FrontsFrom(all'[|all|..], [path])
  {
    hide Queued, IsLevel, IsPath, CountOf, Reported, Covered, HasMore, Unverifiable, NotYetFrom, DistinctKeys,
    FrontsFrom;
    NoFronts(all, [path]);
    next', visited', budget', p', all', ps' := next, visited, budget, p, all, ps;
    if count <= 0 {
      NoRowsNothingToCover(db, q, path, ps', all'[hi..]);
      return;
    }
    ReportOne(db, q, p.impacts, ps, path);
    p' := p.(impacts := p.impacts + [ImpactOf(edge, count)]);
    ps' := ps + [path];
    if edge.fk.onDelete == CascadeSpec.Cascade {
      next', visited', budget', p', all' :=
        Expand(db, q, edge, path, lookupFails, fetchFails, next, visited, budget, p', all, hi);
    }
    if Clear(p') {
      NowCovered(db, q, path, ps', all'[hi..]);
    }
  }

  /** `ps'` adds at most `n` chains of length `d` to `ps`. */
  ghost predicate Grown(ps: seq<seq<Fk>>, ps': seq<seq<Fk>>, n: nat, d: nat) {
    ps <= ps' && |ps'| <= |ps| + n && forall x :: x in ps' ==> x in ps || |x| == d
  }

  lemma GrownStep(ps: seq<seq<Fk>>, ps': seq<seq<Fk>>, n: nat, d: nat, path: seq<Fk>)
    requires Grown(ps, ps', n, d) && |path| == d
    ensures Grown(ps, ps', n + 1, d) && Grown(ps, ps' + [path], n + 1, d)
  {
  }

  ghost predicate AllCovered(db: Db, q: Query, paths: seq<seq<Fk>>, ps: seq<seq<Fk>>, queued: seq<seq<Fk>>) {
    forall x :: x in paths ==> Covered(db, q, x, ps, queued)
  }

  lemma AllCoveredStep(db: Db, q: Query, paths: seq<seq<Fk>>, i: nat, ps: seq<seq<Fk>>, ps': seq<seq<Fk>>,
                       all: seq<seq<Fk>>, all': seq<seq<Fk>>, hi: nat)
    requires i < |paths| && hi <= |all| && all <= all' && ps <= ps'
    requires AllCovered(db, q, paths[..i], ps, all[hi..]) && Covered(db, q, paths[i], ps', all'[hi..])
    ensures AllCovered(db, q, paths[..i + 1], ps', all'[hi..])
  {
    hide Covered;
    assert all[hi..] <= all'[hi..];
    forall x | x in paths[..i + 1] ensures Covered(db, q, x, ps', all'[hi..]) {
      if x != paths[i] {
        var k :| 0 <= k < i && paths[..i + 1][k] == x;
        assert paths[..i][k] == x;
        CoveredStays(db, q, x, ps, ps', all[hi..], all'[hi..]);
      }
    }
  }

  /** The state of the search inside a level: the next level's edges and what the whole search keeps. */
  datatype State = State(next: seq<Edge>, visited: set<FkKey>, budget: int, progress: Progress)

  /** What holds after `i` edges of the level whose chains are `all[lo..hi]`; `all'` and `ps'` have grown since. */
  ghost predicate LevelInv(db: Db, q: Query, st: State, d: nat, i: nat, lo: nat, all: seq<seq<Fk>>, all': seq<seq<Fk>>,
                           clear: bool, ps: seq<seq<Fk>>, ps': seq<seq<Fk>>)
  {
    && lo + i <= |all| && all <= all'
    && Queued(db, q, all', st.visited, st.budget) && IsLevel(q, st.next, all'[|all|..], d + 1)
    && (d >= MAX_DEPTH ==> st.next == [])
    && Reported(db, q, st.progress.impacts, ps') && Once(q, ps', all'[..lo + i]) && Grown(ps, ps', i, d)
    && (Clear(st.progress) ==> clear && AllCovered(db, q, all[lo..][..i], ps', all'[|all|..]))
  }

  lemma LevelStep(db: Db, q: Query, st: State, d: nat, i: nat, lo: nat, all: seq<seq<Fk>>, all': seq<seq<Fk>>,
                  clear: bool, ps: seq<seq<Fk>>, ps': seq<seq<Fk>>, st': State, all'': seq<seq<Fk>>, ps'': seq<seq<Fk>>)
    requires LevelInv(db, q, st, d, i, lo, all, all', clear, ps, ps') && lo + i < |all|
    requires var path := all[lo + i];
             && path != [] && |path| == d && all' <= all'' && (ps'' == ps' || ps'' == ps' + [path])
             && Queued(db, q, all'', st'.visited, st'.budget) && IsLevel(q, st'.next, all''[|all|..], d + 1)
             && (d >= MAX_DEPTH ==> st'.next == [])
             && Reported(db, q, st'.progress.impacts, ps'')
             && (Clear(st'.progress) ==> Clear(st.progress) && Covered(db, q, path, ps'', all''[|all|..]))
    ensures LevelInv(db, q, st', d, i + 1, lo, all, all'', clear, ps, ps'')
  {
    hide Queued, IsLevel, Reported, Once, Covered, Grown, AllCovered;
    var path := all[lo + i];
    assert all'[lo + i] == path;
    OnceMore(db, q, all', st.visited, st.budget, ps', lo + i);
    OncePrefix(q, ps'', all', all'', lo + i + 1);
    GrownStep(ps, ps', i, d, path);
    if Clear(st'.progress) {
      assert all[lo..][i] == path;
      AllCoveredStep(db, q, all[lo..], i, ps', ps'', all', all'', |all|);
    }
  }

  lemma LevelStart(db: Db, q: Query, st: State, d: nat, lo: nat, all: seq<seq<Fk>>, ps: seq<seq<Fk>>)
    requires Queued(db, q, all, st.visited, st.budget) && lo <= |all| && st.next == []
    requires Reported(db, q, st.progress.impacts, ps) && Once(q, ps, all[..lo])
    ensures LevelInv(db, q, st, d, 0, lo, all, all, Clear(st.progress), ps, ps)
  {
    hide Queued, IsLevel, Reported, Once, Covered, Grown, AllCovered;
    EmptyLevel(q, d + 1);
    NothingToCover(db, q, ps, d);
    assert all[|all|..] == [] && all[lo..][..0] == [];
  }

  /** No chain queued so far is longer than `d`. */
  ghost predicate Within(all: seq<seq<Fk>>, d: nat) { forall c :: c in all ==> c != [] && |c| <= d }

  /** The chains queued while the level `all[lo..]` is searched go on from those of its edges done so far. */
  lemma NotYetExpanded(db: Db, q: Query, visited: set<FkKey>, budget: int, all: seq<seq<Fk>>, all': seq<seq<Fk>>,
                       lo: nat, d: nat, i: nat)
    requires Queued(db, q, all', visited, budget) && all <= all' && Within(all, d) && lo + i < |all|
    requires |all[lo + i]| == d && FrontsFrom(all'[|all|..], all[lo..][..i]) && DistinctKeys(q.refs)
    ensures NotYetFrom(all', all[lo + i], [], 0)
  {
    hide IsPath, SeenInChains;
    var path := all[lo + i];
    forall c | c in all' && c != [] ensures Front(c) != path {
      var k :| 0 <= k < |all'| && all'[k] == c;
      if k < |all| {
        assert c in all;
      } else {
        assert all'[|all|..][k - |all|] == c;
        var j :| 0 <= j < i && all[lo..][..i][j] == Front(c);
        assert all'[lo + j] == Front(c) && all'[lo + i] == path && all'[lo + i] in all';
      }
    }
  }

  lemma FrontsStep(all: seq<seq<Fk>>, all': seq<seq<Fk>>, all'': seq<seq<Fk>>, lo: nat, i: nat)
    requires all <= all' <= all'' && lo + i < |all|
    requires FrontsFrom(all'[|all|..], all[lo..][..i]) && FrontsFrom(all''[|all'|..], [all[lo + i]])
    ensures FrontsFrom(all''[|all|..], all[lo..][..i + 1])
  {
    assert all''[|all|..] == all'[|all|..] + all''[|all'|..];
    assert all[lo..][..i + 1] == all[lo..][..i] + [all[lo + i]];
  }

  lemma WithinNext(q: Query, next: seq<Edge>, all: seq<seq<Fk>>, all': seq<seq<Fk>>, d: nat)
    requires Within(all, d) && all <= all' && IsLevel(q, next, all'[|all|..], d + 1)
    ensures Within(all', d + 1)
  {
    forall c | c in all' ensures c != [] && |c| <= d + 1 {
      var k :| 0 <= k < |all'| && all'[k] == c;
      if k < |all| {
        assert c in all;
      } else {
        assert all'[|all|..][k - |all|] == c;
      }
    }
  }

  /** One level: reports the edges with rows and queues the next level. */
  method SearchLevel(ghost db: Db, q: Query, level: seq<Edge>, totals: map<nat, nat>,
                     ghost lookupFails: (nat, nat) -> bool, fetchFails: Fk -> bool, st: State, ghost d: nat,
                     ghost all: seq<seq<Fk>>, ghost lo: nat, ghost ps: seq<seq<Fk>>)
    returns (st': State, ghost all': seq<seq<Fk>>, ghost ps': seq<seq<Fk>>)
    requires Found(db, q, st, all, lo, ps, d) && lo <= |all| && IsLevel(q, level, all[lo..], d)
    requires forall i :: 0 <= i < |level| ==>
             Total(totals, i) == Count(db, Child(q.database, level[i].fk), level[i].preds)
    requires d <= MAX_DEPTH && Within(all, d) && Explained(db, q, lookupFails, fetchFails, st.progress)
    ensures LevelInv(db, q, st', d, |level|, lo, all, all', Clear(st.progress), ps, ps')
    ensures Explained(db, q, lookupFails, fetchFails, st'.progress)
  {
    hide Queued, IsLevel, IsPath, CountOf, Reported, Once, Covered, EdgeOf, Count, Total, Grown, AllCovered;
    hide Explained, Within, FrontsFrom, NotYetFrom, DistinctKeys;
    NoFronts(all, all[lo..][..0]);
    st', all', ps' := st.(next := []), all, ps;
    LevelSize(q, level, all[lo..], d);
    LevelStart(db, q, st', d, lo, all, ps);
    for i := 0 to |level|
      invariant LevelInv(db, q, st', d, i, lo, all, all', Clear(st.progress), ps, ps')
      invariant Explained(db, q, lookupFails, fetchFails, st'.progress)
      invariant lo + i <= |all| && FrontsFrom(all'[|all|..], all[lo..][..i])
    {
      EdgeOfLevel(db, q, level, all, lo, d, i, st.visited, st.budget);
      ghost var before, allBefore, psBefore := st', all', ps';
      if DistinctKeys(q.refs) {
        NotYetExpanded(db, q, st'.visited, st'.budget, all, all', lo, d, i);
      }
      var next, visited, budget, p;
      next, visited, budget, p, all', ps' :=
        SearchEdge(db, q, level[i], Total(totals, i), all[lo + i], lookupFails, fetchFails, st'.next, st'.visited,
                   st'.budget,
                   st'.progress, all', |all|, ps');
      st' := State(next, visited, budget, p);
      LevelStep(db, q, before, d, i, lo, all, allBefore, Clear(st.progress), ps, psBefore, st', all', ps');
      FrontsStep(all, allBefore, all', lo, i);
    }
  }

  lemma NothingToCover(db: Db, q: Query, ps: seq<seq<Fk>>, d: nat)
    ensures AllCovered(db, q, [], ps, []) && Grown(ps, ps, 0, d)
  {
  }

  lemma LevelSize(q: Query, level: seq<Edge>, paths: seq<seq<Fk>>, d: nat)
    requires IsLevel(q, level, paths, d)
    ensures |level| == |paths|
  {
  }

  lemma EmptyLevel(q: Query, d: nat)
    ensures IsLevel(q, [], [], d)
  {
  }

  lemma EdgeOfLevel(db: Db, q: Query, level: seq<Edge>, all: seq<seq<Fk>>, lo: nat, d: nat, i: nat, visited: set<FkKey>,
                    budget: int)
    requires Queued(db, q, all, visited, budget) && lo <= |all| && IsLevel(q, level, all[lo..], d) && i < |level|
    ensures lo + i < |all| && var path := all[lo + i];
            && path != [] && |path| == d && IsPath(db, q, path) && level[i] == EdgeOf(q, path)
            && level[i].fk == Last(path)
            && Count(db, Child(q.database, level[i].fk), level[i].preds) == CountOf(db, q, path)
  {
    hide IsPath;
    assert all[lo..][i] == all[lo + i] && all[lo + i] in all;
  }

  lemma NoRowsNothingToCover(db: Db, q: Query, path: seq<Fk>, ps: seq<seq<Fk>>, queued: seq<seq<Fk>>)
    requires path == [] || CountOf(db, q, path) == 0
    ensures Covered(db, q, path, ps, queued)
  {
  }

  lemma NowCovered(db: Db, q: Query, path: seq<Fk>, ps: seq<seq<Fk>>, queued: seq<seq<Fk>>)
    requires path != [] && path in ps
    requires Last(path).onDelete == CascadeSpec.Cascade ==>
             forall g :: g in q.incoming(Last(path)) ==> path + [g] in queued
    ensures Covered(db, q, path, ps, queued)
  {
  }

  // --- the whole search ---

  /** `all` are the root keys at the positions `src`, in order and before `k`. */
  ghost predicate RootsFrom(q: Query, all: seq<seq<Fk>>, src: seq<nat>, visited: set<FkKey>, k: nat) {
    && |src| == |all| <= k <= |q.refs|
    && (forall i, j :: 0 <= i < j < |src| ==> src[i] < src[j])
    && (forall i :: 0 <= i < |all| ==>
          src[i] < k && all[i] == [q.refs[src[i]]] && q.roots(q.refs[src[i]]) != [] &&
          EdgeKey(q.refs[src[i]]) in visited)
    && SeenInChains(all, visited)
  }

  lemma RootsOne(q: Query, all: seq<seq<Fk>>, src: seq<nat>, visited: set<FkKey>, k: nat)
    requires RootsFrom(q, all, src, visited, k) && k < |q.refs|
    ensures RootsFrom(q, all, src, visited, k + 1)
    ensures q.roots(q.refs[k]) != [] ==>
              RootsFrom(q, all + [[q.refs[k]]], src + [k], visited + {EdgeKey(q.refs[k])}, k + 1)
  {
    hide SeenInChains, EdgeKey;
    OneMoreSeen(all, visited, [q.refs[k]]);
  }

  lemma RootsAreQueued(db: Db, q: Query, all: seq<seq<Fk>>, src: seq<nat>, visited: set<FkKey>)
    requires RootsFrom(q, all, src, visited, |q.refs|)
    ensures Queued(db, q, all, visited, MAX_EDGES - |all|)
  {
    hide SeenInChains;
    forall p | p in all ensures p != [] && IsPath(db, q, p) && EdgeKey(Last(p)) in visited {
      var i :| 0 <= i < |all| && all[i] == p;
    }
    if DistinctKeys(q.refs) {
      forall i, j | 0 <= i < j < |all| ensures EdgeKey(Last(all[i])) != EdgeKey(Last(all[j])) {
        assert src[i] < src[j];
      }
    }
  }

  /** The first level: every root key that has predicates, whatever the budget. */
  method StartSearch(ghost db: Db, q: Query)
    returns (level: seq<Edge>, visited: set<FkKey>, budget: int, ghost all: seq<seq<Fk>>)
    ensures Queued(db, q, all, visited, budget) && IsLevel(q, level, all, 1)
    ensures forall fk :: fk in q.refs && q.roots(fk) != [] ==> [fk] in all
  {
    hide RootsFrom, IsLevel, Queued, IsPath;
    level, visited, budget, all := [], {}, MAX_EDGES, [];
    ghost var src: seq<nat> := [];
    EmptyLevel(q, 1);
    NoRoots(q);
    for k := 0 to |q.refs|
      invariant IsLevel(q, level, all, 1) && budget == MAX_EDGES - |all| && RootsFrom(q, all, src, visited, k)
      invariant forall x :: 0 <= x < k && q.roots(q.refs[x]) != [] ==> [q.refs[x]] in all
    {
      var fk := q.refs[k];
      var preds := q.roots(fk);
      RootsOne(q, all, src, visited, k);
      if preds == [] {
        continue;
      }
      LevelOne(q, level, all, 1, [fk]);
      budget := budget - 1;
      visited := visited + {EdgeKey(fk)};
      level := level + [Edge(fk, preds, q.parentTable, 1)];
      all, src := all + [[fk]], src + [k];
    }
    RootsAreQueued(db, q, all, src, visited);
  }

  lemma NoRoots(q: Query)
    ensures RootsFrom(q, [], [], {}, 0)
  {
  }

  lemma {:induction false} PrefixIsPath(db: Db, q: Query, path: seq<Fk>, n: nat)
    requires IsPath(db, q, path) && 1 <= n <= |path|
    ensures IsPath(db, q, path[..n])
    ensures n < |path| ==> Reached(db, q, path[..n]) != {} && path[n - 1].onDelete == CascadeSpec.Cascade
    ensures n < |path| ==> path[n] in q.incoming(path[n - 1])
    decreases |path|
  {
    hide Reached;
    if n == |path| {
      assert path[..n] == path;
    } else {
      assert Front(path)[..n] == path[..n];
      PrefixIsPath(db, q, Front(path), n);
    }
  }

  /** All chains shorter than `d` are reported, all of length `d` are queued. */
  ghost predicate Complete(db: Db, q: Query, d: nat, ps: seq<seq<Fk>>, queued: seq<seq<Fk>>) {
    && (forall p :: IsPath(db, q, p) && p != [] && |p| < d && CountOf(db, q, p) > 0 ==> p in ps)
    && (forall p :: IsPath(db, q, p) && |p| == d ==> p in queued)
  }

  lemma CompleteStart(db: Db, q: Query, all: seq<seq<Fk>>)
    requires forall fk :: fk in q.refs && q.roots(fk) != [] ==> [fk] in all
    ensures Complete(db, q, 1, [], all)
  {
    forall p | IsPath(db, q, p) && |p| == 1 ensures p in all {
      assert p == [p[0]];
    }
  }

  lemma CompleteStep(db: Db, q: Query, d: nat, ps: seq<seq<Fk>>, queued: seq<seq<Fk>>, ps': seq<seq<Fk>>,
                     queued': seq<seq<Fk>>)
    requires d >= 1 && Complete(db, q, d, ps, queued) && ps <= ps'
    requires AllCovered(db, q, queued, ps', queued')
    ensures Complete(db, q, d + 1, ps', queued')
  {
    hide CountOf, IsPath, Reached, PredsOf;
    assert forall x :: x in ps ==> x in ps';
    forall p | IsPath(db, q, p) && |p| == d + 1 ensures p in queued' {
      PrefixIsPath(db, q, p, d);
      CountIsReached(db, q, p[..d]);
      assert p == p[..d] + [p[d]] && Last(p[..d]) == p[d - 1];
    }
  }

  /** An empty level with nothing skipped leaves nothing unreported. */
  lemma CompleteEnd(db: Db, q: Query, d: nat, ps: seq<seq<Fk>>)
    requires d >= 1 && Complete(db, q, d, ps, [])
    ensures forall p :: p != [] && IsPath(db, q, p) && Reached(db, q, p) != {} ==> p in ps
  {
    hide CountOf, IsPath, Reached, PredsOf;
    forall p | p != [] && IsPath(db, q, p) && Reached(db, q, p) != {} ensures p in ps {
      CountIsReached(db, q, p);
      if |p| >= d {
        PrefixIsPath(db, q, p, d);
      }
    }
  }

  function Dedup(xs: seq<string>): (ys: seq<string>)
    ensures ys == [] <==> xs == []
    ensures forall x :: x in ys <==> x in xs
    ensures forall i, j :: 0 <= i < j < |ys| ==> ys[i] != ys[j]
  {
    if xs == [] then []
    else if xs[|xs| - 1] in xs[..|xs| - 1] then Dedup(xs[..|xs| - 1])
    else Dedup(xs[..|xs| - 1]) + [xs[|xs| - 1]]
  }

  function TablesOf(level: seq<Edge>): seq<string> {
    seq(|level|, i requires 0 <= i < |level| => ChildName(level[i].fk))
  }

  /** An impact tells of some chain that really reaches rows, within the depth limit. */
  ghost predicate Real(db: Db, q: Query, impact: Impact) {
    exists p :: p != [] && IsPath(db, q, p) && |p| <= MAX_DEPTH && TellsOf(db, q, impact, p)
  }

  /** The chain's last key, its length, and its rows: never fewer counted, and exactly as many when keys are unique. */
  ghost predicate TellsOf(db: Db, q: Query, impact: Impact, p: seq<Fk>)
    requires p != []
  {
    && impact.fk == Last(p) && impact.depth == |p| && Reached(db, q, p) != {}
    && impact.parentName == (if |p| == 1 then q.parentTable else ChildName(p[|p| - 2]))
    && impact.count >= |Reached(db, q, p)| && (Exact(db, q, p) ==> impact.count == |Reached(db, q, p)|)
  }

  /**
   * The search stops within three levels and `max(roots, 24)` edges. Every impact is a chain that
   * really reaches rows; and when nothing was skipped or left unverified, every such chain is reported.
   * `ps` names the chain behind each impact. The whole result is given up only if the first level cannot be counted.
   */
  method LoadCascadeImpacts(ghost db: Db, answer: (TableName, Pred) -> nat, q: Query, lookupFails: (nat, nat) -> bool,
                            fetchFails: Fk -> bool)
    returns (result: Result, ghost ps: seq<seq<Fk>>)
    requires Answers(db, answer)
    ensures result.Counted? ==> |result.report.impacts| <= Max(|q.refs|, MAX_EDGES)
    ensures result.Counted? ==> forall k :: 0 <= k < |result.report.impacts| ==> Real(db, q, result.report.impacts[k])
    ensures result.Counted? && !result.report.moreCascade && result.report.unverified == [] ==>
              forall p :: p != [] && IsPath(db, q, p) && Reached(db, q, p) != {} ==>
                exists k :: 0 <= k < |result.report.impacts| && TellsOf(db, q, result.report.impacts[k], p)
    ensures result.Counted? ==>
              Reported(db, q, result.report.impacts, ps) &&
              (DistinctKeys(q.refs) ==> forall k, l :: 0 <= k < l < |ps| ==> ps[k] != ps[l])
    ensures result.Counted? && DistinctKeys(q.refs) ==> DistinctImpacts(result.report.impacts)
    ensures result.Failed? ==> exists b :: lookupFails(1, b)
    ensures result.Counted? && result.report.moreCascade ==> HasMore(db, q)
    ensures result.Counted? ==> forall name :: name in result.report.unverified ==>
              Unverifiable(db, q, lookupFails, fetchFails, name)
    ensures result.Counted? ==>
              forall i, j :: 0 <= i < j < |result.report.unverified| ==>
                result.report.unverified[i] != result.report.unverified[j]
  {
    hide Found, LevelInv, IsLevel, IsPath, CountOf, Complete, Reported, Real, TellsOf, Reached, DistinctImpacts,
         Dedup, DistinctKeys, Within, HasMore, Unverifiable, Explained;
    NothingToExplain(db, q, lookupFails, fetchFails);
    var level, visited, budget;
    ghost var all;
    level, visited, budget, all := StartSearch(db, q);
    CompleteStart(db, q, all);
    var st := State([], visited, budget, Progress([], false, []));
    ps := [];
    ghost var lo: nat := 0;
    var d: nat := 1;
    assert all[0..] == all;
    FoundStart(db, q, st, all);
    RootsWithin(q, level, all);
    while level != []
      invariant 1 <= d <= MAX_DEPTH + 1 && (d > MAX_DEPTH ==> level == [])
      invariant lo <= |all| && IsLevel(q, level, all[lo..], d)
      invariant Found(db, q, st, all, lo, ps, d) && Within(all, d)
      invariant Explained(db, q, lookupFails, fetchFails, st.progress)
      invariant Clear(st.progress) ==> Complete(db, q, d, ps, all[lo..])
      decreases MAX_DEPTH + 1 - d
    {
      var depth := d;
      var totals := CountLevel(db, answer, q.database, level, (b: nat) => lookupFails(depth, b));
      if totals.None? {
        if d == 1 {
          return Failed, [];
        }
        LevelSize(q, level, all[lo..], d);
        LevelIsUnverifiable(db, q, lookupFails, fetchFails, st, level, all, lo, ps, d);
        ExplainedLevel(db, q, lookupFails, fetchFails, st.progress, TablesOf(level));
        FoundAnyway(db, q, st, st.progress.unverified + TablesOf(level), all, lo, ps, d);
        st := st.(progress := st.progress.(unverified := st.progress.unverified + TablesOf(level)));
        break;
      }
      ghost var before, beforeAll, beforeSt, size := ps, all, st, |level|;
      ghost var beforeLo := lo;
      LevelSize(q, level, all[lo..], d);
      st, all, ps := SearchLevel(db, q, level, totals.value, lookupFails, fetchFails, st, d, all, lo, ps);
      lo := |beforeAll|;
      LevelDone(db, q, beforeSt, st, d, beforeLo, beforeAll, all, before, ps);
      WithinNext(q, st.next, beforeAll, all, d);
      level := st.next;
      d := d + 1;
    }
    if Clear(st.progress) {
      LevelSize(q, level, all[lo..], d);
      assert all[lo..] == [];
      CompleteEnd(db, q, d, ps);
    }
    FoundBounds(db, q, st, all, lo, ps, d);
    FoundIsReported(db, q, st, all, lo, ps, d);
    ReportIsReal(db, q, st.progress.impacts, ps);
    if Clear(st.progress) {
      ReportIsComplete(db, q, st.progress.impacts, ps);
    }
    ReportIsExplained(db, q, lookupFails, fetchFails, st.progress);
    result := Counted(Report(st.progress.impacts, st.progress.moreCascade, Dedup(st.progress.unverified)));
  }

  lemma NothingToExplain(db: Db, q: Query, lookupFails: (nat, nat) -> bool, fetchFails: Fk -> bool)
    ensures Explained(db, q, lookupFails, fetchFails, Progress([], false, []))
  {
  }

  lemma ExplainedLevel(db: Db, q: Query, lookupFails: (nat, nat) -> bool, fetchFails: Fk -> bool, p: Progress,
                       names: seq<string>)
    requires Explained(db, q, lookupFails, fetchFails, p)
    requires forall name :: name in names ==> Unverifiable(db, q, lookupFails, fetchFails, name)
    ensures Explained(db, q, lookupFails, fetchFails, p.(unverified := p.unverified + names))
  {
    hide Unverifiable, HasMore;
  }

  lemma ReportIsExplained(db: Db, q: Query, lookupFails: (nat, nat) -> bool, fetchFails: Fk -> bool, p: Progress)
    requires Explained(db, q, lookupFails, fetchFails, p)
    ensures p.moreCascade ==> HasMore(db, q)
    ensures forall name :: name in Dedup(p.unverified) ==> Unverifiable(db, q, lookupFails, fetchFails, name)
  {
    hide Unverifiable, HasMore;
  }

  lemma RootsWithin(q: Query, level: seq<Edge>, all: seq<seq<Fk>>)
    requires IsLevel(q, level, all, 1)
    ensures Within(all, 1)
  {
  }

  lemma LevelIsUnverifiable(db: Db, q: Query, lookupFails: (nat, nat) -> bool, fetchFails: Fk -> bool, st: State,
                            level: seq<Edge>, all: seq<seq<Fk>>, lo: nat, ps: seq<seq<Fk>>, d: nat)
    requires Found(db, q, st, all, lo, ps, d) && lo <= |all| && IsLevel(q, level, all[lo..], d)
    requires d > 1 && exists b :: lookupFails(d, b)
    ensures forall name :: name in TablesOf(level) ==> Unverifiable(db, q, lookupFails, fetchFails, name)
  {
    hide Queued, Reported, Once, IsPath, Reached;
    forall name | name in TablesOf(level) ensures Unverifiable(db, q, lookupFails, fetchFails, name) {
      var i :| 0 <= i < |level| && TablesOf(level)[i] == name;
      EdgeOfLevel(db, q, level, all, lo, d, i, st.visited, st.budget);
      assert name == ChildName(Last(all[lo + i]));
    }
  }

  /** What has been found when the level of depth `d`, queued from `lo` on, is next. */
  ghost predicate Found(db: Db, q: Query, st: State, all: seq<seq<Fk>>, lo: nat, ps: seq<seq<Fk>>, d: nat) {
    && lo <= |all| && Queued(db, q, all, st.visited, st.budget)
    && Reported(db, q, st.progress.impacts, ps) && Once(q, ps, all[..lo])
    && |ps| <= lo && forall x :: x in ps ==> |x| < d
  }

  lemma FoundStart(db: Db, q: Query, st: State, all: seq<seq<Fk>>)
    requires Queued(db, q, all, st.visited, st.budget) && st.progress == Progress([], false, [])
    ensures Found(db, q, st, all, 0, [], 1)
  {
    hide Queued, Reported, Once;
    assert all[..0] == [];
    NothingReported(db, q);
  }

  /** Naming more tables as unverified takes back nothing. */
  lemma FoundAnyway(db: Db, q: Query, st: State, unverified: seq<string>, all: seq<seq<Fk>>, lo: nat, ps: seq<seq<Fk>>,
                    d: nat)
    requires Found(db, q, st, all, lo, ps, d)
    ensures Found(db, q, st.(progress := st.progress.(unverified := unverified)), all, lo, ps, d)
  {
    hide Queued, Reported, Once;
  }

  lemma FoundIsReported(db: Db, q: Query, st: State, all: seq<seq<Fk>>, lo: nat, ps: seq<seq<Fk>>, d: nat)
    requires Found(db, q, st, all, lo, ps, d)
    ensures Reported(db, q, st.progress.impacts, ps)
  {
  }

  lemma NothingReported(db: Db, q: Query)
    ensures Reported(db, q, [], []) && Once(q, [], [])
  {
  }

  lemma LevelDone(db: Db, q: Query, st: State, st': State, d: nat, lo: nat, all: seq<seq<Fk>>, all': seq<seq<Fk>>,
                  ps: seq<seq<Fk>>, ps': seq<seq<Fk>>)
    requires d >= 1 && Found(db, q, st, all, lo, ps, d)
    requires LevelInv(db, q, st', d, |all| - lo, lo, all, all', Clear(st.progress), ps, ps')
    requires Clear(st.progress) ==> Complete(db, q, d, ps, all[lo..])
    ensures Found(db, q, st', all', |all|, ps', d + 1)
    ensures all <= all' && IsLevel(q, st'.next, all'[|all|..], d + 1) && (d >= MAX_DEPTH ==> st'.next == [])
    ensures Clear(st'.progress) ==> Complete(db, q, d + 1, ps', all'[|all|..])
  {
    hide Queued, IsLevel, Reported, Once, AllCovered, Complete;
    if Clear(st'.progress) {
      assert all[lo..][..|all| - lo] == all[lo..];
      CompleteStep(db, q, d, ps, all[lo..], ps', all'[|all|..]);
    }
  }

  lemma FoundBounds(db: Db, q: Query, st: State, all: seq<seq<Fk>>, lo: nat, ps: seq<seq<Fk>>, d: nat)
    requires Found(db, q, st, all, lo, ps, d) && d <= MAX_DEPTH + 1
    ensures |st.progress.impacts| <= Max(|q.refs|, MAX_EDGES)
    ensures forall p :: p in ps ==> |p| <= MAX_DEPTH
    ensures DistinctKeys(q.refs) ==> forall k, l :: 0 <= k < l < |ps| ==> ps[k] != ps[l]
    ensures DistinctKeys(q.refs) ==> DistinctImpacts(st.progress.impacts)
  {
    if DistinctKeys(q.refs) {
      forall k, l | 0 <= k < l < |ps| ensures EdgeKey(Last(ps[k])) != EdgeKey(Last(ps[l])) {
        assert ps[k] in all[..lo] && ps[l] in all[..lo];
        var i :| 0 <= i < lo && all[i] == ps[k];
        var j :| 0 <= j < lo && all[j] == ps[l];
        assert i != j;
      }
    }
  }

  /** No foreign key is reported twice. */
  ghost predicate DistinctImpacts(impacts: seq<Impact>) {
    forall k, l :: 0 <= k < l < |impacts| ==> EdgeKey(impacts[k].fk) != EdgeKey(impacts[l].fk)
  }

  /** What one impact says: its chain reaches rows, at that depth, and as many as counted when keys are unique. */
  lemma ImpactIsExact(db: Db, q: Query, impacts: seq<Impact>, ps: seq<seq<Fk>>, k: nat)
    requires Reported(db, q, impacts, ps) && k < |ps|
    ensures ps[k] != [] && impacts[k].fk == Last(ps[k]) && impacts[k].depth == |ps[k]|
    ensures impacts[k].parentName == (if |ps[k]| == 1 then q.parentTable else ChildName(ps[k][|ps[k]| - 2]))
    ensures Reached(db, q, ps[k]) != {} && impacts[k].count >= |Reached(db, q, ps[k])|
    ensures Exact(db, q, ps[k]) ==> impacts[k].count == |Reached(db, q, ps[k])|
  {
    hide Reached, CountOf, PredsOf, Exact, IsPath;
    CountIsReached(db, q, ps[k]);
  }

  lemma ReportIsReal(db: Db, q: Query, impacts: seq<Impact>, ps: seq<seq<Fk>>)
    requires Reported(db, q, impacts, ps) && forall p :: p in ps ==> |p| <= MAX_DEPTH
    ensures forall k :: 0 <= k < |impacts| ==> Real(db, q, impacts[k])
  {
    hide IsPath, Reached, Exact, CountOf;
    forall k | 0 <= k < |impacts| ensures Real(db, q, impacts[k]) {
      ImpactIsExact(db, q, impacts, ps, k);
      assert ps[k] in ps && TellsOf(db, q, impacts[k], ps[k]);
    }
  }

  lemma ReportTells(db: Db, q: Query, impacts: seq<Impact>, ps: seq<seq<Fk>>, k: nat)
    requires Reported(db, q, impacts, ps) && k < |ps|
    ensures k < |impacts| && ps[k] != [] && TellsOf(db, q, impacts[k], ps[k])
  {
    hide IsPath, Reached, Exact, CountOf;
    ImpactIsExact(db, q, impacts, ps, k);
  }

  lemma ReportIsComplete(db: Db, q: Query, impacts: seq<Impact>, ps: seq<seq<Fk>>)
    requires Reported(db, q, impacts, ps)
    requires forall p :: p != [] && IsPath(db, q, p) && Reached(db, q, p) != {} ==> p in ps
    ensures forall p :: p != [] && IsPath(db, q, p) && Reached(db, q, p) != {} ==>
              exists k :: 0 <= k < |impacts| && TellsOf(db, q, impacts[k], p)
  {
    hide IsPath, Reached, Exact, CountOf, Reported, TellsOf;
    forall p | p != [] && IsPath(db, q, p) && Reached(db, q, p) != {}
      ensures exists k :: 0 <= k < |impacts| && TellsOf(db, q, impacts[k], p)
    {
      var k :| 0 <= k < |ps| && ps[k] == p;
      ReportTells(db, q, impacts, ps, k);
    }
  }
}
