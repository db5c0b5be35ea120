/** The savepoints a transaction panel offers, and the savepoints the server really has. */
module Savepoints {
  import opened Text
  import CloneNames

  /** The offered names, oldest first. */
  type Stack = seq<string>

  /** A savepoint of the server and the state of the data it was made at. */
  datatype Point = Point(name: string, data: nat)

  /** MySQL replaces a savepoint of the same name; PostgreSQL and SQLite keep it, hidden behind the new one. */
  datatype Rules = Rules(sameNameReplaced: bool, releaseDropsLater: bool)

  /** `made` is the state of the data when a name was last made a savepoint. */
  datatype World = World(ui: Stack, server: seq<Point>, data: nat, made: map<string, nat>)

  datatype Op = Save(name: string) | RollbackTo(name: string) | Release(name: string) | Write(data: nat)

  // --- the panel ---

  function Without(s: Stack, name: string): Stack {
    if s == [] then [] else (if s[0] == name then [] else [s[0]]) + Without(s[1..], name)
  }

  function PushSavepoint(s: Stack, name: string): Stack { Without(s, name) + [name] }

  function LastIndexOf(s: Stack, name: string): (i: int)
    ensures i == -1 || (0 <= i < |s| && s[i] == name)
    ensures forall j :: i < j < |s| ==> s[j] != name
  {
    if s == [] then -1 else if s[|s| - 1] == name then |s| - 1 else LastIndexOf(s[..|s| - 1], name)
  }

  function AfterRollbackTo(s: Stack, name: string): Stack {
    var i := LastIndexOf(s, name);
    if i < 0 then s else s[..i + 1]
  }

  function AfterRelease(s: Stack, name: string): Stack {
    var i := LastIndexOf(s, name);
    if i < 0 then s else s[..i]
  }

  /** A rollback keeps the panel up to the newest entry of the name, a release what is before it; else it stays. */
  lemma PanelIsCut(s: Stack, name: string) returns (newer: Stack)
    ensures name !in s ==> AfterRollbackTo(s, name) == s && AfterRelease(s, name) == s
    ensures name in s ==>
              && s == AfterRelease(s, name) + [name] + newer && name !in newer
              && AfterRollbackTo(s, name) == AfterRelease(s, name) + [name]
  {
    hide LastIndexOf;
    var i := LastIndexOf(s, name);
    newer := s[i + 1..];
    if i >= 0 {
      assert s[..i + 1] == s[..i] + [name];
      assert s == s[..i + 1] + newer;
    }
  }

  // --- the server ---

  /** The newest savepoint of a name, the one its operations act on. */
  function Newest(server: seq<Point>, name: string): (i: int)
    ensures i == -1 || (0 <= i < |server| && server[i].name == name)
    ensures forall j :: i < j < |server| ==> server[j].name != name
  {
    if server == [] then -1
    else if server[|server| - 1].name == name then |server| - 1
    else Newest(server[..|server| - 1], name)
  }

  function Dropped(server: seq<Point>, name: string): seq<Point> {
    if server == [] then []
    else
      var last := server[|server| - 1];
      Dropped(server[..|server| - 1], name) + if last.name == name then [] else [last]
  }

  /** The server stack with a new savepoint. */
  function Saved(w: World, name: string, r: Rules): seq<Point> {
    (if r.sameNameReplaced then Dropped(w.server, name) else w.server) + [Point(name, w.data)]
  }

  /** Whether the server accepts the operation. */
  predicate Accepts(server: seq<Point>, op: Op) {
    match op
    case RollbackTo(name) => Newest(server, name) >= 0
    case Release(name) => Newest(server, name) >= 0
    case Save(_) => true
    case Write(_) => true
  }

  /** The world after an operation; one the server does not accept changes nothing. */
  function Next(w: World, op: Op, r: Rules): World {
    if !Accepts(w.server, op) then w else
    match op
    case Save(name) =>
      World(PushSavepoint(w.ui, name), Saved(w, name, r), w.data, w.made[name := w.data])
    case RollbackTo(name) =>
      var i := Newest(w.server, name);
      World(AfterRollbackTo(w.ui, name), w.server[..i + 1], w.server[i].data, w.made)
    case Release(name) =>
      var i := Newest(w.server, name);
      var left := if r.releaseDropsLater then w.server[..i] else w.server[..i] + w.server[i + 1..];
      World(AfterRelease(w.ui, name), left, w.data, w.made)
    case Write(data) => w.(data := data)
  }

  /** Rollbacks and releases are used on offered names only. */
  predicate Offered(w: World, op: Op) { (op.RollbackTo? || op.Release?) ==> op.name in w.ui }

  /** A name is on the server, its newest savepoint being the one the user last made under it. */
  predicate Tracked(w: World, name: string) {
    Newest(w.server, name) >= 0 && name in w.made && w.server[Newest(w.server, name)].data == w.made[name]
  }

  /** The offered names are distinct and stand on the server in the same order. */
  predicate Inv(w: World) {
    && (forall i :: 0 <= i < |w.ui| ==> Tracked(w, w.ui[i]))
    && (forall i, j :: 0 <= i < j < |w.ui| ==>
        w.ui[i] != w.ui[j] && Newest(w.server, w.ui[i]) < Newest(w.server, w.ui[j]))
  }

  lemma NewestIs(server: seq<Point>, name: string, i: nat)
    requires i < |server| && server[i].name == name && forall j :: i < j < |server| ==> server[j].name != name
    ensures Newest(server, name) == i
  {
  }

  lemma NewestNone(server: seq<Point>, name: string)
    requires forall j :: 0 <= j < |server| ==> server[j].name != name
    ensures Newest(server, name) == -1
  {
  }

  lemma NewestPush(server: seq<Point>, p: Point, name: string)
    ensures Newest(server + [p], name) == if p.name == name then |server| else Newest(server, name)
  {
    assert (server + [p])[..|server|] == server;
  }

  /** Dropping one name keeps the newest savepoints of the others, in their order. */
  lemma {:induction false} DroppedKeeps(server: seq<Point>, gone: string, a: string, b: string)
    requires a != gone && b != gone
    ensures var d := Dropped(server, gone);
            && (Newest(server, a) >= 0 <==> Newest(d, a) >= 0)
            && (Newest(server, a) >= 0 ==> d[Newest(d, a)] == server[Newest(server, a)])
            && (0 <= Newest(server, a) < Newest(server, b) ==> Newest(d, a) < Newest(d, b))
            && |d| <= |server|
  {
    if server != [] {
      var n := |server| - 1;
      DroppedKeeps(server[..n], gone, a, b);
      var d := Dropped(server[..n], gone);
      hide Newest;
      assert server == server[..n] + [server[n]];
      NewestPush(server[..n], server[n], a);
      NewestPush(server[..n], server[n], b);
      if server[n].name != gone {
        NewestPush(d, server[n], a);
        NewestPush(d, server[n], b);
      } else {
        assert d + [] == d;
      }
    }
  }

  lemma {:induction false} WithoutAbsent(s: Stack, name: string)
    ensures forall x :: x in Without(s, name) <==> x in s && x != name
    ensures name !in s ==> Without(s, name) == s
  {
    if s != [] {
      WithoutAbsent(s[1..], name);
      assert s == [s[0]] + s[1..];
    }
  }

  /** From a stack without repetitions one place is taken out. */
  lemma {:induction false} WithoutCut(s: Stack, name: string, k: nat)
    requires k < |s| && s[k] == name && forall i :: 0 <= i < |s| && i != k ==> s[i] != name
    ensures Without(s, name) == s[..k] + s[k + 1..]
  {
    if k == 0 {
      WithoutAbsent(s[1..], name);
      assert s[..0] + s[1..] == s[1..];
    } else {
      WithoutCut(s[1..], name, k - 1);
      assert s[..k] == [s[0]] + s[1..][..k - 1] && s[1..][k..] == s[k + 1..];
    }
  }

  /** A new savepoint stands above all others and disturbs neither their data nor their order. */
  lemma SavedKeeps(w: World, name: string, r: Rules, a: string, b: string)
    requires a != name && b != name
    ensures var s := Saved(w, name, r);
            && Newest(s, name) == |s| - 1 && s[|s| - 1] == Point(name, w.data)
            && (Newest(w.server, a) >= 0 ==> Newest(s, a) >= 0 && s[Newest(s, a)] == w.server[Newest(w.server, a)])
            && (0 <= Newest(w.server, a) < Newest(w.server, b) ==> Newest(s, a) < Newest(s, b))
            && Newest(s, a) < |s| - 1
  {
    hide Newest, Dropped;
    var base := if r.sameNameReplaced then Dropped(w.server, name) else w.server;
    DroppedKeeps(w.server, name, a, b);
    NewestPush(base, Point(name, w.data), a);
    NewestPush(base, Point(name, w.data), b);
    NewestPush(base, Point(name, w.data), name);
    NewestBelow(base, a);
  }

  lemma SaveKeepsInv(w: World, name: string, r: Rules)
    requires Inv(w)
    ensures Inv(Next(w, Save(name), r))
  {
    hide Newest, Without, Saved, Tracked, Next, Inv;
    var n := Next(w, Save(name), r);
    var others := Without(w.ui, name);
    AfterSave(w, name, r);
    WithoutAbsent(w.ui, name);
    forall i | 0 <= i < |n.ui| ensures Tracked(n, n.ui[i]) {
      if i < |others| {
        assert n.ui[i] == others[i] && others[i] in others;
        SavedTracked(w, name, r, others[i]);
      } else {
        NameTracked(w, name, r);
      }
    }
    forall i, j | 0 <= i < j < |n.ui|
      ensures n.ui[i] != n.ui[j] && Newest(n.server, n.ui[i]) < Newest(n.server, n.ui[j])
    {
      assert n.ui[i] == others[i] && others[i] in others;
      if j < |others| {
        assert n.ui[j] == others[j] && others[j] in others;
        InOrder(w, name, i, j);
        OfferedIsThere(w, others[i]);
        SavedKeeps(w, name, r, others[i], others[j]);
      } else {
        SavedKeeps(w, name, r, others[i], others[i]);
      }
    }
    InvFrom(n);
  }

  lemma InvFrom(w: World)
    requires forall i :: 0 <= i < |w.ui| ==> Tracked(w, w.ui[i])
    requires forall i, j :: 0 <= i < j < |w.ui| ==>
             w.ui[i] != w.ui[j] && Newest(w.server, w.ui[i]) < Newest(w.server, w.ui[j])
    ensures Inv(w)
  {
  }

  lemma OfferedIsThere(w: World, a: string)
    requires Inv(w) && a in w.ui
    ensures Tracked(w, a) && Newest(w.server, a) >= 0
  {
    hide Newest;
    var i :| 0 <= i < |w.ui| && w.ui[i] == a;
    assert Tracked(w, w.ui[i]);
  }

  lemma AfterSave(w: World, name: string, r: Rules)
    ensures Next(w, Save(name), r) ==
            World(Without(w.ui, name) + [name], Saved(w, name, r), w.data, w.made[name := w.data])
  {
    hide Dropped, Without;
  }

  lemma SavedTracked(w: World, name: string, r: Rules, a: string)
    requires Inv(w) && a in w.ui && a != name
    ensures Tracked(Next(w, Save(name), r), a)
  {
    hide Newest, Without, Saved, Next;
    AfterSave(w, name, r);
    OfferedIsThere(w, a);
    SavedKeeps(w, name, r, a, a);
  }

  lemma NameTracked(w: World, name: string, r: Rules)
    ensures Tracked(Next(w, Save(name), r), name)
  {
    hide Newest, Without, Saved, Next;
    AfterSave(w, name, r);
    SavedKeeps(w, name, r, name + "x", name + "x");
  }

  lemma NewestBelow(server: seq<Point>, name: string)
    ensures Newest(server, name) < |server|
  {
  }

  lemma InOrder(w: World, name: string, i: nat, j: nat)
    requires Inv(w) && i < j < |Without(w.ui, name)|
    ensures var others := Without(w.ui, name);
            others[i] != others[j] && Newest(w.server, others[i]) < Newest(w.server, others[j])
  {
    hide Newest, Without, Tracked;
    WithoutAbsent(w.ui, name);
    if k :| 0 <= k < |w.ui| && w.ui[k] == name {
      WithoutCut(w.ui, name, k);
      var i1, j1 := if i < k then i else i + 1, if j < k then j else j + 1;
      assert Without(w.ui, name)[i] == w.ui[i1] && Without(w.ui, name)[j] == w.ui[j1];
    }
  }

  /** Cutting the server stack above a position keeps the newest savepoints at or below it. */
  lemma {:induction false} NewestCut(server: seq<Point>, k: nat, name: string)
    requires k <= |server| && Newest(server, name) < k
    ensures Newest(server[..k], name) == Newest(server, name)
    decreases |server|
  {
    if k == |server| {
      assert server[..k] == server;
    } else {
      var n := |server| - 1;
      NewestCut(server[..n], k, name);
      assert server[..n][..k] == server[..k];
    }
  }

  lemma WithoutOne<T>(s: seq<T>, k: nat)
    requires k < |s|
    ensures var t := s[..k] + s[k + 1..];
            |t| == |s| - 1 && forall j :: 0 <= j < |t| ==> t[j] == s[if j < k then j else j + 1]
  {
  }

  /** Taking one savepoint out keeps the newest savepoints of other names below it. */
  lemma NewestOut(server: seq<Point>, k: nat, name: string)
    requires k < |server| && Newest(server, name) < k
    ensures Newest(server[..k] + server[k + 1..], name) == Newest(server, name)
  {
    hide Newest;
    var i := Newest(server, name);
    var s := server[..k] + server[k + 1..];
    WithoutOne(server, k);
    forall j | i < j < |s| ensures s[j].name != name {
      assert s[j] == server[if j < k then j else j + 1];
    }
    if i >= 0 {
      NewestIs(s, name, i);
    } else {
      NewestNone(s, name);
    }
  }

  lemma IndexOfOffered(w: World, name: string) returns (k: nat)
    requires Inv(w) && name in w.ui
    ensures k < |w.ui| && w.ui[k] == name && LastIndexOf(w.ui, name) == k
  {
    k :| 0 <= k < |w.ui| && w.ui[k] == name;
    var i := LastIndexOf(w.ui, name);
    assert i >= k;
  }

  lemma RollbackKeepsInv(w: World, name: string, r: Rules)
    requires Inv(w) && name in w.ui && Accepts(w.server, RollbackTo(name))
    ensures Inv(Next(w, RollbackTo(name), r)) && Next(w, RollbackTo(name), r).data == w.made[name]
  {
    hide Newest, LastIndexOf;
    var k := IndexOfOffered(w, name);
    var n := Next(w, RollbackTo(name), r);
    assert Tracked(w, w.ui[k]);
    forall i | 0 <= i <= k ensures Newest(n.server, w.ui[i]) == Newest(w.server, w.ui[i]) && Tracked(w, w.ui[i]) {
      NewestCut(w.server, Newest(w.server, name) + 1, w.ui[i]);
    }
  }

  lemma ReleaseKeepsInv(w: World, name: string, r: Rules)
    requires Inv(w) && name in w.ui && Accepts(w.server, Release(name))
    ensures Inv(Next(w, Release(name), r))
  {
    hide Newest, LastIndexOf;
    var k := IndexOfOffered(w, name);
    var n := Next(w, Release(name), r);
    forall i | 0 <= i < k ensures Newest(n.server, w.ui[i]) == Newest(w.server, w.ui[i]) && Tracked(w, w.ui[i]) {
      NewestCut(w.server, Newest(w.server, name), w.ui[i]);
      NewestOut(w.server, Newest(w.server, name), w.ui[i]);
    }
  }

  lemma StepKeepsInv(w: World, op: Op, r: Rules)
    requires Inv(w) && Offered(w, op)
    ensures Accepts(w.server, op) && Inv(Next(w, op, r))
  {
    hide Newest, LastIndexOf, Without, Dropped;
    match op {
      case Save(name) => SaveKeepsInv(w, name, r);
      case RollbackTo(name) =>
        var k := IndexOfOffered(w, name);
        assert Tracked(w, w.ui[k]);
        RollbackKeepsInv(w, name, r);
      case Release(name) =>
        var k := IndexOfOffered(w, name);
        assert Tracked(w, w.ui[k]);
        ReleaseKeepsInv(w, name, r);
      case Write(_) =>
        assert forall i :: 0 <= i < |w.ui| ==> Tracked(w, w.ui[i]) ==> Tracked(Next(w, op, r), w.ui[i]);
    }
  }

  function Run(w: World, ops: seq<Op>, r: Rules): World
    decreases |ops|
  {
    if ops == [] then w else Run(Next(w, ops[0], r), ops[1..], r)
  }

  /** Rollbacks and releases of the run use names offered at the time. */
  predicate RunOffered(w: World, ops: seq<Op>, r: Rules)
    decreases |ops|
  {
    ops == [] || (Offered(w, ops[0]) && RunOffered(Next(w, ops[0], r), ops[1..], r))
  }

  predicate RunAccepted(w: World, ops: seq<Op>, r: Rules)
    decreases |ops|
  {
    ops == [] || (Accepts(w.server, ops[0]) && RunAccepted(Next(w, ops[0], r), ops[1..], r))
  }

  /** One more operation: a run goes on where it stood, and is offered and accepted if the operation there is. */
  lemma {:induction false} RunGrows(w: World, ops: seq<Op>, op: Op, r: Rules)
    ensures Run(w, ops + [op], r) == Next(Run(w, ops, r), op, r)
    ensures RunOffered(w, ops + [op], r) <==> RunOffered(w, ops, r) && Offered(Run(w, ops, r), op)
    ensures RunAccepted(w, ops + [op], r) <==> RunAccepted(w, ops, r) && Accepts(Run(w, ops, r).server, op)
    decreases |ops|
  {
    hide Next, Offered, Accepts;
    if ops == [] {
      assert (ops + [op])[0] == op && (ops + [op])[1..] == [];
    } else {
      assert (ops + [op])[0] == ops[0] && (ops + [op])[1..] == ops[1..] + [op];
      RunGrows(Next(w, ops[0], r), ops[1..], op, r);
    }
  }

  const START := World([], [], 0, map[])

  lemma StartIsFine()
    ensures Inv(START)
  {
  }

  lemma {:induction false} RunKeepsInv(w: World, ops: seq<Op>, r: Rules)
    requires Inv(w) && RunOffered(w, ops, r)
    ensures RunAccepted(w, ops, r) && Inv(Run(w, ops, r))
    decreases |ops|
  {
    hide Inv, Next, Offered, Accepts;
    if ops != [] {
      StepKeepsInv(w, ops[0], r);
      RunKeepsInv(Next(w, ops[0], r), ops[1..], r);
    }
  }

  /**
   * On every server, from the start of a transaction, each operation offered is accepted, and the offered names stay
   * distinct and in the server's order.
   */
  lemma OfferedIsAccepted(ops: seq<Op>, r: Rules)
    requires RunOffered(START, ops, r)
    ensures RunAccepted(START, ops, r) && Inv(Run(START, ops, r))
  {
    hide Inv;
    StartIsFine();
    RunKeepsInv(START, ops, r);
  }

  // --- the panel shows all there is ---

  function Names(server: seq<Point>): (names: seq<string>)
    ensures |names| == |server| && forall i :: 0 <= i < |server| ==> names[i] == server[i].name
  {
    seq(|server|, i requires 0 <= i < |server| => server[i].name)
  }

  /** The panel lists just the server's savepoints, all of different names. */
  predicate InStep(w: World) {
    w.ui == Names(w.server) && forall i, j :: 0 <= i < j < |w.ui| ==> w.ui[i] != w.ui[j]
  }

  /** No name is made a savepoint twice, and none that is one already. */
  predicate SavesNew(w: World, ops: seq<Op>) {
    && (forall i :: 0 <= i < |ops| && ops[i].Save? ==> ops[i].name !in w.ui)
    && (forall i, j :: 0 <= i < j < |ops| && ops[i].Save? && ops[j].Save? ==> ops[i].name != ops[j].name)
  }

  lemma {:induction false} NothingDropped(server: seq<Point>, name: string)
    requires forall i :: 0 <= i < |server| ==> server[i].name != name
    ensures Dropped(server, name) == server
  {
    if server != [] {
      NothingDropped(server[..|server| - 1], name);
    }
  }

  lemma {:induction false} NothingWithout(ui: Stack, name: string)
    requires name !in ui
    ensures Without(ui, name) == ui
  {
    if ui != [] {
      NothingWithout(ui[1..], name);
    }
  }

  lemma SavedNew(w: World, name: string, r: Rules)
    requires InStep(w) && name !in w.ui
    ensures var n := Next(w, Save(name), r);
            n.ui == w.ui + [name] && n.server == w.server + [Point(name, w.data)]
  {
    forall i | 0 <= i < |w.server| ensures w.server[i].name != name {
      assert Names(w.server)[i] in w.ui;
    }
    NothingDropped(w.server, name);
    NothingWithout(w.ui, name);
    hide Without, Dropped, InStep, Names;
  }

  lemma NamesPush(server: seq<Point>, p: Point)
    ensures Names(server + [p]) == Names(server) + [p.name]
  {
  }

  lemma DistinctPush(ui: Stack, name: string)
    requires name !in ui && forall i, j :: 0 <= i < j < |ui| ==> ui[i] != ui[j]
    ensures forall i, j :: 0 <= i < j < |ui + [name]| ==> (ui + [name])[i] != (ui + [name])[j]
  {
  }

  lemma SaveKeepsInStep(w: World, name: string, r: Rules)
    requires InStep(w) && name !in w.ui
    ensures InStep(Next(w, Save(name), r)) && Next(w, Save(name), r).ui == w.ui + [name]
  {
    SavedNew(w, name, r);
    hide Next, Names;
    NamesPush(w.server, Point(name, w.data));
    DistinctPush(w.ui, name);
  }

  lemma CutKeepsInStep(w: World, server: seq<Point>, n: nat)
    requires InStep(w) && n <= |w.ui| && server == w.server[..n]
    ensures w.ui[..n] == Names(server)
  {
  }

  /** On the panel and on the server a name stands at one place. */
  lemma SamePlace(w: World, name: string) returns (k: nat)
    requires InStep(w) && name in w.ui
    ensures k < |w.ui| == |w.server| && LastIndexOf(w.ui, name) == k && Newest(w.server, name) == k
  {
    k :| 0 <= k < |w.ui| && w.ui[k] == name;
    NewestIs(w.server, name, k);
    hide Newest, LastIndexOf;
    assert LastIndexOf(w.ui, name) == k;
  }

  lemma StepKeepsInStep(w: World, op: Op, r: Rules)
    requires InStep(w) && r.releaseDropsLater && Offered(w, op) && (op.Save? ==> op.name !in w.ui)
    ensures InStep(Next(w, op, r))
    ensures forall name :: name in Next(w, op, r).ui ==> name in w.ui || (op.Save? && name == op.name)
  {
    if op.Save? {
      SaveKeepsInStep(w, op.name, r);
      hide Next;
    } else if !op.Write? {
      var k := SamePlace(w, op.name);
      hide Newest, LastIndexOf, Names;
      var n := if op.RollbackTo? then k + 1 else k;
      CutKeepsInStep(w, w.server[..n], n);
      assert Next(w, op, r).ui == w.ui[..n] && Next(w, op, r).server == w.server[..n];
    }
  }

  lemma {:induction false} RunKeepsInStep(w: World, ops: seq<Op>, r: Rules)
    requires InStep(w) && r.releaseDropsLater && RunOffered(w, ops, r) && SavesNew(w, ops)
    ensures InStep(Run(w, ops, r))
    decreases |ops|
  {
    hide InStep, Next, Offered;
    if ops != [] {
      StepKeepsInStep(w, ops[0], r);
      RunKeepsInStep(Next(w, ops[0], r), ops[1..], r);
    }
  }

  /**
   * With generated names, on a server where a release drops what is newer, the panel lists exactly the savepoints the
   * server has, in its order, after every run from the start of a transaction.
   */
  lemma PanelIsServer(ops: seq<Op>, r: Rules)
    requires r.releaseDropsLater && RunOffered(START, ops, r) && SavesNew(START, ops)
    ensures Run(START, ops, r).ui == Names(Run(START, ops, r).server)
  {
    RunKeepsInStep(START, ops, r);
  }

  /** Where a release keeps what is newer, every other savepoint of the server stays as it was. */
  lemma ReleaseKeepsOthers(w: World, name: string, r: Rules, i: nat)
    requires !r.releaseDropsLater && Accepts(w.server, Release(name))
    requires i < |w.server| && i != Newest(w.server, name)
    ensures var k, n := Newest(w.server, name), Next(w, Release(name), r);
            |n.server| == |w.server| - 1 && n.server[if i < k then i else i - 1] == w.server[i]
  {
    hide Newest, AfterRelease;
  }

  /** Where a new savepoint takes the place of the old one, the old one is gone and no other. */
  lemma {:induction false} DroppedIsGone(server: seq<Point>, name: string)
    ensures multiset(server) == multiset(Dropped(server, name)) + multiset(OfName(server, name))
    ensures forall p :: p in Dropped(server, name) ==> p.name != name
    ensures forall p :: p in OfName(server, name) ==> p.name == name
  {
    if server != [] {
      var n := |server| - 1;
      assert server == server[..n] + [server[n]];
      DroppedIsGone(server[..n], name);
    }
  }

  /** The savepoints of a name. */
  function OfName(server: seq<Point>, name: string): seq<Point> {
    if server == [] then []
    else
      var last := server[|server| - 1];
      OfName(server[..|server| - 1], name) + if last.name == name then [last] else []
  }

  // --- the names ---

  /** The generated names `sp_1`, `sp_2` and so on; the counter only grows while a transaction lasts. */
  function SavepointName(counter: nat): string { "sp_" + CloneNames.Decimal(counter) }

  /** Generated names differ even for a server that compares names without case. */
  lemma GeneratedNamesDiffer(m: nat, n: nat)
    ensures Lower(SavepointName(m)) == Lower(SavepointName(n)) <==> m == n
  {
    hide CloneNames.Decimal, CloneNames.DecimalValue;
    CloneNames.DecimalReadsBack(m);
    CloneNames.DecimalReadsBack(n);
    LowerName(m);
    LowerName(n);
    assert SavepointName(m)[3..] == CloneNames.Decimal(m) && SavepointName(n)[3..] == CloneNames.Decimal(n);
  }

  lemma LowerName(n: nat)
    ensures Lower(SavepointName(n)) == SavepointName(n)
  {
    hide CloneNames.Decimal;
    CloneNames.DecimalReadsBack(n);
    var name := SavepointName(n);
    assert forall k :: 3 <= k < |name| ==> name[k] == CloneNames.Decimal(n)[k - 3];
  }
}
