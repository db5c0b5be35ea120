/** Gathering bursts of DDL per key: one live timer each, one flush a burst, never later than the deadline. */
module DdlCoalescer {
  import opened Common
  import opened Text

  const MAX_STATEMENTS: nat := 20

  /** `statements` are the ones kept; `burst`, every statement pushed since the last flush, and `lastAt` are history. */
  datatype Entry = Entry(statements: seq<string>, firstAt: int, timer: nat, burst: seq<string>, lastAt: int)

  datatype Timer = Timer(key: string, due: int)

  datatype Flush = Flush(key: string, sql: Option<string>, statements: seq<string>, burst: seq<string>, firstAt: int,
                         lastAt: int, at: int)

  /** `timers` are the timers that can still go off, by handle. */
  datatype State = State(pending: map<string, Entry>, timers: map<nat, Timer>, next: nat, flushed: seq<Flush>)

  datatype Limits = Limits(quietMs: nat, maxWaitMs: nat)

  function Take<T>(s: seq<T>, n: nat): seq<T> { if |s| <= n then s else s[..n] }

  // --- the text a flush hands over ---

  /** The statements that are not blank, trimmed. */
  function NonBlank(statements: seq<string>): seq<string> {
    if statements == [] then []
    else
      var n := |statements| - 1;
      NonBlank(statements[..n]) + if Trim(statements[n]) == "" then [] else [Trim(statements[n])]
  }

  function Terminated(s: string): string { if s != "" && s[|s| - 1] == ';' then s else s + ";" }

  function JoinLines(s: seq<string>): string {
    if s == [] then ""
    else if |s| == 1 then Terminated(s[0])
    else JoinLines(s[..|s| - 1]) + "\n" + Terminated(s[|s| - 1])
  }

  function JoinTriggerSql(statements: seq<string>): Option<string> {
    var kept := Take(NonBlank(statements), MAX_STATEMENTS);
    if kept == [] then None else Some(JoinLines(kept))
  }

  // --- what each operation does ---

  function Wait(l: Limits, firstAt: int, now: int): int { Max(0, Min(l.quietMs, firstAt + l.maxWaitMs - now)) }

  function Cleared(s: State, key: string): map<nat, Timer> {
    if key in s.pending then s.timers - {s.pending[key].timer} else s.timers
  }

  function NewEntry(s: State, key: string, sql: string, now: int): Entry {
    var e := if key in s.pending then s.pending[key] else Entry([], now, 0, [], now);
    var kept := if |e.statements| < MAX_STATEMENTS then e.statements + [sql] else e.statements;
    Entry(kept, e.firstAt, s.next, e.burst + [sql], now)
  }

  function Pushed(s: State, key: string, sql: string, l: Limits, now: int): State {
    var e := NewEntry(s, key, sql, now);
    var timers := Cleared(s, key)[s.next := Timer(key, now + Wait(l, e.firstAt, now))];
    State(s.pending[key := e], timers, s.next + 1, s.flushed)
  }

  function Flushed(s: State, key: string, now: int): State {
    if key !in s.pending then s
    else
      var e := s.pending[key];
      State(s.pending - {key}, s.timers - {e.timer}, s.next,
            s.flushed + [Flush(key, JoinTriggerSql(e.statements), e.statements, e.burst, e.firstAt, e.lastAt, now)])
  }

  /** A timer goes off: it is spent, and its key is flushed. */
  function Fired(s: State, handle: nat, now: int): State
    requires handle in s.timers
  {
    Flushed(s.(timers := s.timers - {handle}), s.timers[handle].key, now)
  }

  function Disposed(s: State): State {
    s.(pending := map[], timers := s.timers - (set k | k in s.pending :: s.pending[k].timer))
  }

  class Coalescer {
    const limits: Limits
    var pending: map<string, Entry>
    /** The timers handed to the environment and not cleared or gone off. */
    var timers: map<nat, Timer>
    var next: nat
    var flushed: seq<Flush>

    ghost function Now(): State
      reads this
    {
      State(pending, timers, next, flushed)
    }

    constructor (limits: Limits)
      ensures Now() == EMPTY && this.limits == limits
    {
      this.limits := limits;
      pending, timers, next, flushed := map[], map[], 0, [];
    }

    method ClearTimer(handle: nat)
      modifies `timers
      ensures timers == old(timers) - {handle}
    {
      timers := timers - {handle};
    }

    method SetTimer(key: string, due: int) returns (handle: nat)
      modifies `timers, `next
      ensures handle == old(next) && next == old(next) + 1 && timers == old(timers)[handle := Timer(key, due)]
    {
      handle := next;
      timers := timers[handle := Timer(key, due)];
      next := next + 1;
    }

    method FlushKey(key: string, now: int)
      modifies `pending, `timers, `flushed
      ensures Now() == Flushed(old(Now()), key, now)
    {
      if key !in pending {
        return;
      }
      var entry := pending[key];
      pending := pending - {key};
      ClearTimer(entry.timer);
      flushed := flushed +
        [Flush(key, JoinTriggerSql(entry.statements), entry.statements, entry.burst, entry.firstAt, entry.lastAt, now)];
    }

    method Push(key: string, sql: string, now: int)
      modifies this
      ensures Now() == Pushed(old(Now()), key, sql, limits, now)
    {
      var firstAt, statements, burst := now, [], [];
      if key in pending {
        ClearTimer(pending[key].timer);
        firstAt, statements, burst := pending[key].firstAt, pending[key].statements, pending[key].burst;
      }
      if |statements| < MAX_STATEMENTS {
        statements := statements + [sql];
      }
      var wait := Max(0, Min(limits.quietMs, firstAt + limits.maxWaitMs - now));
      var handle := SetTimer(key, now + wait);
      pending := pending[key := Entry(statements, firstAt, handle, burst + [sql], now)];
    }

    method Fire(handle: nat, now: int)
      requires handle in timers
      modifies this
      ensures Now() == Fired(old(Now()), handle, now)
    {
      var key := timers[handle].key;
      ClearTimer(handle);
      FlushKey(key, now);
    }

    method Dispose()
      modifies this
      ensures Now() == Disposed(old(Now()))
    {
      timers := timers - (set k | k in pending :: pending[k].timer);
      pending := map[];
    }
  }

  const EMPTY := State(map[], map[], 0, [])

  // --- timed runs ---

  datatype Event = Push(key: string, sql: string) | Fire(handle: nat) | Pass(ms: nat) | Dispose

  datatype World = World(s: State, now: int)

  /** Timers are on time: none goes off early, and time does not pass one that is due. */
  ghost predicate Enabled(w: World, e: Event) {
    match e
    case Push(_, _) => true
    case Fire(handle) => handle in w.s.timers && w.now >= w.s.timers[handle].due
    case Pass(ms) => forall h :: h in w.s.timers ==> w.now + ms <= w.s.timers[h].due
    case Dispose => true
  }

  function Next(w: World, e: Event, l: Limits): World {
    match e
    case Push(key, sql) => w.(s := Pushed(w.s, key, sql, l, w.now))
    case Fire(handle) => if handle in w.s.timers then w.(s := Fired(w.s, handle, w.now)) else w
    case Pass(ms) => w.(now := w.now + ms)
    case Dispose => w.(s := Disposed(w.s))
  }

  /** Live timers and pending keys belong together one to one. */
  ghost predicate OneTimerEach(s: State) {
    && (forall k :: k in s.pending ==> s.pending[k].timer in s.timers && s.timers[s.pending[k].timer].key == k)
    && (forall h :: h in s.timers ==>
        h < s.next && s.timers[h].key in s.pending && s.pending[s.timers[h].key].timer == h)
  }

  /** When a burst is due: once it was quiet for long enough, or at its deadline. */
  function DueAt(firstAt: int, lastAt: int, l: Limits): int { Min(lastAt + l.quietMs, firstAt + l.maxWaitMs) }

  /** A pending burst is not empty, keeps its first statements, and its timer is set for when it is due. */
  ghost predicate EntryInv(s: State, l: Limits, now: int, k: string)
    requires k in s.pending
  {
    var e := s.pending[k];
    && e.burst != [] && e.statements == Take(e.burst, MAX_STATEMENTS) && e.firstAt <= e.lastAt <= now
    && (e.timer in s.timers ==> now <= s.timers[e.timer].due == DueAt(e.firstAt, e.lastAt, l))
  }

  /** A flush hands over the first statements of its burst, at the time the burst was due. */
  predicate FlushInv(f: Flush, l: Limits) {
    && f.burst != [] && f.statements == Take(f.burst, MAX_STATEMENTS) && f.sql == JoinTriggerSql(f.statements)
    && f.firstAt <= f.lastAt && f.at == DueAt(f.firstAt, f.lastAt, l)
  }

  ghost predicate Inv(w: World, l: Limits) {
    && OneTimerEach(w.s)
    && (forall k :: k in w.s.pending ==> EntryInv(w.s, l, w.now, k))
    && (forall i :: 0 <= i < |w.s.flushed| ==> FlushInv(w.s.flushed[i], l))
  }

  lemma PushKeepsTimers(s: State, key: string, sql: string, l: Limits, now: int)
    requires OneTimerEach(s)
    ensures OneTimerEach(Pushed(s, key, sql, l, now))
  {
    hide NewEntry, Wait;
    assert NewEntry(s, key, sql, now).timer == s.next by { NewEntryTimer(s, key, sql, now); }
  }

  lemma NewEntryTimer(s: State, key: string, sql: string, now: int)
    ensures NewEntry(s, key, sql, now).timer == s.next
  {
  }

  lemma PushedEntry(w: World, key: string, sql: string, l: Limits)
    requires OneTimerEach(w.s) && (key in w.s.pending ==> EntryInv(w.s, l, w.now, key))
    ensures EntryInv(Pushed(w.s, key, sql, l, w.now), l, w.now, key)
  {
  }

  lemma PushKeepsEntry(w: World, key: string, sql: string, l: Limits, k: string)
    requires OneTimerEach(w.s) && k in w.s.pending && k != key && EntryInv(w.s, l, w.now, k)
    ensures EntryInv(Pushed(w.s, key, sql, l, w.now), l, w.now, k)
  {
    hide NewEntry, Wait, Take, DueAt;
  }

  lemma PushKeepsInv(w: World, key: string, sql: string, l: Limits)
    requires Inv(w, l)
    ensures Inv(Next(w, Push(key, sql), l), l)
  {
    hide OneTimerEach, EntryInv, FlushInv, NewEntry, Cleared;
    PushKeepsTimers(w.s, key, sql, l, w.now);
    PushedEntry(w, key, sql, l);
    forall k | k in w.s.pending && k != key ensures EntryInv(Pushed(w.s, key, sql, l, w.now), l, w.now, k) {
      PushKeepsEntry(w, key, sql, l, k);
    }
  }

  lemma FireKeepsInv(w: World, handle: nat, l: Limits)
    requires Inv(w, l) && Enabled(w, Fire(handle))
    ensures Inv(Next(w, Fire(handle), l), l)
  {
    hide JoinTriggerSql;
    var n := Next(w, Fire(handle), l);
    var key := w.s.timers[handle].key;
    assert EntryInv(w.s, l, w.now, key);
    forall k | k in n.s.pending ensures EntryInv(n.s, l, n.now, k) {
      assert EntryInv(w.s, l, w.now, k);
    }
  }

  /** A timer that goes off flushes its key's burst, once, and nothing else. */
  lemma FireFlushes(w: World, handle: nat, l: Limits)
    requires Inv(w, l) && Enabled(w, Fire(handle))
    ensures var n, key := Next(w, Fire(handle), l), w.s.timers[handle].key;
            && key in w.s.pending && n.s.pending == w.s.pending - {key}
            && |n.s.flushed| == |w.s.flushed| + 1 && n.s.flushed[..|w.s.flushed|] == w.s.flushed
            && var f := n.s.flushed[|w.s.flushed|];
            && f.key == key && f.burst == w.s.pending[key].burst && f.at == w.now
            && f.sql == JoinTriggerSql(Take(f.burst, MAX_STATEMENTS))
  {
    hide JoinTriggerSql;
    assert EntryInv(w.s, l, w.now, w.s.timers[handle].key);
  }

  lemma PassKeepsInv(w: World, ms: nat, l: Limits)
    requires Inv(w, l) && Enabled(w, Pass(ms))
    ensures Inv(Next(w, Pass(ms), l), l)
  {
    forall k | k in w.s.pending ensures EntryInv(w.s, l, w.now + ms, k) {
      assert EntryInv(w.s, l, w.now, k);
    }
  }

  /** Disposing leaves no timer behind and forgets every burst without a flush. */
  lemma DisposeStopsAll(w: World, l: Limits)
    requires Inv(w, l)
    ensures Disposed(w.s).timers == map[] && Disposed(w.s).pending == map[] && Disposed(w.s).flushed == w.s.flushed
    ensures Inv(Next(w, Dispose, l), l)
  {
    hide EntryInv, FlushInv;
    forall h | h in w.s.timers ensures h in (set k | k in w.s.pending :: w.s.pending[k].timer) {
      assert w.s.timers[h].key in w.s.pending;
    }
  }

  lemma StepKeepsInv(w: World, e: Event, l: Limits)
    requires Inv(w, l) && Enabled(w, e)
    ensures Inv(Next(w, e, l), l)
  {
    hide Inv, Enabled, Next;
    match e {
      case Push(key, sql) => PushKeepsInv(w, key, sql, l);
      case Fire(handle) => FireKeepsInv(w, handle, l);
      case Pass(ms) => PassKeepsInv(w, ms, l);
      case Dispose => DisposeStopsAll(w, l);
    }
  }

  predicate IsPush(e: Event, key: string) { e.Push? && e.key == key }

  /** Every statement of a run pushed for a key, in order. */
  function PushedFor(events: seq<Event>, key: string): seq<string> {
    if events == [] then []
    else
      var last := events[|events| - 1];
      PushedFor(events[..|events| - 1], key) + if IsPush(last, key) then [last.sql] else []
  }

  /** The bursts flushed for a key, one after the other. */
  function FlushedFor(flushed: seq<Flush>, key: string): seq<string> {
    if flushed == [] then []
    else
      var last := flushed[|flushed| - 1];
      FlushedFor(flushed[..|flushed| - 1], key) + if last.key == key then last.burst else []
  }

  function PendingFor(s: State, key: string): seq<string> { if key in s.pending then s.pending[key].burst else [] }

  ghost predicate IsRun(w: World, events: seq<Event>, l: Limits)
    decreases |events|
  {
    events == [] ||
    (IsRun(w, events[..|events| - 1], l) && Enabled(Run(w, events[..|events| - 1], l), events[|events| - 1]))
  }

  function Run(w: World, events: seq<Event>, l: Limits): World
    decreases |events|
  {
    if events == [] then w else Next(Run(w, events[..|events| - 1], l), events[|events| - 1], l)
  }

  lemma FlushedPush(flushed: seq<Flush>, f: Flush, key: string)
    ensures FlushedFor(flushed + [f], key) ==
            if f.key == key then FlushedFor(flushed, key) + f.burst else FlushedFor(flushed, key)
  {
    assert (flushed + [f])[..|flushed|] == flushed;
  }

  /**
   * A step moves statements from the push to the pending burst, and from there to a flush; a dispose drops the burst.
   */
  lemma StepDelivers(w: World, e: Event, l: Limits, key: string)
    requires Inv(w, l) && Enabled(w, e)
    ensures var n := Next(w, e, l);
            if e.Dispose? then
              FlushedFor(n.s.flushed, key) == FlushedFor(w.s.flushed, key) && PendingFor(n.s, key) == []
            else
              FlushedFor(n.s.flushed, key) + PendingFor(n.s, key) ==
              FlushedFor(w.s.flushed, key) + PendingFor(w.s, key) + if IsPush(e, key) then [e.sql] else []
  {
    hide FlushedFor, Fired, Pushed, EntryInv, FlushInv, OneTimerEach;
    match e {
      case Push(k, sql) =>
        PushDelivers(w.s, k, sql, l, w.now, key);
        assert FlushedFor(w.s.flushed, key) + PendingFor(w.s, key) + [sql] ==
               FlushedFor(w.s.flushed, key) + (PendingFor(w.s, key) + [sql]);
      case Fire(handle) => FireDelivers(w.s, handle, w.now, key);
      case Pass(_) =>
      case Dispose =>
    }
  }

  lemma PushDelivers(s: State, k: string, sql: string, l: Limits, now: int, key: string)
    ensures Pushed(s, k, sql, l, now).flushed == s.flushed
    ensures PendingFor(Pushed(s, k, sql, l, now), key) == PendingFor(s, key) + if k == key then [sql] else []
  {
    hide Wait, Cleared;
  }

  lemma FireDelivers(s: State, handle: nat, now: int, key: string)
    requires OneTimerEach(s) && handle in s.timers
    ensures var n := Fired(s, handle, now);
            FlushedFor(n.flushed, key) + PendingFor(n, key) == FlushedFor(s.flushed, key) + PendingFor(s, key)
  {
    hide JoinTriggerSql, FlushedFor;
    var k := s.timers[handle].key;
    var b := s.pending[k];
    var f := Flush(k, JoinTriggerSql(b.statements), b.statements, b.burst, b.firstAt, b.lastAt, now);
    FlushedPush(s.flushed, f, key);
    assert Fired(s, handle, now).flushed == s.flushed + [f];
  }

  lemma {:induction false} RunKeepsInv(w: World, events: seq<Event>, l: Limits)
    requires Inv(w, l) && IsRun(w, events, l)
    ensures Inv(Run(w, events, l), l)
    decreases |events|
  {
    hide Inv, Next, Enabled;
    if events != [] {
      var n := |events| - 1;
      RunKeepsInv(w, events[..n], l);
      StepKeepsInv(Run(w, events[..n], l), events[n], l);
    }
  }

  lemma {:induction false} RunOfTwo(w: World, before: seq<Event>, after: seq<Event>, l: Limits)
    ensures Run(w, before + after, l) == Run(Run(w, before, l), after, l)
    ensures IsRun(w, before + after, l) <==> IsRun(w, before, l) && IsRun(Run(w, before, l), after, l)
    decreases |after|
  {
    hide Next, Enabled;
    if after == [] {
      assert before + after == before;
    } else {
      var n := |after| - 1;
      RunOfTwo(w, before, after[..n], l);
      assert (before + after)[..|before| + n] == before + after[..n];
    }
  }

  predicate NoDispose(events: seq<Event>) { forall i :: 0 <= i < |events| ==> !events[i].Dispose? }

  /** Until the next dispose, statements flushed and pending grow by the statements pushed, in order. */
  lemma {:induction false} RunDelivers(w: World, events: seq<Event>, l: Limits, key: string)
    requires Inv(w, l) && IsRun(w, events, l) && NoDispose(events)
    ensures var n := Run(w, events, l);
            FlushedFor(n.s.flushed, key) + PendingFor(n.s, key) ==
            FlushedFor(w.s.flushed, key) + PendingFor(w.s, key) + PushedFor(events, key)
    decreases |events|
  {
    hide Inv, Next, Enabled, PendingFor, FlushedFor;
    if events != [] {
      var n := |events| - 1;
      RunKeepsInv(w, events[..n], l);
      RunDelivers(w, events[..n], l, key);
      StepDelivers(Run(w, events[..n], l), events[n], l, key);
    }
  }

  lemma EmptyIsFine(start: int, l: Limits)
    ensures Inv(World(EMPTY, start), l)
  {
  }

  /**
   * Every timed run, disposes included: each key has at most one live timer, and one exactly while it is pending; each
   * flush comes when its burst was due, with its first statements in order; and since the start, or the last dispose,
   * the bursts flushed followed by the pending one are the statements pushed for the key, so every burst is flushed
   * once and time does not pass its deadline without it.
   */
  lemma EveryRunCoalesces(start: int, before: seq<Event>, after: seq<Event>, l: Limits, key: string)
    requires IsRun(World(EMPTY, start), before + after, l) && NoDispose(after)
    requires before == [] || before[|before| - 1].Dispose?
    ensures var b, w := Run(World(EMPTY, start), before, l), Run(World(EMPTY, start), before + after, l);
            && Inv(w, l)
            && FlushedFor(w.s.flushed, key) + PendingFor(w.s, key) ==
               FlushedFor(b.s.flushed, key) + PushedFor(after, key)
            && (forall g, h :: g in w.s.timers && h in w.s.timers && w.s.timers[g].key == w.s.timers[h].key ==> g == h)
            && (key in w.s.pending ==> w.now <= w.s.pending[key].firstAt + l.maxWaitMs)
  {
    hide EntryInv, FlushInv, Next, Enabled, IsRun, Run, FlushedFor;
    var first := World(EMPTY, start);
    EmptyIsFine(start, l);
    RunOfTwo(first, before, after, l);
    RunKeepsInv(first, before, l);
    NothingIsPending(first, before, l, key);
    var b := Run(first, before, l);
    RunKeepsInv(b, after, l);
    RunDelivers(b, after, l, key);
    NotPastDeadline(Run(b, after, l), l, key);
    assert FlushedFor(b.s.flushed, key) + [] == FlushedFor(b.s.flushed, key);
  }

  lemma NothingIsPending(w: World, before: seq<Event>, l: Limits, key: string)
    requires w.s.pending == map[] && (before == [] || before[|before| - 1].Dispose?)
    ensures PendingFor(Run(w, before, l).s, key) == []
  {
  }

  /** Once disposed, nothing is flushed any more, and no timer is set, until something is pushed. */
  lemma {:induction false} NothingAfterDispose(start: int, before: seq<Event>, after: seq<Event>, l: Limits)
    requires IsRun(World(EMPTY, start), before + [Dispose] + after, l)
    requires forall i :: 0 <= i < |after| ==> !after[i].Push?
    ensures var w := Run(World(EMPTY, start), before + [Dispose] + after, l);
            w.s.flushed == Run(World(EMPTY, start), before, l).s.flushed && w.s.timers == map[] && w.s.pending == map[]
    decreases |after|
  {
    hide Next, Enabled, IsRun, Inv;
    var first, all := World(EMPTY, start), before + [Dispose] + after;
    if after == [] {
      assert all == before + [Dispose] && all[..|before|] == before;
      RunOfTwo(first, before, [Dispose], l);
      EmptyIsFine(start, l);
      RunKeepsInv(first, before, l);
      DisposeStopsAll(Run(first, before, l), l);
      DisposeStep(Run(first, before, l), l);
    } else {
      var n := |after| - 1;
      assert all[..|all| - 1] == before + [Dispose] + after[..n];
      RunOfTwo(first, before + [Dispose] + after[..n], [after[n]], l);
      assert all == before + [Dispose] + after[..n] + [after[n]];
      NothingAfterDispose(start, before, after[..n], l);
      IdleStep(Run(first, before + [Dispose] + after[..n], l), after[n], l);
    }
  }

  lemma DisposeStep(w: World, l: Limits)
    ensures Next(w, Dispose, l).s == Disposed(w.s)
  {
  }

  lemma IdleStep(w: World, e: Event, l: Limits)
    requires w.s.timers == map[] && w.s.pending == map[] && !e.Push?
    ensures var s := Next(w, e, l).s; s.timers == map[] && s.pending == map[] && s.flushed == w.s.flushed
  {
  }

  lemma NotPastDeadline(w: World, l: Limits, key: string)
    requires Inv(w, l)
    ensures key in w.s.pending ==> w.now <= w.s.pending[key].firstAt + l.maxWaitMs
  {
    if key in w.s.pending {
      assert EntryInv(w.s, l, w.now, key);
    }
  }

  /** A flush has no text exactly when all its statements are blank. */
  lemma NoTextIfBlank(statements: seq<string>)
    ensures JoinTriggerSql(statements).None? <==> forall i :: 0 <= i < |statements| ==> Trim(statements[i]) == ""
  {
    hide Trim, NonBlank, JoinLines;
    NoneKeptIfBlank(statements);
  }

  lemma {:induction false} NoneKeptIfBlank(statements: seq<string>)
    ensures NonBlank(statements) == [] <==> forall i :: 0 <= i < |statements| ==> Trim(statements[i]) == ""
  {
    hide Trim;
    if statements != [] {
      var n := |statements| - 1;
      NoneKeptIfBlank(statements[..n]);
      assert forall i :: 0 <= i < n ==> statements[..n][i] == statements[i];
    }
  }

  /** Lines put under each other. */
  function Lines(lines: seq<string>): string
    requires lines != []
  {
    if |lines| == 1 then lines[0] else lines[0] + "\n" + Lines(lines[1..])
  }

  /** A statement as it is handed over: trimmed, and ended by `;` if it was not. */
  predicate IsLine(line: string, statement: string) {
    var t := Trim(statement);
    if [';'] <= t[if t == "" then 0 else |t| - 1..] then line == t else line == t + ";"
  }

  /** The first statements that are not blank, at most `MAX_STATEMENTS`, by their places. */
  ghost predicate FirstKept(statements: seq<string>, at: seq<nat>) {
    && |at| <= MAX_STATEMENTS
    && (forall i :: 0 <= i < |at| ==> at[i] < |statements| && Trim(statements[at[i]]) != "")
    && (forall i, j :: 0 <= i < j < |at| ==> at[i] < at[j])
    && forall k :: 0 <= k < |statements| && Trim(statements[k]) != "" && k !in at ==>
         |at| == MAX_STATEMENTS && at[|at| - 1] < k
  }

  /** All statements that are not blank, by their places. */
  lemma {:induction false} KeptPlaces(statements: seq<string>) returns (at: seq<nat>)
    ensures |at| == |NonBlank(statements)|
    ensures forall i :: 0 <= i < |at| ==>
              at[i] < |statements| && Trim(statements[at[i]]) != "" &&
              NonBlank(statements)[i] == Trim(statements[at[i]])
    ensures forall i, j :: 0 <= i < j < |at| ==> at[i] < at[j]
    ensures forall k :: 0 <= k < |statements| && Trim(statements[k]) != "" ==> k in at
  {
    hide Trim;
    at := [];
    if statements != [] {
      var n := |statements| - 1;
      at := KeptPlaces(statements[..n]);
      if Trim(statements[n]) != "" {
        at := at + [n];
      }
    }
  }

  lemma {:induction false} LinesPush(lines: seq<string>, line: string)
    requires lines != []
    ensures Lines(lines + [line]) == Lines(lines) + "\n" + line
  {
    if |lines| == 1 {
      assert (lines + [line])[1..] == [line];
    } else {
      assert (lines + [line])[1..] == lines[1..] + [line];
      LinesPush(lines[1..], line);
      assert lines[0] + "\n" + (Lines(lines[1..]) + "\n" + line) == lines[0] + "\n" + Lines(lines[1..]) + "\n" + line;
    }
  }

  lemma {:induction false} JoinedIsLines(kept: seq<string>)
    requires kept != []
    ensures JoinLines(kept) == Lines(seq(|kept|, i requires 0 <= i < |kept| => Terminated(kept[i])))
  {
    hide Terminated;
    var lines := seq(|kept|, i requires 0 <= i < |kept| => Terminated(kept[i]));
    if |kept| > 1 {
      var n := |kept| - 1;
      JoinedIsLines(kept[..n]);
      var before := seq(n, i requires 0 <= i < n => Terminated(kept[..n][i]));
      assert lines == before + [Terminated(kept[n])];
      LinesPush(before, Terminated(kept[n]));
    }
  }

  /**
   * The text handed over with a flush: the first twenty statements that are not blank, in order, a line each, trimmed
   * and each ended by `;`; none if all are blank.
   */
  lemma TextIsTold(statements: seq<string>) returns (at: seq<nat>, lines: seq<string>)
    ensures FirstKept(statements, at) && |lines| == |at|
    ensures forall i :: 0 <= i < |at| ==> IsLine(lines[i], statements[at[i]])
    ensures JoinTriggerSql(statements) == if at == [] then None else Some(Lines(lines))
  {
    hide Trim;
    var all := KeptPlaces(statements);
    var kept := Take(NonBlank(statements), MAX_STATEMENTS);
    at := Take(all, MAX_STATEMENTS);
    TakeKeeps(statements, all);
    lines := seq(|kept|, i requires 0 <= i < |kept| => Terminated(kept[i]));
    forall i | 0 <= i < |at| ensures IsLine(lines[i], statements[at[i]]) {
      LineIsTold(kept[i], statements[at[i]]);
    }
    if kept != [] {
      JoinedIsLines(kept);
    }
  }

  lemma LineIsTold(t: string, statement: string)
    requires t == Trim(statement) && t != ""
    ensures IsLine(Terminated(t), statement)
  {
    hide Trim;
  }

  lemma TakeKeeps(statements: seq<string>, all: seq<nat>)
    requires forall i :: 0 <= i < |all| ==> all[i] < |statements| && Trim(statements[all[i]]) != ""
    requires forall i, j :: 0 <= i < j < |all| ==> all[i] < all[j]
    requires forall k :: 0 <= k < |statements| && Trim(statements[k]) != "" ==> k in all
    ensures FirstKept(statements, Take(all, MAX_STATEMENTS))
  {
    hide Trim;
    var at := Take(all, MAX_STATEMENTS);
    forall k | 0 <= k < |statements| && Trim(statements[k]) != "" && k !in at
      ensures |at| == MAX_STATEMENTS && at[|at| - 1] < k
    {
      var i :| 0 <= i < |all| && all[i] == k;
      assert forall j :: 0 <= j < |at| ==> at[j] == all[j] && at[j] in at;
    }
  }
}
