/** Buffering streamed rows and applying them at a limited rate: nothing lost, nothing early, nothing stuck. */
module StreamFlusher {
  import opened Common

  type Row(==)

  type Chunk = seq<Row>

  type Stats(==)

  /** One call of the `apply` callback, with the time it was made at. */
  datatype Drained = Drained(chunks: seq<Chunk>, stats: Option<Stats>, rows: nat, urgent: bool, at: int)

  /** `lastFlushAt` is None before the first apply; `timer` holds the time the armed timer is due at. */
  datatype State = State(chunks: seq<Chunk>, stats: Option<Stats>, pending: nat, received: int,
                         lastFlushAt: Option<int>, timer: Option<int>, applied: seq<Drained>)

  const EMPTY := State([], None, 0, 0, None, None, [])

  function RowCount(chunks: seq<Chunk>): nat {
    if chunks == [] then 0 else |chunks[0]| + RowCount(chunks[1..])
  }

  // --- what each operation does to the state ---

  function Draining(s: State, urgent: bool, now: int): State {
    if s.pending == 0 then s
    else
      var drained := Drained(s.chunks, s.stats, s.pending, urgent, now);
      State([], None, 0, s.received, Some(now), s.timer, s.applied + [drained])
  }

  function Scheduling(s: State, interval: nat, now: int, visible: bool): State {
    if s.timer.Some? || s.pending == 0 || !visible then s
    else s.(timer := Some(now + if s.lastFlushAt.None? then 0 else Max(0, interval - (now - s.lastFlushAt.value))))
  }

  function Pushing(s: State, rows: Chunk, stats: Option<Stats>, interval: nat, now: int, visible: bool): State {
    if rows == [] then s
    else
      Scheduling(
        s.(chunks := s.chunks + [rows], stats := if stats.Some? then stats else s.stats,
           pending := s.pending + |rows|, received := s.received + |rows|),
        interval, now, visible)
  }

  function Firing(s: State, now: int, visible: bool): State {
    if visible then Draining(s.(timer := None), false, now) else s.(timer := None)
  }

  function Flushing(s: State, now: int): State { Draining(s.(timer := None), true, now) }

  function Discarding(s: State): State {
    s.(timer := None, chunks := [], stats := None, received := s.received - s.pending, pending := 0)
  }

  class StreamRowFlusher {
    const intervalMs: nat
    var chunks: seq<Chunk>
    var stats: Option<Stats>
    var pending: nat
    var received: int
    var lastFlushAt: Option<int>
    var timer: Option<int>
    /** Every call of the callback so far. */
    ghost var applied: seq<Drained>

    ghost function Now(): State
      reads this
    {
      State(chunks, stats, pending, received, lastFlushAt, timer, applied)
    }

    constructor (intervalMs: nat)
      ensures Now() == EMPTY && this.intervalMs == intervalMs
    {
      this.intervalMs := intervalMs;
      chunks, stats, pending, received, lastFlushAt, timer, applied := [], None, 0, 0, None, None, [];
    }

    method Drain(urgent: bool, now: int)
      modifies this
      ensures Now() == Draining(old(Now()), urgent, now)
    {
      if pending == 0 {
        return;
      }
      applied := applied + [Drained(chunks, stats, pending, urgent, now)];
      chunks := [];
      stats := None;
      pending := 0;
      lastFlushAt := Some(now);
    }

    method Schedule(now: int, visible: bool)
      modifies `timer
      ensures Now() == Scheduling(old(Now()), intervalMs, now, visible)
    {
      if timer.Some? || pending == 0 || !visible {
        return;
      }
      var wait := if lastFlushAt.None? then 0 else Max(0, intervalMs - (now - lastFlushAt.value));
      timer := Some(now + wait);
    }

    method Push(rows: Chunk, nextStats: Option<Stats>, now: int, visible: bool)
      modifies this
      ensures Now() == Pushing(old(Now()), rows, nextStats, intervalMs, now, visible)
    {
      if |rows| == 0 {
        return;
      }
      chunks := chunks + [rows];
      if nextStats.Some? {
        stats := nextStats;
      }
      pending := pending + |rows|;
      received := received + |rows|;
      Schedule(now, visible);
    }

    /** The armed timer goes off. */
    method Fire(now: int, visible: bool)
      modifies this
      ensures Now() == Firing(old(Now()), now, visible)
    {
      timer := None;
      if visible {
        Drain(false, now);
      }
    }

    method FlushNow(now: int)
      modifies this
      ensures Now() == Flushing(old(Now()), now)
    {
      timer := None;
      Drain(true, now);
    }

    method Resume(now: int, visible: bool)
      modifies `timer
      ensures Now() == Scheduling(old(Now()), intervalMs, now, visible)
    {
      Schedule(now, visible);
    }

    method Discard()
      modifies this
      ensures Now() == Discarding(old(Now()))
    {
      timer := None;
      chunks := [];
      stats := None;
      received := received - pending;
      pending := 0;
    }
  }

  // --- runs ---

  /** `Wait` lets time pass, `Show` and `Hide` change what the user sees; showing the tab calls `resume`. */
  datatype Event =
    | Push(rows: Chunk, stats: Option<Stats>) | Fire | FlushNow | Resume | Discard | Wait(ms: nat) | Show | Hide

  datatype World = World(s: State, visible: bool, now: int)

  predicate Enabled(w: World, e: Event) { e.Fire? ==> w.s.timer.Some? && w.now >= w.s.timer.value }

  function Next(w: World, e: Event, interval: nat): World {
    match e
    case Push(rows, stats) => w.(s := Pushing(w.s, rows, stats, interval, w.now, w.visible))
    case Fire => w.(s := Firing(w.s, w.now, w.visible))
    case FlushNow => w.(s := Flushing(w.s, w.now))
    case Resume => w.(s := Scheduling(w.s, interval, w.now, w.visible))
    case Discard => w.(s := Discarding(w.s))
    case Wait(ms) => w.(now := w.now + ms)
    case Show => World(Scheduling(w.s, interval, w.now, true), true, w.now)
    case Hide => w.(visible := false)
  }

  predicate IsRun(w: World, events: seq<Event>, interval: nat)
    decreases |events|
  {
    events == [] || (Enabled(w, events[0]) && IsRun(Next(w, events[0], interval), events[1..], interval))
  }

  function Run(w: World, events: seq<Event>, interval: nat): World
    decreases |events|
  {
    if events == [] then w else Run(Next(w, events[0], interval), events[1..], interval)
  }

  /** One more event: a run goes on where it stood, and is one if the event can happen there. */
  lemma {:induction false} RunGrows(w: World, events: seq<Event>, e: Event, interval: nat)
    ensures Run(w, events + [e], interval) == Next(Run(w, events, interval), e, interval)
    ensures IsRun(w, events + [e], interval) <==> IsRun(w, events, interval) && Enabled(Run(w, events, interval), e)
    decreases |events|
  {
    hide Next, Enabled;
    if events == [] {
      assert (events + [e])[0] == e && (events + [e])[1..] == [];
    } else {
      assert (events + [e])[0] == events[0] && (events + [e])[1..] == events[1..] + [e];
      RunGrows(Next(w, events[0], interval), events[1..], e, interval);
    }
  }

  /** The chunks handed to the callback, in order. */
  function AppliedChunks(applied: seq<Drained>): seq<Chunk> {
    if applied == [] then [] else applied[0].chunks + AppliedChunks(applied[1..])
  }

  lemma {:induction false} AppliedAppend(applied: seq<Drained>, d: Drained)
    ensures AppliedChunks(applied + [d]) == AppliedChunks(applied) + d.chunks
  {
    if applied != [] {
      AppliedAppend(applied[1..], d);
      assert (applied + [d])[1..] == applied[1..] + [d];
    } else {
      assert AppliedChunks([d]) == d.chunks + AppliedChunks([]);
    }
  }

  lemma {:induction false} RowCountAppend(a: seq<Chunk>, b: seq<Chunk>)
    ensures RowCount(a + b) == RowCount(a) + RowCount(b)
  {
    if a == [] {
      assert a + b == b;
    } else {
      RowCountAppend(a[1..], b);
      assert (a + b)[1..] == a[1..] + b;
    }
  }

  /** Every apply but the first: a timer-driven one keeps the interval to the one before it. */
  predicate Spaced(applied: seq<Drained>, interval: nat) {
    forall k :: 0 < k < |applied| ==> applied[k].at - applied[k - 1].at >= (if applied[k].urgent then 0 else interval)
  }

  /** An apply reports its own rows and never comes with none. */
  predicate Counted(applied: seq<Drained>) {
    forall k :: 0 <= k < |applied| ==> applied[k].rows == RowCount(applied[k].chunks) > 0
  }

  /** What holds after every event. */
  predicate Inv(w: World, interval: nat) {
    && w.s.pending == RowCount(w.s.chunks)
    && (w.s.pending == 0 ==> w.s.chunks == [])
    && w.s.received == RowCount(AppliedChunks(w.s.applied)) + w.s.pending
    && w.s.lastFlushAt == (if w.s.applied == [] then None else Some(w.s.applied[|w.s.applied| - 1].at))
    && (w.s.lastFlushAt.Some? ==> w.s.lastFlushAt.value <= w.now)
    && Spaced(w.s.applied, interval)
    && Counted(w.s.applied)
    && TimerInv(w, interval)
  }

  /**
   * Rows that wait in a visible tab have a timer, due within the interval and not before the interval since the last
   * apply.
   */
  predicate TimerInv(w: World, interval: nat) {
    && (w.visible && w.s.pending > 0 ==> w.s.timer.Some?)
    && (w.s.timer.Some? ==> w.s.pending > 0 && w.s.timer.value <= w.now + interval)
    && (w.s.timer.Some? && w.s.lastFlushAt.Some? ==> w.s.timer.value >= w.s.lastFlushAt.value + interval)
  }

  lemma DrainKeepsInv(w: World, urgent: bool, interval: nat)
    requires Inv(w, interval)
    requires !urgent ==> w.s.timer.Some? && w.now >= w.s.timer.value
    ensures Inv(w.(s := Draining(w.s.(timer := None), urgent, w.now)), interval)
  {
    if w.s.pending > 0 {
      AppliedAppend(w.s.applied, Drained(w.s.chunks, w.s.stats, w.s.pending, urgent, w.now));
      RowCountAppend(AppliedChunks(w.s.applied), w.s.chunks);
    }
  }

  lemma StepKeepsInv(w: World, e: Event, interval: nat)
    requires Inv(w, interval) && Enabled(w, e)
    ensures Inv(Next(w, e, interval), interval)
  {
    hide Spaced, Counted, AppliedChunks;
    match e {
      case Push(rows, stats) =>
        RowCountAppend(w.s.chunks, [rows]);
        assert RowCount([rows]) == |rows|;
      case Fire =>
        if w.visible {
          DrainKeepsInv(w, false, interval);
        }
      case FlushNow => DrainKeepsInv(w, true, interval);
      case _ =>
    }
  }

  // --- an independent account of what a run delivers ---

  /**
   * Whether the next event that empties the buffer throws it away; a timer going off in a hidden tab empties nothing.
   */
  predicate DiscardedNext(events: seq<Event>, visible: bool)
    decreases |events|
  {
    if events == [] then false
    else if events[0].Discard? then true
    else if events[0].FlushNow? || (events[0].Fire? && visible) then false
    else DiscardedNext(events[1..], Sees(visible, events[0]))
  }

  function Sees(visible: bool, e: Event): bool { if e.Show? then true else if e.Hide? then false else visible }

  /** The non-empty pushes of a run that no discard catches before they are applied, in order. */
  function KeptPushes(events: seq<Event>, visible: bool): seq<Chunk>
    decreases |events|
  {
    if events == [] then []
    else
      var rest := KeptPushes(events[1..], Sees(visible, events[0]));
      if events[0].Push? && events[0].rows != [] && !DiscardedNext(events[1..], visible) then [events[0].rows] + rest
      else rest
  }

  function Delivered(s: State): seq<Chunk> { AppliedChunks(s.applied) + s.chunks }

  lemma {:induction false} RunDelivers(w: World, events: seq<Event>, interval: nat)
    requires Inv(w, interval) && IsRun(w, events, interval)
    ensures Inv(Run(w, events, interval), interval)
    ensures Delivered(Run(w, events, interval).s) == ToDeliver(w, events)
    decreases |events|
  {
    hide Inv;
    if events == [] {
      assert Delivered(w.s) == Delivered(w.s) + [];
    } else {
      StepKeepsInv(w, events[0], interval);
      var next := Next(w, events[0], interval);
      RunDelivers(next, events[1..], interval);
      StepDelivers(w, events, interval);
    }
  }

  /** What a run from `w` still delivers, if `events` are what comes. */
  function ToDeliver(w: World, events: seq<Event>): seq<Chunk> {
    AppliedChunks(w.s.applied) + (if DiscardedNext(events, w.visible) then [] else w.s.chunks) +
    KeptPushes(events, w.visible)
  }

  lemma StepDelivers(w: World, events: seq<Event>, interval: nat)
    requires Inv(w, interval) && events != []
    ensures ToDeliver(Next(w, events[0], interval), events[1..]) == ToDeliver(w, events)
  {
    hide Spaced, Counted, TimerInv;
    match events[0] {
      case Push(rows, _) => PushDelivers(w, events, interval);
      case Fire =>
        if w.visible {
          DrainDelivers(w, events, interval);
        }
      case FlushNow => DrainDelivers(w, events, interval);
      case _ =>
    }
  }

  lemma PushDelivers(w: World, events: seq<Event>, interval: nat)
    requires events != [] && events[0].Push?
    ensures ToDeliver(Next(w, events[0], interval), events[1..]) == ToDeliver(w, events)
  {
    var next := Next(w, events[0], interval);
    var rows := events[0].rows;
    assert next.s.chunks == if rows == [] then w.s.chunks else w.s.chunks + [rows];
    assert next.s.applied == w.s.applied && next.visible == w.visible;
  }

  lemma DrainDelivers(w: World, events: seq<Event>, interval: nat)
    requires events != [] && (events[0].FlushNow? || (events[0].Fire? && w.visible))
    requires w.s.pending == 0 ==> w.s.chunks == []
    ensures ToDeliver(Next(w, events[0], interval), events[1..]) == ToDeliver(w, events)
  {
    hide AppliedChunks;
    AppliedAppend(w.s.applied, Drained(w.s.chunks, w.s.stats, w.s.pending, events[0].FlushNow?, w.now));
    var next := Next(w, events[0], interval);
    assert AppliedChunks(next.s.applied) == AppliedChunks(w.s.applied) + w.s.chunks && next.s.chunks == [];
  }

  /**
   * Every run from an empty buffer: what was applied and what still waits is exactly the pushes no discard caught,
   * in order and row for row; timer-driven applies keep the interval; and a visible tab with waiting rows has a
   * timer due within the interval.
   */
  lemma EveryRunIsFaithful(events: seq<Event>, interval: nat, visible: bool, start: int)
    requires IsRun(World(EMPTY, visible, start), events, interval)
    ensures var w := Run(World(EMPTY, visible, start), events, interval);
            && AppliedChunks(w.s.applied) + w.s.chunks == KeptPushes(events, visible)
            && w.s.received == RowCount(KeptPushes(events, visible))
            && w.s.pending == RowCount(w.s.chunks)
            && Spaced(w.s.applied, interval) && Counted(w.s.applied) && TimerInv(w, interval)
  {
    hide DiscardedNext, KeptPushes, Run, Next, Spaced, Counted, IsRun;
    var w0 := World(EMPTY, visible, start);
    EmptyHolds(w0, interval);
    RunDelivers(w0, events, interval);
    var w := Run(w0, events, interval);
    RowCountAppend(AppliedChunks(w.s.applied), w.s.chunks);
  }

  lemma EmptyHolds(w: World, interval: nat)
    requires w.s == EMPTY
    ensures Inv(w, interval)
  {
  }

  // --- timers on time ---

  /** Time does not pass an armed timer that is due. */
  predicate OnTime(w: World, e: Event) {
    Enabled(w, e) && (e.Wait? && w.s.timer.Some? ==> w.now + e.ms <= w.s.timer.value)
  }

  predicate Waiting(w: World) { w.visible && w.s.pending > 0 }

  /** A world, and since when rows have been waiting in the visible tab without a break. */
  datatype Watched = Watched(w: World, since: Option<int>)

  function Watch(c: Watched, e: Event, interval: nat): Watched {
    var n := Next(c.w, e, interval);
    Watched(n, if !Waiting(n) then None else if c.since.Some? then c.since else Some(n.now))
  }

  predicate RunsOnTime(c: Watched, events: seq<Event>, interval: nat)
    decreases |events|
  {
    events == [] || (OnTime(c.w, events[0]) && RunsOnTime(Watch(c, events[0], interval), events[1..], interval))
  }

  function WatchRun(c: Watched, events: seq<Event>, interval: nat): Watched
    decreases |events|
  {
    if events == [] then c else WatchRun(Watch(c, events[0], interval), events[1..], interval)
  }

  /** The armed timer is still to come, and rows have not waited for longer than it allows. */
  predicate WatchInv(c: Watched, interval: nat) {
    && Inv(c.w, interval)
    && (c.since.Some? <==> Waiting(c.w))
    && (c.w.s.timer.Some? ==> c.w.now <= c.w.s.timer.value)
    && (c.since.Some? ==>
        c.w.s.timer.Some? && c.since.value <= c.w.now && c.w.s.timer.value <= c.since.value + interval)
  }

  lemma WatchStep(c: Watched, e: Event, interval: nat)
    requires WatchInv(c, interval) && OnTime(c.w, e)
    ensures WatchInv(Watch(c, e, interval), interval)
  {
    StepKeepsInv(c.w, e, interval);
    InvTimers(c.w, interval);
    InvTimers(Next(c.w, e, interval), interval);
    hide Inv, AppliedChunks, RowCount;
  }

  lemma InvTimers(w: World, interval: nat)
    requires Inv(w, interval)
    ensures TimerInv(w, interval) && (w.s.pending == 0 ==> w.s.timer.None?)
  {
  }

  lemma {:induction false} WatchKeepsInv(c: Watched, events: seq<Event>, interval: nat)
    requires WatchInv(c, interval) && RunsOnTime(c, events, interval)
    ensures WatchInv(WatchRun(c, events, interval), interval)
    decreases |events|
  {
    hide WatchInv, OnTime, Watch;
    if events != [] {
      WatchStep(c, events[0], interval);
      WatchKeepsInv(Watch(c, events[0], interval), events[1..], interval);
    }
  }

  lemma {:induction false} SinceStays(c: Watched, events: seq<Event>, interval: nat)
    requires c.since.Some? && StaysWaiting(c, events, interval)
    ensures WatchRun(c, events, interval).since == c.since
    decreases |events|
  {
    hide Next, Waiting;
    if events != [] {
      SinceStays(Watch(c, events[0], interval), events[1..], interval);
    }
  }

  /** The tab is visible with rows waiting after every event. */
  predicate StaysWaiting(c: Watched, events: seq<Event>, interval: nat)
    decreases |events|
  {
    events == [] ||
    (Waiting(Next(c.w, events[0], interval)) && StaysWaiting(Watch(c, events[0], interval), events[1..], interval))
  }

  /**
   * Rows that wait in a visible tab can be delivered: waiting for the timer, no longer than the interval, is enough.
   */
  lemma WaitingIsDelivered(w: World, interval: nat) returns (ms: nat)
    requires Inv(w, interval) && Waiting(w)
    ensures ms <= interval && IsRun(w, [Wait(ms), Fire], interval)
    ensures w.now <= w.s.timer.value ==> OnTime(w, Wait(ms))
    ensures var n := Run(w, [Wait(ms), Fire], interval);
            n.s.pending == 0 && n.s.chunks == [] &&
            AppliedChunks(n.s.applied) == AppliedChunks(w.s.applied) + w.s.chunks
  {
    hide RowCount, Spaced, Counted;
    ms := Max(0, w.s.timer.value - w.now);
    var a := Next(w, Wait(ms), interval);
    AppliedAppend(w.s.applied, Drained(w.s.chunks, w.s.stats, w.s.pending, false, a.now));
    assert [Wait(ms), Fire][1..] == [Fire] && [Fire][1..] == [];
  }

  /** One more event of a run with timers on time, and of a wait without a break. */
  lemma {:induction false} WatchGrows(c: Watched, events: seq<Event>, e: Event, interval: nat)
    ensures var now := WatchRun(c, events, interval);
            && WatchRun(c, events + [e], interval) == Watch(now, e, interval)
            && (RunsOnTime(c, events + [e], interval) <==> RunsOnTime(c, events, interval) && OnTime(now.w, e))
            && (StaysWaiting(c, events + [e], interval) <==>
                StaysWaiting(c, events, interval) && Waiting(Next(now.w, e, interval)))
    decreases |events|
  {
    hide Next, Watch, OnTime, Waiting;
    if events == [] {
      assert (events + [e])[0] == e && (events + [e])[1..] == [];
    } else {
      assert (events + [e])[0] == events[0] && (events + [e])[1..] == events[1..] + [e];
      WatchGrows(Watch(c, events[0], interval), events[1..], e, interval);
    }
  }

  /**
   * With timers on time, rows pushed to a visible tab wait no longer than the interval: as long as the tab stays
   * visible and the buffer has not been emptied since the push, no more than `interval` has passed.
   */
  lemma AppliedWithinInterval(events: seq<Event>, push: Event, later: seq<Event>, interval: nat, visible: bool,
                              start: int)
    requires push.Push? && push.rows != []
    requires RunsOnTime(Watched(World(EMPTY, visible, start), None), events + [push] + later, interval)
    requires var before := WatchRun(Watched(World(EMPTY, visible, start), None), events, interval);
             before.w.visible && StaysWaiting(Watch(before, push, interval), later, interval)
    ensures var first := Watched(World(EMPTY, visible, start), None);
            WatchRun(first, events + [push] + later, interval).w.now <=
            WatchRun(first, events, interval).w.now + interval
  {
    var first := Watched(World(EMPTY, visible, start), None);
    EmptyHolds(first.w, interval);
    assert events + [push] + later == events + ([push] + later);
    SplitRun(first, events, [push] + later, interval);
    var before := WatchRun(first, events, interval);
    WatchKeepsInv(first, events, interval);
    assert ([push] + later)[1..] == later;
    var after := Watch(before, push, interval);
    WatchStep(before, push, interval);
    WatchKeepsInv(after, later, interval);
    hide Inv, StaysWaiting, RunsOnTime;
    assert after.since.Some? && after.since.value <= before.w.now;
    SinceStays(after, later, interval);
  }

  lemma {:induction false} SplitRun(c: Watched, a: seq<Event>, b: seq<Event>, interval: nat)
    requires RunsOnTime(c, a + b, interval)
    ensures RunsOnTime(c, a, interval) && RunsOnTime(WatchRun(c, a, interval), b, interval)
    ensures WatchRun(c, a + b, interval) == WatchRun(WatchRun(c, a, interval), b, interval)
    decreases |a|
  {
    hide OnTime, Watch;
    if a == [] {
      assert a + b == b;
    } else {
      assert (a + b)[1..] == a[1..] + b;
      SplitRun(Watch(c, a[0], interval), a[1..], b, interval);
    }
  }
}
