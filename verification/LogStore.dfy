/** The rotating log: two segments, file operations that may fail, and when a read shows an unbroken tail of the log. */
module LogStore {
  import opened Common

  /** Per-segment cap in bytes. */
  const SEGMENT_CAP: nat := 524288

  /**
   * The log and the files it writes. A file is an inode number, its contents a list of bytes, and a byte is
   * known by its place among all bytes the log ever accepted: `next` is the place the next byte gets, `since`
   * the place at the last clear that succeeded.
   */
  datatype Log = Log(files: seq<seq<nat>>, cur: Option<nat>, prev: Option<nat>, file: nat, size: nat, pending: bool,
                     next: nat, since: nat)

  function Content(l: Log, name: Option<nat>): seq<nat> {
    if name.Some? && name.value < |l.files| then l.files[name.value] else []
  }

  /** The backup segment followed by the active one. */
  function Reading(l: Log): seq<nat> { Content(l, l.prev) + Content(l, l.cur) }

  function Range(from: nat, to: nat): seq<nat>
    requires from <= to
  {
    seq(to - from, i => from + i)
  }

  // --- file operations that succeed ---

  function Created(l: Log): Log { if l.cur.Some? then l else l.(files := l.files + [[]], cur := Some(|l.files|)) }

  /** The active path opened for appending, and the handle put in place. */
  function Reopened(l: Log): Log {
    var c := Created(l);
    c.(file := c.cur.value, size := 0, pending := false)
  }

  function Appended(l: Log, n: nat): Log {
    if l.file >= |l.files| then l
    else l.(files := l.files[l.file := l.files[l.file] + Range(l.next, l.next + n)], next := l.next + n)
  }

  function Renamed(l: Log): Log { l.(prev := l.cur, cur := None) }

  function Truncated(l: Log): Log {
    var c := Created(l);
    if c.cur.value < |c.files| then c.(files := c.files[c.cur.value := []]) else c
  }

  // --- the operations, with the outcome of every file operation they try ---

  /** `failsAt` is None if all bytes are written, else how many were when the write failed. */
  datatype Event =
    | Write(n: nat, reopens: bool, failsAt: Option<nat>, renames: bool, opensNew: bool)
    | Clear(truncates: bool, opens: bool, removes: bool)
    | Restart(sizeKnown: bool)

  predicate Fails(e: Event)
    requires e.Write?
  {
    e.failsAt.Some? && e.failsAt.value < e.n
  }

  function Retried(l: Log, e: Event): Log
    requires e.Write?
  {
    if l.pending && e.reopens then Reopened(l) else l
  }

  /** The bytes of an event are dropped: nothing can be opened and the backup is twice its cap already. */
  predicate Dropped(l: Log, e: Event)
    requires e.Write?
  {
    l.pending && !e.reopens && l.size >= SEGMENT_CAP * 2
  }

  function Rotated(l: Log, opensNew: bool): Log {
    if opensNew then Reopened(Renamed(l)) else Renamed(l).(pending := true)
  }

  function Wrote(l: Log, e: Event): Log
    requires e.Write?
  {
    if Dropped(l, e) then l
    else
      var ready := Retried(l, e);
      if Fails(e) then Appended(ready, e.failsAt.value)
      else
        var full := Appended(ready, e.n).(size := ready.size + e.n);
        if full.size >= SEGMENT_CAP && !full.pending && e.renames then Rotated(full, e.opensNew) else full
  }

  function Cleared(l: Log, e: Event): Log
    requires e.Clear?
  {
    if !e.truncates then l
    else if !e.opens then Truncated(l)
    else Reopened(Truncated(l)).(since := l.next, prev := if e.removes then None else l.prev)
  }

  /** A new process opens the log. */
  function Restarted(l: Log, e: Event): Log
    requires e.Restart?
  {
    var r := Reopened(l);
    r.(size := if e.sizeKnown then |Content(r, r.cur)| else 0)
  }

  function Next(l: Log, e: Event): Log {
    match e
    case Write(_, _, _, _, _) => Wrote(l, e)
    case Clear(_, _, _) => Cleared(l, e)
    case Restart(_) => Restarted(l, e)
  }

  /** A new process finds the bytes as they were, opens the active segment, and counts it from its size if it can. */
  lemma RestartKeepsBytes(l: Log, e: Event)
    requires e.Restart? && (l.prev.Some? ==> l.prev.value < |l.files|)
    ensures var n := Next(l, e);
            && Reading(n) == Reading(l) && n.prev == l.prev && n.next == l.next && n.since == l.since
            && n.cur == Some(n.file) && (l.cur.Some? ==> n.cur == l.cur) && !n.pending
            && n.size == if e.sizeKnown then |Content(n, n.cur)| else 0
  {
  }

  // --- what always holds ---

  predicate Contiguous(s: seq<nat>) { forall i :: 0 <= i < |s| ==> s[i] == s[0] + i }

  /** A segment's bytes end with the last byte accepted, or the segment is empty. */
  predicate EndsAt(s: seq<nat>, next: nat) { s != [] ==> s[|s| - 1] + 1 == next }

  /**
   * The handle never points at a file no name leads to: it is the active segment, or the backup while a new
   * file is still to be opened. Each segment is an unbroken run of bytes, the backup before the active one.
   */
  predicate Inv(l: Log) {
    && (l.cur.Some? ==> l.cur.value < |l.files|) && (l.prev.Some? ==> l.prev.value < |l.files|)
    && (l.cur.Some? && l.prev.Some? ==> l.cur.value != l.prev.value)
    && (if l.pending then l.prev == Some(l.file) && Content(l, l.cur) == [] else l.cur == Some(l.file))
    && l.since <= l.next
    && Segments(Content(l, l.prev), Content(l, l.cur), l.next)
    && (l.pending ==> EndsAt(Content(l, l.prev), l.next))
  }

  predicate Segments(prev: seq<nat>, cur: seq<nat>, next: nat) {
    && Contiguous(prev) && Contiguous(cur) && EndsAt(cur, next)
    && (prev != [] ==> prev[|prev| - 1] < (if cur != [] then cur[0] else next))
  }

  predicate Tail(r: seq<nat>, since: nat, next: nat) {
    since + |r| <= next && forall i :: 0 <= i < |r| ==> r[i] == next - |r| + i
  }

  /** What is read is a tail of the bytes accepted since the last clear that succeeded: no hole, nothing older. */
  predicate ReadsTail(l: Log) { Tail(Reading(l), l.since, l.next) }

  /**
   * The two clears that spoil what is read: one that empties the active file but cannot open it again while the
   * backup keeps older bytes, and one that cannot remove a backup that holds any.
   */
  predicate Spoils(l: Log, e: Event) {
    e.Clear? && e.truncates && Content(l, l.prev) != [] &&
    (if e.opens then !e.removes else Content(l, l.cur) != [])
  }

  lemma SegmentsAppended(prev: seq<nat>, cur: seq<nat>, next: nat, n: nat)
    requires Segments(prev, cur, next)
    ensures Segments(prev, cur + Range(next, next + n), next + n)
    ensures cur == [] && EndsAt(prev, next) ==> Segments(prev + Range(next, next + n), [], next + n)
    ensures cur == [] && EndsAt(prev, next) ==> EndsAt(prev + Range(next, next + n), next + n)
  {
    hide Contiguous, Range;
    ContiguousAppended(cur, next, n);
    FirstAppended(cur, next, n);
    if cur == [] && EndsAt(prev, next) {
      ContiguousAppended(prev, next, n);
    }
  }

  lemma ContiguousAppended(s: seq<nat>, next: nat, n: nat)
    requires Contiguous(s) && EndsAt(s, next)
    ensures Contiguous(s + Range(next, next + n)) && EndsAt(s + Range(next, next + n), next + n)
  {
  }

  lemma FirstAppended(s: seq<nat>, next: nat, n: nat)
    ensures var more := s + Range(next, next + n);
            more != [] ==> more[0] == (if s != [] then s[0] else next)
    ensures s + Range(next, next + n) == [] ==> n == 0 && s == []
  {
  }

  lemma SegmentsShifted(prev: seq<nat>, cur: seq<nat>, next: nat)
    requires Segments(prev, cur, next)
    ensures Segments(cur, [], next)
  {
  }

  lemma TailAppended(r: seq<nat>, since: nat, next: nat, n: nat)
    requires Tail(r, since, next)
    ensures Tail(r + Range(next, next + n), since, next + n)
  {
  }

  lemma TailShifted(prev: seq<nat>, cur: seq<nat>, since: nat, next: nat)
    requires Tail(prev + cur, since, next)
    ensures Tail(cur, since, next)
  {
    forall i | 0 <= i < |cur| ensures cur[i] == next - |cur| + i {
      assert cur[i] == (prev + cur)[|prev| + i];
    }
  }

  lemma WriteKeepsInv(l: Log, e: Event)
    requires Inv(l) && e.Write?
    ensures Inv(Wrote(l, e))
    ensures ReadsTail(l) ==> ReadsTail(Wrote(l, e))
  {
    hide Segments, EndsAt, Tail, Content, Reopened, Appended, Rotated;
    if !Dropped(l, e) {
      var ready := Retried(l, e);
      ReopenKeepsInv(l);
      var n := if Fails(e) then e.failsAt.value else e.n;
      AppendKeepsInv(ready, n);
      if ReadsTail(l) {
        TailAppended(Reading(l), l.since, l.next, n);
      }
      var full := Appended(ready, n).(size := ready.size + n);
      SizeIsNoMatter(Appended(ready, n), full.size);
      if !Fails(e) && full.size >= SEGMENT_CAP && !full.pending && e.renames {
        RenameKeepsInv(full, e.opensNew);
        if ReadsTail(l) {
          TailShifted(Content(full, full.prev), Content(full, full.cur), full.since, full.next);
        }
      }
    }
  }

  lemma SizeIsNoMatter(l: Log, size: nat)
    ensures Content(l.(size := size), l.prev) == Content(l, l.prev) &&
            Content(l.(size := size), l.cur) == Content(l, l.cur)
  {
  }

  lemma ReopenKeepsInv(l: Log)
    requires Inv(l)
    ensures l.pending ==> Inv(Reopened(l)) && Reading(Reopened(l)) == Reading(l)
    ensures Reopened(l).since == l.since && Reopened(l).next == l.next
  {
    hide Segments, EndsAt;
  }

  lemma AppendKeepsInv(l: Log, n: nat)
    requires Inv(l)
    ensures Inv(Appended(l, n)) && Reading(Appended(l, n)) == Reading(l) + Range(l.next, l.next + n)
    ensures Appended(l, n).since == l.since && Appended(l, n).next == l.next + n && Appended(l, n).pending == l.pending
  {
    hide Segments, EndsAt, Range;
    var a := Appended(l, n);
    var prev, cur, more := Content(l, l.prev), Content(l, l.cur), Range(l.next, l.next + n);
    SegmentsAppended(prev, cur, l.next, n);
    if l.pending {
      assert Content(a, a.prev) == prev + more && Content(a, a.cur) == [];
      assert prev + more + [] == prev + cur + more;
    } else {
      assert Content(a, a.prev) == prev && Content(a, a.cur) == cur + more;
      assert prev + (cur + more) == prev + cur + more;
    }
  }

  lemma RenameKeepsInv(l: Log, opensNew: bool)
    requires Inv(l) && !l.pending
    ensures Inv(Rotated(l, opensNew)) && Reading(Rotated(l, opensNew)) == Content(l, l.cur)
    ensures Rotated(l, opensNew).since == l.since && Rotated(l, opensNew).next == l.next
  {
    hide Segments;
    var r := Rotated(l, opensNew);
    assert Content(r, r.prev) == Content(l, l.cur) && Content(r, r.cur) == [];
    SegmentsShifted(Content(l, l.prev), Content(l, l.cur), l.next);
    SegmentsEnd(Content(l, l.prev), Content(l, l.cur), l.next);
  }

  lemma SegmentsEnd(prev: seq<nat>, cur: seq<nat>, next: nat)
    requires Segments(prev, cur, next)
    ensures EndsAt(cur, next) && Segments(prev, [], next) && Segments([], [], next)
  {
  }

  lemma TruncatedContent(l: Log)
    requires Inv(l)
    ensures var t := Truncated(l);
            && t.cur.Some? && t.cur.value < |t.files| && (l.cur.Some? ==> t.cur == l.cur) && |t.files| >= |l.files|
            && Content(t, t.prev) == Content(l, l.prev) && Content(t, t.cur) == [] && t.prev == l.prev
            && (t.prev.Some? ==> t.prev != t.cur)
            && t.pending == l.pending && t.file == l.file && t.since == l.since && t.next == l.next
  {
    hide Segments, EndsAt;
  }

  lemma TruncatedKeepsInv(l: Log)
    requires Inv(l)
    ensures Inv(Truncated(l)) && Reading(Truncated(l)) == Content(l, l.prev)
  {
    hide Segments, EndsAt, Truncated;
    TruncatedContent(l);
    SegmentsEnd(Content(l, l.prev), Content(l, l.cur), l.next);
    assert Content(l, l.prev) + [] == Content(l, l.prev);
  }

  /** The active file opened again after it was emptied, and the backup removed or not. */
  lemma EmptiedKeepsInv(l: Log, since: nat, removes: bool)
    requires Inv(l) && l.cur.Some? && Content(l, l.cur) == [] && since <= l.next
    ensures var r := Reopened(l).(since := since, prev := if removes then None else l.prev);
            Inv(r) && Reading(r) == if removes then [] else Content(l, l.prev)
  {
    hide Segments, EndsAt;
    SegmentsEnd(Content(l, l.prev), [], l.next);
    assert Content(l, l.prev) + [] == Content(l, l.prev);
  }

  lemma ClearKeepsInv(l: Log, e: Event)
    requires Inv(l) && e.Clear?
    ensures Inv(Cleared(l, e))
    ensures e.truncates && e.opens ==> Reading(Cleared(l, e)) == (if e.removes then [] else Content(l, l.prev))
    ensures e.truncates && !e.opens ==> Reading(Cleared(l, e)) == Content(l, l.prev)
  {
    hide Inv, Truncated, Reopened, Reading, Content;
    if e.truncates {
      TruncatedContent(l);
      TruncatedKeepsInv(l);
      if e.opens {
        NextIsLate(l);
        EmptiedKeepsInv(Truncated(l), l.next, e.removes);
      }
    }
  }

  lemma NextIsLate(l: Log)
    requires Inv(l)
    ensures l.since <= l.next
  {
  }

  lemma RestartKeepsInv(l: Log, e: Event)
    requires Inv(l) && e.Restart?
    ensures Inv(Restarted(l, e)) && Reading(Restarted(l, e)) == Reading(l)
    ensures Restarted(l, e).next == l.next && Restarted(l, e).since == l.since
  {
    var r := Restarted(l, e);
    assert Content(r, r.cur) == Content(l, l.cur) && Content(r, r.prev) == Content(l, l.prev);
  }

  lemma StepKeepsInv(l: Log, e: Event)
    requires Inv(l)
    ensures Inv(Next(l, e))
  {
    hide Inv;
    match e {
      case Write(_, _, _, _, _) => WriteKeepsInv(l, e);
      case Clear(_, _, _) => ClearKeepsInv(l, e);
      case Restart(_) => RestartKeepsInv(l, e);
    }
  }

  lemma ClearReadsTail(l: Log, e: Event)
    requires Inv(l) && ReadsTail(l) && e.Clear?
    ensures ReadsTail(Cleared(l, e)) <==> !Spoils(l, e)
  {
    hide Segments, EndsAt, Truncated, Reopened, Cleared;
    ClearKeepsInv(l, e);
    var prev, cur := Content(l, l.prev), Content(l, l.cur);
    ClearMoves(l, e);
    assert cur == [] ==> prev + cur == prev;
    if prev != [] {
      assert Reading(l)[|prev| - 1] == prev[|prev| - 1];
      assert Reading(l)[0] == prev[0];
    }
  }

  lemma ClearMoves(l: Log, e: Event)
    requires e.Clear?
    ensures !e.truncates ==> Cleared(l, e) == l
    ensures Cleared(l, e).next == l.next && Cleared(l, e).since == if e.truncates && e.opens then l.next else l.since
  {
  }

  /** From a state that reads a tail, a step keeps that exactly when it is not a spoiling clear. */
  lemma StepReadsTail(l: Log, e: Event)
    requires Inv(l) && ReadsTail(l)
    ensures ReadsTail(Next(l, e)) <==> !Spoils(l, e)
  {
    hide Inv, Tail, Cleared, Wrote;
    match e {
      case Write(_, _, _, _, _) => WriteKeepsInv(l, e);
      case Clear(_, _, _) => ClearReadsTail(l, e);
      case Restart(_) => RestartKeepsInv(l, e);
    }
  }

  // --- runs ---

  function Run(l: Log, events: seq<Event>): Log
    decreases |events|
  {
    if events == [] then l else Run(Next(l, events[0]), events[1..])
  }

  /** Whether some clear of the run spoils the state it finds. */
  predicate EverSpoils(l: Log, events: seq<Event>)
    decreases |events|
  {
    events != [] && (Spoils(l, events[0]) || EverSpoils(Next(l, events[0]), events[1..]))
  }

  /** One more event: a run goes on where it stood, and spoils the log if it did or the event does. */
  lemma {:induction false} RunGrows(l: Log, events: seq<Event>, e: Event)
    ensures Run(l, events + [e]) == Next(Run(l, events), e)
    ensures EverSpoils(l, events + [e]) <==> EverSpoils(l, events) || Spoils(Run(l, events), e)
    decreases |events|
  {
    hide Next, Spoils;
    if events == [] {
      assert (events + [e])[0] == e && (events + [e])[1..] == [];
    } else {
      assert (events + [e])[0] == events[0] && (events + [e])[1..] == events[1..] + [e];
      RunGrows(Next(l, events[0]), events[1..], e);
    }
  }

  /** Without a spoiling clear the files of a run hold a tail of the log, whatever renames, opens and writes fail. */
  lemma {:induction false} RunReadsTail(l: Log, events: seq<Event>)
    requires Inv(l) && ReadsTail(l)
    ensures Inv(Run(l, events))
    ensures !EverSpoils(l, events) ==> ReadsTail(Run(l, events))
    decreases |events|
  {
    hide Inv, ReadsTail, Spoils, Next;
    if events != [] {
      StepKeepsInv(l, events[0]);
      StepReadsTail(l, events[0]);
      if ReadsTail(Next(l, events[0])) {
        RunReadsTail(Next(l, events[0]), events[1..]);
      } else {
        RunKeepsInv(Next(l, events[0]), events[1..]);
      }
    }
  }

  /** On every run the bytes read stay in the order they were accepted in. */
  lemma {:induction false} RunKeepsInv(l: Log, events: seq<Event>)
    requires Inv(l)
    ensures Inv(Run(l, events))
    ensures forall i, j :: 0 <= i < j < |Reading(Run(l, events))| ==>
            Reading(Run(l, events))[i] < Reading(Run(l, events))[j]
    decreases |events|
  {
    hide Inv, Next, Reading;
    if events == [] {
      ReadingIsOrdered(l);
    } else {
      StepKeepsInv(l, events[0]);
      RunKeepsInv(Next(l, events[0]), events[1..]);
    }
  }

  lemma ReadingIsOrdered(l: Log)
    requires Inv(l)
    ensures forall i, j :: 0 <= i < j < |Reading(l)| ==> Reading(l)[i] < Reading(l)[j]
  {
    var prev, cur := Content(l, l.prev), Content(l, l.cur);
    forall i, j | 0 <= i < j < |Reading(l)| ensures Reading(l)[i] < Reading(l)[j] {
      if i < |prev| <= j {
        assert prev[i] <= prev[|prev| - 1] < cur[0] <= cur[j - |prev|];
      }
    }
  }

  /** A write that returns success is read back at the end of the log, unless its bytes were dropped. */
  lemma WriteIsReadBack(l: Log, e: Event)
    requires Inv(l) && e.Write? && !Fails(e) && !Dropped(l, e)
    ensures var r := Reading(Wrote(l, e));
            |r| >= e.n && r[|r| - e.n..] == Range(l.next, l.next + e.n)
  {
    hide Segments, EndsAt, Content, Reopened, Appended, Rotated;
    ReopenKeepsInv(l);
    var ready := Retried(l, e);
    AppendKeepsInv(ready, e.n);
    var full := Appended(ready, e.n).(size := ready.size + e.n);
    SizeIsNoMatter(Appended(ready, e.n), full.size);
    if full.size >= SEGMENT_CAP && !full.pending && e.renames {
      RenameKeepsInv(full, e.opensNew);
      AppendedToActive(ready, e.n);
    }
  }

  lemma AppendedToActive(l: Log, n: nat)
    requires Inv(l) && !l.pending
    ensures Appended(l, n).cur == l.cur &&
            Content(Appended(l, n), l.cur) == Content(l, l.cur) + Range(l.next, l.next + n)
  {
    hide Segments, EndsAt, Range;
  }

  /** One clear whose file operations all succeed repairs any state. */
  lemma CleanClearRepairs(l: Log, e: Event)
    requires Inv(l) && e.Clear? && e.truncates && e.opens && e.removes
    ensures Reading(Cleared(l, e)) == [] && ReadsTail(Cleared(l, e))
  {
    ClearKeepsInv(l, e);
  }

  // --- reads ---

  /** What a read shows if it gets hold of the backup (`prevRead`) and of the active file (`curRead`). */
  function Shown(l: Log, prevRead: bool, curRead: bool): seq<nat> {
    (if prevRead then Content(l, l.prev) else []) + (if curRead then Content(l, l.cur) else [])
  }

  /**
   * A read skips a file it cannot open: it shows a tail unless it skips an active file with bytes after a backup with
   * bytes.
   */
  lemma ShownIsTail(l: Log, prevRead: bool, curRead: bool)
    requires Inv(l) && ReadsTail(l)
    ensures Tail(Shown(l, prevRead, curRead), l.since, l.next) <==>
            curRead || !prevRead || Content(l, l.cur) == [] || Content(l, l.prev) == []
  {
    var prev, cur := Content(l, l.prev), Content(l, l.cur);
    TailShifted(prev, cur, l.since, l.next);
    if prevRead && !curRead && prev != [] && cur != [] {
      assert Reading(l)[0] == prev[0] && (prev + [])[0] == prev[0];
    } else {
      assert prev + [] == prev && [] + cur == cur;
    }
  }

  /** Two runs of bytes, the first before the second, of bytes accepted so far. */
  ghost predicate Runs(first: seq<nat>, second: seq<nat>, next: nat) {
    && Contiguous(first) && Contiguous(second)
    && (first != [] ==> first[|first| - 1] < (if second != [] then second[0] else next))
    && (second != [] ==> second[|second| - 1] < next)
  }

  /** No byte is missing behind the first run, up to the second one or at least up to `start`. */
  ghost predicate Gapless(first: seq<nat>, second: seq<nat>, start: nat) {
    first == [] ||
    (if second == [] then first[|first| - 1] + 1 >= start else second[0] == first[|first| - 1] + 1)
  }

  ghost predicate NotBefore(s: seq<nat>, since: nat) { s != [] ==> s[0] >= since }

  /** Which of the two files of a read writes go to. */
  datatype Target = First | Second | Neither

  /**
   * What the two files hold while a read that began at `start` is going on. With `joined`, no byte is missing between
   * them.
   */
  ghost predicate Held(first: seq<nat>, second: seq<nat>, next: nat, since: nat, start: nat, joined: bool, to: Target) {
    && Runs(first, second, next) && since <= start <= next && NotBefore(first, since) && NotBefore(second, since)
    && (second != [] ==> second[|second| - 1] + 1 >= start)
    && (to.First? ==> second == [] && EndsAt(first, next))
    && (to.Second? ==> EndsAt(second, next) && (joined && second == [] ==> EndsAt(first, next)))
    && (joined ==> Gapless(first, second, start))
  }

  function TargetOf(l: Log, p: Option<nat>, c: Option<nat>): Target {
    if p == Some(l.file) then First else if c == Some(l.file) then Second else Neither
  }

  /**
   * A read in progress holds the files `p` and `c`, the backup and the active one when it began at `start`. Writes go
   * to `p` while no new active file could be opened, then to `c`, then to neither.
   */
  ghost predicate Holding(l: Log, p: Option<nat>, c: Option<nat>, since: nat, start: nat, joined: bool) {
    && (p.Some? ==> p.value < |l.files|) && (c.Some? ==> c.value < |l.files| && p != c)
    && Held(Content(l, p), Content(l, c), l.next, since, start, joined, TargetOf(l, p, c))
    && (if p == Some(l.file) then l.pending && l.prev == p && (c.Some? ==> l.cur == c)
        else (p.Some? ==> l.cur != p) && (c != Some(l.file) && c.Some? ==> l.cur != c))
  }

  /** Where writes go on to is never worse: from the backup to the active file, and from both to neither. */
  lemma HeldMovesOn(first: seq<nat>, second: seq<nat>, next: nat, since: nat, start: nat, joined: bool, to: Target)
    requires Held(first, second, next, since, start, joined, to)
    ensures Held(first, second, next, since, start, joined, Neither)
    ensures to.First? ==> Held(first, second, next, since, start, joined, Second)
  {
    hide Runs, NotBefore, Gapless;
  }

  lemma HoldingStarts(l: Log)
    requires Inv(l) && ReadsTail(l)
    ensures Holding(l, l.prev, l.cur, l.since, l.next, true)
  {
    var prev, cur := Content(l, l.prev), Content(l, l.cur);
    if prev != [] {
      assert Reading(l)[|prev| - 1] == prev[|prev| - 1] && Reading(l)[0] == prev[0];
      if cur != [] {
        assert Reading(l)[|prev|] == cur[0];
      }
    }
    assert cur != [] ==> Reading(l)[|prev|] == cur[0];
  }

  lemma RunsAppended(first: seq<nat>, second: seq<nat>, next: nat, k: nat)
    requires Runs(first, second, next)
    ensures EndsAt(second, next) ==> Runs(first, second + Range(next, next + k), next + k)
    ensures EndsAt(first, next) && second == [] ==> Runs(first + Range(next, next + k), second, next + k)
    ensures Runs(first, second, next + k)
  {
  }

  lemma EndsAppended(s: seq<nat>, next: nat, k: nat)
    requires EndsAt(s, next)
    ensures EndsAt(s + Range(next, next + k), next + k)
  {
  }

  lemma StartsAppended(s: seq<nat>, since: nat, next: nat, k: nat)
    requires NotBefore(s, since) && since <= next
    ensures NotBefore(s + Range(next, next + k), since)
  {
  }

  lemma GaplessAppended(first: seq<nat>, second: seq<nat>, start: nat, next: nat, k: nat)
    requires Gapless(first, second, start) && start <= next
    ensures second == [] && EndsAt(first, next) ==> Gapless(first + Range(next, next + k), second, start)
    ensures (second == [] ==> EndsAt(first, next)) ==> Gapless(first, second + Range(next, next + k), start)
  {
  }

  lemma RangeLength(from: nat, to: nat)
    requires from <= to
    ensures |Range(from, to)| == to - from
  {
  }

  lemma HoldingReopened(l: Log, p: Option<nat>, c: Option<nat>, since: nat, start: nat, joined: bool)
    requires Inv(l) && Holding(l, p, c, since, start, joined)
    ensures l.pending ==> Holding(Reopened(l), p, c, since, start, joined)
  {
    hide Segments, EndsAt, Held;
    HeldMovesOn(Content(l, p), Content(l, c), l.next, since, start, joined, TargetOf(l, p, c));
  }

  lemma AppendedContent(l: Log, k: nat, f: Option<nat>)
    requires l.file < |l.files|
    ensures Content(Appended(l, k), f) ==
            if f == Some(l.file) then Content(l, f) + Range(l.next, l.next + k) else Content(l, f)
    ensures var a := Appended(l, k);
            && |a.files| == |l.files| && a.file == l.file && a.cur == l.cur && a.prev == l.prev
            && a.pending == l.pending && a.next == l.next + k
  {
    hide Range;
  }

  lemma HoldingAppended(l: Log, p: Option<nat>, c: Option<nat>, since: nat, start: nat, joined: bool, k: nat)
    requires Inv(l) && Holding(l, p, c, since, start, joined)
    ensures Holding(Appended(l, k), p, c, since, start, joined)
  {
    hide Inv, Range, Held, Content, Appended;
    HandleIsFile(l);
    AppendedContent(l, k, p);
    AppendedContent(l, k, c);
    HeldGrows(Content(l, p), Content(l, c), l.next, since, start, joined, TargetOf(l, p, c), k);
  }

  lemma HandleIsFile(l: Log)
    requires Inv(l)
    ensures l.file < |l.files|
  {
  }

  lemma HeldGrows(first: seq<nat>, second: seq<nat>, next: nat, since: nat, start: nat, joined: bool, to: Target,
                  k: nat)
    requires Held(first, second, next, since, start, joined, to)
    ensures var more := Range(next, next + k);
            Held(if to.First? then first + more else first, if to.Second? then second + more else second, next + k,
                 since, start, joined, to)
  {
    hide Runs, Gapless, NotBefore, EndsAt, Range;
    RunsAppended(first, second, next, k);
    if to.First? {
      StartsAppended(first, since, next, k);
      EndsAppended(first, next, k);
      if joined {
        GaplessAppended(first, second, start, next, k);
      }
    } else if to.Second? {
      StartsAppended(second, since, next, k);
      LastAppended(second, start, next, k);
      EndsAppended(second, next, k);
      RangeLength(next, next + k);
      if joined {
        GaplessAppended(first, second, start, next, k);
      }
    }
  }

  lemma LastAppended(s: seq<nat>, start: nat, next: nat, k: nat)
    requires start <= next && (s != [] ==> s[|s| - 1] + 1 >= start)
    ensures var more := s + Range(next, next + k); more != [] ==> more[|more| - 1] + 1 >= start
  {
  }

  lemma HoldingRotated(l: Log, p: Option<nat>, c: Option<nat>, since: nat, start: nat, joined: bool, opensNew: bool)
    requires Inv(l) && !l.pending && Holding(l, p, c, since, start, joined)
    ensures Holding(Rotated(l, opensNew), p, c, since, start, joined)
  {
    hide Segments, EndsAt, Held;
    HeldMovesOn(Content(l, p), Content(l, c), l.next, since, start, joined, TargetOf(l, p, c));
  }

  lemma HoldingAnySize(l: Log, size: nat, p: Option<nat>, c: Option<nat>, since: nat, start: nat, joined: bool)
    requires Inv(l) && Holding(l, p, c, since, start, joined)
    ensures Inv(l.(size := size)) && Holding(l.(size := size), p, c, since, start, joined)
  {
    hide Segments, EndsAt, Held;
  }

  lemma WriteKeepsHolding(l: Log, e: Event, p: Option<nat>, c: Option<nat>, since: nat, start: nat, joined: bool)
    requires Inv(l) && e.Write? && Holding(l, p, c, since, start, joined)
    ensures Holding(Wrote(l, e), p, c, since, start, joined)
  {
    hide Inv, Holding, Content, Reopened, Appended, Rotated;
    if !Dropped(l, e) {
      var ready := Retried(l, e);
      ReopenKeepsInv(l);
      HoldingReopened(l, p, c, since, start, joined);
      var k := if Fails(e) then e.failsAt.value else e.n;
      AppendKeepsInv(ready, k);
      HoldingAppended(ready, p, c, since, start, joined, k);
      var a := Appended(ready, k);
      var full := a.(size := ready.size + e.n);
      HoldingAnySize(a, full.size, p, c, since, start, joined);
      if !Fails(e) && full.size >= SEGMENT_CAP && !full.pending && e.renames {
        HoldingRotated(full, p, c, since, start, joined, e.opensNew);
      }
    }
  }

  lemma HoldingTruncated(l: Log, p: Option<nat>, c: Option<nat>, since: nat, start: nat)
    requires Inv(l) && Holding(l, p, c, since, start, false)
    ensures Holding(Truncated(l), p, c, since, start, false)
  {
    hide Segments, EndsAt, Held;
    var t := Truncated(l);
    assert Content(t, p) == Content(l, p);
    assert Content(t, c) == Content(l, c) || Content(t, c) == [];
    HeldEmptied(Content(l, p), Content(l, c), l.next, since, start, TargetOf(l, p, c));
  }

  lemma HeldEmptied(first: seq<nat>, second: seq<nat>, next: nat, since: nat, start: nat, to: Target)
    requires Held(first, second, next, since, start, false, to)
    ensures Held(first, [], next, since, start, false, to)
  {
  }

  lemma ClearKeepsHolding(l: Log, e: Event, p: Option<nat>, c: Option<nat>, since: nat, start: nat)
    requires Inv(l) && e.Clear? && Holding(l, p, c, since, start, false)
    ensures Holding(Cleared(l, e), p, c, since, start, false)
  {
    hide Inv, Truncated, Reopened, Holding;
    if e.truncates {
      TruncatedContent(l);
      TruncatedKeepsInv(l);
      HoldingTruncated(l, p, c, since, start);
      if e.opens {
        HoldingEmptied(Truncated(l), p, c, since, start, l.next, e.removes);
      }
    }
  }

  lemma HoldingEmptied(l: Log, p: Option<nat>, c: Option<nat>, since: nat, start: nat, cleared: nat, removes: bool)
    requires Inv(l) && l.cur.Some? && Content(l, l.cur) == [] && Holding(l, p, c, since, start, false)
    ensures Holding(Reopened(l).(since := cleared, prev := if removes then None else l.prev), p, c, since, start, false)
  {
    hide Segments, EndsAt, Held;
    HeldMovesOn(Content(l, p), Content(l, c), l.next, since, start, false, TargetOf(l, p, c));
  }

  lemma StepKeepsHolding(l: Log, e: Event, p: Option<nat>, c: Option<nat>, since: nat, start: nat, joined: bool)
    requires Inv(l) && !e.Restart? && (joined ==> e.Write?) && Holding(l, p, c, since, start, joined)
    ensures Holding(Next(l, e), p, c, since, start, joined)
  {
    hide Inv, Holding, Wrote, Cleared;
    if e.Write? {
      WriteKeepsHolding(l, e, p, c, since, start, joined);
    } else {
      ClearKeepsHolding(l, e, p, c, since, start);
    }
  }

  lemma {:induction false} HoldingRun(l: Log, events: seq<Event>, p: Option<nat>, c: Option<nat>, since: nat,
                                      start: nat, joined: bool)
    requires Inv(l) && Holding(l, p, c, since, start, joined)
    requires forall e :: e in events ==> !e.Restart? && (joined ==> e.Write?)
    ensures Inv(Run(l, events)) && Holding(Run(l, events), p, c, since, start, joined)
    ensures Content(l, p) <= Content(Run(l, events), p) && (joined ==> Content(l, c) <= Content(Run(l, events), c))
    ensures p != Some(l.file) ==> Content(Run(l, events), p) == Content(l, p) && p != Some(Run(l, events).file)
    decreases |events|
  {
    hide Inv, Holding, Next, Content;
    if events != [] {
      StepKeepsInv(l, events[0]);
      StepKeepsHolding(l, events[0], p, c, since, start, joined);
      HeldOnlyGrows(l, events[0], p, c, since, start, joined);
      HoldingRun(Next(l, events[0]), events[1..], p, c, since, start, joined);
    }
  }

  predicate IsFile(l: Log, f: Option<nat>) { f.Some? ==> f.value < |l.files| }

  /** A file that is neither written nor the active one. */
  predicate IsIdle(l: Log, f: Option<nat>) { IsFile(l, f) && f != Some(l.file) && (f.Some? ==> l.cur != f) }

  lemma ReopenedKeeps(l: Log, f: Option<nat>)
    requires IsFile(l, f)
    ensures Content(Reopened(l), f) == Content(l, f) && IsFile(Reopened(l), f)
    ensures IsIdle(l, f) ==> IsIdle(Reopened(l), f)
  {
  }

  lemma RotatedKeeps(l: Log, f: Option<nat>, opensNew: bool)
    requires IsFile(l, f)
    ensures Content(Rotated(l, opensNew), f) == Content(l, f)
    ensures IsIdle(l, f) ==> IsIdle(Rotated(l, opensNew), f)
  {
  }

  /** A write adds to the file it goes to, and to no other. */
  lemma WriteOnlyAdds(l: Log, e: Event, f: Option<nat>)
    requires Inv(l) && e.Write? && IsFile(l, f)
    ensures Content(l, f) <= Content(Wrote(l, e), f)
    ensures IsIdle(l, f) ==> Content(Wrote(l, e), f) == Content(l, f) && IsIdle(Wrote(l, e), f)
  {
    hide Inv, Content, Reopened, Appended, Rotated, Range;
    if !Dropped(l, e) {
      var ready := Retried(l, e);
      ReopenKeepsInv(l);
      ReopenedKeeps(l, f);
      HandleIsFile(ready);
      var k := if Fails(e) then e.failsAt.value else e.n;
      AppendedContent(ready, k, f);
      var a := Appended(ready, k);
      var full := a.(size := ready.size + e.n);
      SizeIsNoContent(a, full.size, f);
      RotatedKeeps(full, f, e.opensNew);
    }
  }

  lemma SizeIsNoContent(l: Log, size: nat, f: Option<nat>)
    ensures Content(l.(size := size), f) == Content(l, f)
  {
  }

  lemma ClearKeepsOthers(l: Log, e: Event, f: Option<nat>)
    requires e.Clear? && IsFile(l, f) && (f.Some? ==> l.cur != f)
    ensures Content(Cleared(l, e), f) == Content(l, f)
    ensures IsIdle(l, f) ==> IsIdle(Cleared(l, e), f)
  {
  }

  /** The file that was the backup when the read began never loses a byte, and the other one only to a clear. */
  lemma HeldOnlyGrows(l: Log, e: Event, p: Option<nat>, c: Option<nat>, since: nat, start: nat, joined: bool)
    requires Inv(l) && !e.Restart? && (joined ==> e.Write?) && Holding(l, p, c, since, start, joined)
    ensures Content(l, p) <= Content(Next(l, e), p) && (joined ==> Content(l, c) <= Content(Next(l, e), c))
    ensures p != Some(l.file) ==> Content(Next(l, e), p) == Content(l, p) && p != Some(Next(l, e).file)
  {
    hide Inv, Content, Wrote, Cleared, Holding, Held;
    HoldingFiles(l, p, c, since, start, joined);
    if e.Write? {
      WriteOnlyAdds(l, e, p);
      WriteOnlyAdds(l, e, c);
    } else {
      ClearKeepsOthers(l, e, p);
    }
  }

  lemma HoldingFiles(l: Log, p: Option<nat>, c: Option<nat>, since: nat, start: nat, joined: bool)
    requires Inv(l) && Holding(l, p, c, since, start, joined)
    ensures IsFile(l, p) && IsFile(l, c) && (p.Some? ==> l.cur != p) && (p != Some(l.file) ==> IsIdle(l, p))
  {
    hide Segments, EndsAt, Held;
  }

  /** Whether what two files hold, read one after the other, is a tail of the log as of some moment of the read. */
  ghost predicate IsTailWithin(r: seq<nat>, since: nat, start: nat, end: nat) {
    exists n: nat :: start <= n <= end && Tail(r, since, n)
  }

  lemma GaplessIsTail(first: seq<nat>, second: seq<nat>, next: nat, since: nat, start: nat)
    requires Runs(first, second, next) && since <= start <= next && NotBefore(first, since) && NotBefore(second, since)
    requires second != [] ==> second[|second| - 1] + 1 >= start
    ensures IsTailWithin(first + second, since, start, next) <==> Gapless(first, second, start)
  {
    var r := first + second;
    if Gapless(first, second, start) {
      var n := if r == [] then start else r[|r| - 1] + 1;
      assert second != [] ==> r[|first|] == second[0];
      assert forall i :: 0 <= i < |r| ==> r[i] == n - |r| + i;
      assert Tail(r, since, n);
    } else if n: nat :| start <= n <= next && Tail(r, since, n) {
      TailIsGapless(first, second, since, start, n);
    }
  }

  lemma TailIsGapless(first: seq<nat>, second: seq<nat>, since: nat, start: nat, n: nat)
    requires start <= n && Tail(first + second, since, n)
    ensures Gapless(first, second, start)
  {
    var r := first + second;
    if first != [] {
      assert r[|first| - 1] == first[|first| - 1];
      assert second != [] ==> r[|first|] == second[0];
    }
  }

  /**
   * A read opens both files at once and reads them later, the backup after `first` and the active one after `second`,
   * without keeping writers and clears out. It shows a tail of the log as of some moment between its start and its
   * end if and only if no byte is missing behind what it got of the backup.
   */
  lemma ReadDuringEvents(l: Log, first: seq<Event>, second: seq<Event>)
    requires Inv(l) && ReadsTail(l) && forall e :: e in first + second ==> !e.Restart?
    ensures var middle := Run(l, first);
            var end := Run(middle, second);
            var backup, active := Content(middle, l.prev), Content(end, l.cur);
            && IsTailWithin(backup + active, l.since, l.next, end.next) <==> Gapless(backup, active, l.next)
  {
    hide Inv, Holding, Run, ReadsTail, Content, IsTailWithin, Gapless;
    forall e | e in first || e in second ensures !e.Restart? {
      assert e in first + second;
    }
    HoldingStarts(l);
    HoldingLoosened(l, l.prev, l.cur, l.since, l.next);
    HoldingRun(l, first, l.prev, l.cur, l.since, l.next, false);
    var middle := Run(l, first);
    HoldingRun(middle, second, l.prev, l.cur, l.since, l.next, false);
    var end := Run(middle, second);
    HoldingParts(end, l.prev, l.cur, l.since, l.next, Content(middle, l.prev));
    GaplessIsTail(Content(middle, l.prev), Content(end, l.cur), end.next, l.since, l.next);
  }

  lemma HoldingLoosened(l: Log, p: Option<nat>, c: Option<nat>, since: nat, start: nat)
    requires Holding(l, p, c, since, start, true)
    ensures Holding(l, p, c, since, start, false)
  {
  }

  lemma HoldingParts(l: Log, p: Option<nat>, c: Option<nat>, since: nat, start: nat, first: seq<nat>)
    requires Holding(l, p, c, since, start, false) && first <= Content(l, p)
    ensures var second := Content(l, c);
            && Runs(first, second, l.next) && since <= start <= l.next && NotBefore(first, since)
            && NotBefore(second, since) && (second != [] ==> second[|second| - 1] + 1 >= start)
  {
    var all := Content(l, p);
    if first != [] {
      assert first[|first| - 1] == all[|first| - 1] <= all[|all| - 1] && first[0] == all[0];
    }
  }

  /**
   * While only writes and rotations go on, that is so if and only if the backup got no more bytes between the two
   * reads, or nothing was read of one of the files. It got none if an active file was open when the read began.
   */
  lemma ReadDuringWrites(l: Log, first: seq<Event>, second: seq<Event>)
    requires Inv(l) && ReadsTail(l) && forall e :: e in first + second ==> e.Write?
    ensures var middle := Run(l, first);
            var end := Run(middle, second);
            var backup, active := Content(middle, l.prev), Content(end, l.cur);
            && (IsTailWithin(backup + active, l.since, l.next, end.next) <==>
                backup == Content(end, l.prev) || backup == [] || active == [])
            && (!l.pending ==> backup == Content(end, l.prev))
  {
    hide Inv, Holding, Run, ReadsTail, Content, IsTailWithin;
    forall e | e in first || e in second ensures e.Write? {
      assert e in first + second;
    }
    HoldingStarts(l);
    HoldingRun(l, first, l.prev, l.cur, l.since, l.next, true);
    var middle := Run(l, first);
    HoldingRun(middle, second, l.prev, l.cur, l.since, l.next, true);
    var end := Run(middle, second);
    assert !l.pending ==> l.prev != Some(l.file) by { ActiveIsOpen(l); }
    ReadDuringEvents(l, first, second);
    HoldingIsGapless(middle, l.prev, l.cur, l.since, l.next);
    HoldingIsGapless(end, l.prev, l.cur, l.since, l.next);
    GaplessPrefix(Content(middle, l.prev), Content(end, l.prev), Content(middle, l.cur), Content(end, l.cur), l.next);
  }

  lemma ActiveIsOpen(l: Log)
    requires Inv(l)
    ensures !l.pending ==> l.prev != Some(l.file)
  {
  }

  lemma HoldingIsGapless(l: Log, p: Option<nat>, c: Option<nat>, since: nat, start: nat)
    requires Holding(l, p, c, since, start, true)
    ensures Gapless(Content(l, p), Content(l, c), start) && Contiguous(Content(l, p))
  {
  }

  lemma GaplessPrefix(part: seq<nat>, all: seq<nat>, before: seq<nat>, after: seq<nat>, start: nat)
    requires part <= all && before <= after && Contiguous(all)
    requires Gapless(part, before, start) && Gapless(all, after, start)
    ensures Gapless(part, after, start) <==> part == all || part == [] || after == []
  {
    if part != [] && after != [] && Gapless(part, after, start) {
      assert part[|part| - 1] == all[|part| - 1];
    }
  }

  /** A clear during a read: the byte written after it follows the old backup, and what stood between is missing. */
  lemma ReadDuringClearHasAHole(l: Log, removes: bool)
    requires Inv(l) && ReadsTail(l) && !l.pending && Content(l, l.prev) != [] && Content(l, l.cur) != []
    ensures var end := Run(l, [Clear(true, true, removes), Write(1, true, None, true, true)]);
            && Content(end, l.cur) == [l.next]
            && !IsTailWithin(Content(l, l.prev) + Content(end, l.cur), l.since, l.next, end.next)
  {
    hide Inv, IsTailWithin, Next;
    var clear, write := Clear(true, true, removes), Write(1, true, None, true, true);
    assert [clear, write][1..] == [write] && [write][1..] == [];
    assert Run(l, [clear, write]) == Run(Next(l, clear), [write]) == Run(Next(Next(l, clear), write), []);
    WriteAfterClear(l, removes);
    ReadDuringEvents(l, [], [clear, write]);
    assert [] + [clear, write] == [clear, write];
    LastOfBackup(l);
  }

  lemma LastOfBackup(l: Log)
    requires Inv(l) && ReadsTail(l) && Content(l, l.prev) != [] && Content(l, l.cur) != []
    ensures var prev := Content(l, l.prev); prev[|prev| - 1] + 1 < l.next
  {
    var prev, cur := Content(l, l.prev), Content(l, l.cur);
    assert Reading(l)[|prev| - 1] == prev[|prev| - 1] && Reading(l)[|prev|] == cur[0];
  }

  lemma WriteAfterClear(l: Log, removes: bool)
    requires Inv(l) && !l.pending
    ensures var end := Next(Next(l, Clear(true, true, removes)), Write(1, true, None, true, true));
            Content(end, l.cur) == [l.next]
  {
    hide Segments, EndsAt, Range;
    RangeOfOne(l.next);
    assert [] + [l.next] == [l.next];
  }

  const FRESH := Log([[]], Some(0), None, 0, 0, false, 0, 0)

  /** The hole: a clear empties the active file, cannot open it again, and logging goes on behind the older backup. */
  lemma ClearCanLeaveAHole()
    ensures var events := [
              Write(SEGMENT_CAP, true, None, true, true), Write(1, true, None, true, true),
              Clear(true, false, true), Write(1, true, None, true, true)];
            Inv(FRESH) && ReadsTail(FRESH) &&
            Reading(Run(FRESH, events)) == Range(0, SEGMENT_CAP) + [SEGMENT_CAP + 1]
  {
    var one := Write(1, true, None, true, true);
    FreshReadsTail();
    HoleIsCleared(Range(0, SEGMENT_CAP));
    HoleIsRead(Range(0, SEGMENT_CAP));
    hide Inv, ReadsTail, Range, Next, Reading, Run;
    RunOfFour(FRESH, Write(SEGMENT_CAP, true, None, true, true), one, Clear(true, false, true), one);
    FirstFill(FRESH);
    SmallWrite(Log([Range(0, SEGMENT_CAP), []], Some(1), Some(0), 1, 0, false, SEGMENT_CAP, 0));
    SmallWrite(Log([Range(0, SEGMENT_CAP), []], Some(1), Some(0), 1, 1, false, SEGMENT_CAP + 1, 0));
  }

  lemma HoleIsCleared(backup: seq<nat>)
    ensures Next(Log([backup, [SEGMENT_CAP]], Some(1), Some(0), 1, 1, false, SEGMENT_CAP + 1, 0),
                 Clear(true, false, true)) ==
            Log([backup, []], Some(1), Some(0), 1, 1, false, SEGMENT_CAP + 1, 0)
  {
  }

  lemma HoleIsRead(backup: seq<nat>)
    ensures Reading(Log([backup, [SEGMENT_CAP + 1]], Some(1), Some(0), 1, 2, false, SEGMENT_CAP + 2, 0)) ==
            backup + [SEGMENT_CAP + 1]
  {
  }

  lemma FreshReadsTail()
    ensures Inv(FRESH) && ReadsTail(FRESH)
  {
  }

  lemma FirstFill(l: Log)
    requires l == FRESH
    ensures Next(l, Write(SEGMENT_CAP, true, None, true, true)) ==
            Log([Range(0, SEGMENT_CAP), []], Some(1), Some(0), 1, 0, false, SEGMENT_CAP, 0)
  {
    hide Range;
    var full := Range(0, SEGMENT_CAP);
    var a := Appended(l, SEGMENT_CAP).(size := SEGMENT_CAP);
    assert a == Log([full], Some(0), None, 0, SEGMENT_CAP, false, SEGMENT_CAP, 0) by {
      assert [] + full == full;
    }
    assert Rotated(a, true).files == [full, []];
  }

  /** One byte written to an empty active file, next to a backup. */
  lemma SmallWrite(l: Log)
    requires |l.files| == 2 && l.file == 1 && l.files[1] == [] && !l.pending && l.size <= 1
    ensures Next(l, Write(1, true, None, true, true)) ==
            l.(files := [l.files[0], [l.next]], size := l.size + 1, next := l.next + 1)
  {
    RangeOfOne(l.next);
    hide Range;
    var written := [] + [l.next];
    assert written == [l.next];
    assert l.files[1 := written] == [l.files[0], [l.next]];
  }

  lemma RunOfFour(l: Log, e1: Event, e2: Event, e3: Event, e4: Event)
    ensures Run(l, [e1, e2, e3, e4]) == Next(Next(Next(Next(l, e1), e2), e3), e4)
  {
    hide Next;
    assert [e1, e2, e3, e4][1..] == [e2, e3, e4] && [e2, e3, e4][1..] == [e3, e4] && [e3, e4][1..] == [e4] &&
           [e4][1..] == [];
    assert Run(l, [e1, e2, e3, e4]) == Run(Next(l, e1), [e2, e3, e4]);
    assert Run(Next(l, e1), [e2, e3, e4]) == Run(Next(Next(l, e1), e2), [e3, e4]);
    assert Run(Next(Next(l, e1), e2), [e3, e4]) == Run(Next(Next(Next(l, e1), e2), e3), [e4]);
  }

  lemma RangeOfOne(from: nat)
    ensures Range(from, from + 1) == [from]
  {
  }

  /**
   * A read while a new active file is still to be opened: a clear that could not open it left an empty one, the
   * backup gets one more byte after it was read, and the active file the next one before it is read.
   */
  lemma ReadWhilePendingCanMissAByte()
    ensures var l := Run(FRESH, [Write(SEGMENT_CAP, true, None, true, false), Clear(true, false, true)]);
            var end := Run(l, [Write(1, false, None, true, true), Write(1, true, None, true, true)]);
            && Inv(l) && ReadsTail(l) && l.pending
            && Content(l, l.prev) + Content(end, l.cur) == Range(0, SEGMENT_CAP) + [SEGMENT_CAP + 1]
            && !IsTailWithin(Content(l, l.prev) + Content(end, l.cur), l.since, l.next, end.next)
  {
    hide Inv, ReadsTail, Next, Range, IsTailWithin;
    var fill, clear := Write(SEGMENT_CAP, true, None, true, false), Clear(true, false, true);
    var late, next := Write(1, false, None, true, true), Write(1, true, None, true, true);
    var l := PendingLog(SEGMENT_CAP);
    RunOfTwo(FRESH, fill, clear);
    PendingFill();
    PendingIsSound();
    RunOfTwo(l, late, next);
    var end := Run(l, [late, next]);
    LateWrites(l, SEGMENT_CAP);
    RangeLength(0, SEGMENT_CAP);
    ReadDuringWrites(l, [], [late, next]);
    assert [] + [late, next] == [late, next];
    RangeMore(0, SEGMENT_CAP);
  }

  /** The backup holds the first `n` bytes, and an empty active file waits to be opened. */
  function PendingLog(n: nat): Log { Log([Range(0, n), []], Some(1), Some(0), 0, n, true, n, 0) }

  lemma RunOfTwo(l: Log, e1: Event, e2: Event)
    ensures Run(l, [e1, e2]) == Next(Next(l, e1), e2)
  {
    hide Next;
    assert [e1, e2][1..] == [e2] && [e2][1..] == [];
    assert Run(l, [e1, e2]) == Run(Next(l, e1), [e2]) == Run(Next(Next(l, e1), e2), []);
  }

  lemma PendingFill()
    ensures Next(Next(FRESH, Write(SEGMENT_CAP, true, None, true, false)), Clear(true, false, true)) ==
            PendingLog(SEGMENT_CAP)
  {
    hide Range;
    var full := Range(0, SEGMENT_CAP);
    var a := Appended(FRESH, SEGMENT_CAP).(size := SEGMENT_CAP);
    assert a == Log([full], Some(0), None, 0, SEGMENT_CAP, false, SEGMENT_CAP, 0) by {
      assert [] + full == full;
    }
    var r := Rotated(a, false);
    assert r == Log([full], None, Some(0), 0, SEGMENT_CAP, true, SEGMENT_CAP, 0);
    assert Created(r).files == [full, []];
    assert [full, []][1 := []] == [full, []];
  }

  lemma PendingIsSound()
    ensures Inv(PendingLog(SEGMENT_CAP)) && ReadsTail(PendingLog(SEGMENT_CAP))
  {
    var full := Range(0, SEGMENT_CAP);
    assert full + [] == full;
  }

  /** A byte added to the backup, then one to the active file. */
  lemma LateWrites(l: Log, n: nat)
    requires l == PendingLog(n) && n < 2 * SEGMENT_CAP
    ensures var end := Next(Next(l, Write(1, false, None, true, true)), Write(1, true, None, true, true));
            Content(end, l.prev) == Range(0, n) + [n] && Content(end, l.cur) == [n + 1]
  {
    hide Range;
    RangeOfOne(n);
    RangeOfOne(n + 1);
    var m := Next(l, Write(1, false, None, true, true));
    assert m == Log([Range(0, n) + [n], []], Some(1), Some(0), 0, n + 1, true, n + 1, 0);
    assert [] + [n + 1] == [n + 1];
  }

  lemma RangeMore(from: nat, to: nat)
    requires from <= to
    ensures Range(from, to) + [to] != Range(from, to)
  {
    assert |Range(from, to) + [to]| == |Range(from, to)| + 1;
  }

  // --- sizes ---

  /** Writes are whole, renames succeed and a restart learns the size; opening and removing files may fail. */
  predicate Bounded(e: Event, maxEvent: nat) {
    match e
    case Write(n, _, _, renames, _) => n <= maxEvent && !Fails(e) && renames
    case Clear(_, _, _) => true
    case Restart(sizeKnown) => sizeKnown
  }

  predicate Opens(e: Event) { e.Write? ==> e.opensNew }

  /**
   * The active segment stays below its cap, the backup below the cap plus one event, or twice the cap plus one while no
   * file can be opened.
   */
  predicate SizeInv(l: Log, maxEvent: nat, opens: bool) {
    && |Content(l, Some(l.file))| <= l.size
    && |Content(l, l.cur)| < SEGMENT_CAP
    && |Content(l, l.prev)| < (if opens then SEGMENT_CAP else 2 * SEGMENT_CAP) + maxEvent
    && (if l.pending then !opens && l.size < 2 * SEGMENT_CAP + maxEvent else l.size < SEGMENT_CAP)
  }

  lemma StepKeepsSizes(l: Log, e: Event, maxEvent: nat, opens: bool)
    requires Inv(l) && SizeInv(l, maxEvent, opens) && Bounded(e, maxEvent) && (opens ==> Opens(e))
    ensures SizeInv(Next(l, e), maxEvent, opens)
  {
    hide Segments, EndsAt, Range;
    match e {
      case Write(_, _, _, _, _) => WriteKeepsSizes(l, e, maxEvent, opens);
      case Clear(_, _, _) =>
        var t := Truncated(l);
        assert e.truncates ==> Content(t, t.prev) == Content(l, l.prev) && Content(t, t.cur) == [];
      case Restart(_) =>
        var r := Restarted(l, e);
        assert Content(r, r.cur) == Content(l, l.cur) && Content(r, r.prev) == Content(l, l.prev);
    }
  }

  lemma WriteKeepsSizes(l: Log, e: Event, maxEvent: nat, opens: bool)
    requires Inv(l) && SizeInv(l, maxEvent, opens) && e.Write? && Bounded(e, maxEvent) && (opens ==> Opens(e))
    ensures SizeInv(Wrote(l, e), maxEvent, opens)
  {
    hide Inv, Content, Appended, Reopened, Rotated;
    if !Dropped(l, e) {
      var ready := Retried(l, e);
      ReopenKeepsSizes(l, maxEvent, opens);
      ReopenKeepsInv(l);
      AppendedSizes(ready, e.n);
      var a := Appended(ready, e.n);
      var full := a.(size := ready.size + e.n);
      SizeIsNoMatter(a, full.size);
      if !ready.pending {
        RotatedSizes(full, e.opensNew);
      }
    }
  }

  lemma ReopenKeepsSizes(l: Log, maxEvent: nat, opens: bool)
    requires Inv(l) && SizeInv(l, maxEvent, opens)
    ensures l.pending ==> SizeInv(Reopened(l), maxEvent, opens) && !Reopened(l).pending
  {
    hide Segments, EndsAt;
    assert Content(Reopened(l), l.prev) == Content(l, l.prev);
  }

  lemma AppendedSizes(l: Log, n: nat)
    requires Inv(l)
    ensures var a := Appended(l, n);
            && a.pending == l.pending && a.file == l.file < |a.files| && a.cur == l.cur && a.prev == l.prev
            && |Content(a, a.prev)| == |Content(l, l.prev)| + (if l.pending then n else 0)
            && |Content(a, a.cur)| == |Content(l, l.cur)| + (if l.pending then 0 else n)
            && (if l.pending then a.prev == Some(a.file) else a.cur == Some(a.file))
  {
    hide Segments, EndsAt, Range;
    RangeLength(l.next, l.next + n);
  }

  lemma RotatedSizes(l: Log, opensNew: bool)
    requires l.cur == Some(l.file) && l.file < |l.files|
    ensures var r := Rotated(l, opensNew);
            && Content(r, r.prev) == Content(l, l.cur) && Content(r, r.cur) == [] && r.pending == !opensNew
            && (opensNew ==> !r.pending && r.size == 0 && Content(r, Some(r.file)) == [])
            && (!opensNew ==> r.size == l.size && r.file == l.file && Content(r, Some(r.file)) == Content(l, l.cur))
  {
  }

  lemma {:induction false} SizesAlongRun(l: Log, events: seq<Event>, maxEvent: nat, opens: bool)
    requires Inv(l) && SizeInv(l, maxEvent, opens)
    requires forall e :: e in events ==> Bounded(e, maxEvent) && (opens ==> Opens(e))
    ensures SizeInv(Run(l, events), maxEvent, opens)
    decreases |events|
  {
    hide Inv, SizeInv, Next, Bounded;
    if events != [] {
      StepKeepsInv(l, events[0]);
      StepKeepsSizes(l, events[0], maxEvent, opens);
      SizesAlongRun(Next(l, events[0]), events[1..], maxEvent, opens);
    }
  }

  lemma FreshIsSmall(maxEvent: nat, opens: bool)
    ensures Inv(FRESH) && SizeInv(FRESH, maxEvent, opens)
  {
  }

  /** Sizes along a run from an empty log; with `opens` every rotation gets its new file. */
  lemma RunKeepsSizes(events: seq<Event>, maxEvent: nat, opens: bool)
    requires forall e :: e in events ==> Bounded(e, maxEvent) && (opens ==> Opens(e))
    ensures SizeInv(Run(FRESH, events), maxEvent, opens)
  {
    hide Inv, SizeInv, Bounded;
    FreshIsSmall(maxEvent, opens);
    SizesAlongRun(FRESH, events, maxEvent, opens);
  }

  // --- the store ---

  /**
   * The store as the program keeps it: an open file, the size it counts, and whether a new file is still to be opened.
   */
  class Store {
    var files: seq<seq<nat>>
    var cur: Option<nat>
    var prev: Option<nat>
    var file: nat
    var size: nat
    var reopenPending: bool
    ghost var next: nat
    ghost var since: nat

    ghost function Now(): Log
      reads this
    {
      Log(files, cur, prev, file, size, reopenPending, next, since)
    }

    constructor ()
      ensures Now() == FRESH && Inv(Now())
    {
      files, cur, prev, file, size, reopenPending, next, since := [[]], Some(0), None, 0, 0, false, 0, 0;
    }

    method OpenAppend()
      modifies this
      ensures Now() == Created(old(Now())) && cur.Some?
    {
      if cur.None? {
        files, cur := files + [[]], Some(|files|);
      }
    }

    method Reopen()
      modifies this
      ensures Now() == Reopened(old(Now()))
    {
      OpenAppend();
      file, size, reopenPending := cur.value, 0, false;
    }

    method WriteAll(bytes: seq<nat>, accepted: nat)
      requires accepted <= |bytes| && bytes[..accepted] == Range(next, next + accepted) && file < |files|
      modifies this
      ensures Now() == Appended(old(Now()), accepted)
    {
      files := files[file := files[file] + bytes[..accepted]];
      next := next + accepted;
    }

    method Rotate(opensNew: bool)
      modifies this
      ensures Now() == Rotated(old(Now()), opensNew)
    {
      prev, cur := cur, None;
      if opensNew {
        Reopen();
      } else {
        reopenPending := true;
      }
    }

    method WriteBytes(bytes: seq<nat>, e: Event) returns (written: Option<nat>)
      requires Inv(Now()) && e.Write? && bytes == Range(next, next + e.n)
      modifies this
      ensures Inv(Now()) && Now() == Wrote(old(Now()), e)
      ensures written == if Fails(e) && !Dropped(old(Now()), e) then None else Some(|bytes|)
    {
      hide Inv, Content, Reopened, Rotated, Range;
      ghost var start := Now();
      WriteKeepsInv(start, e);
      HandleIsOpen(start, e);
      if reopenPending {
        if e.reopens {
          Reopen();
        } else if size >= SEGMENT_CAP * 2 {
          return Some(|bytes|);
        }
      }
      var accepted := if Fails(e) then e.failsAt.value else |bytes|;
      RangePrefix(next, e.n, accepted);
      WriteAll(bytes, accepted);
      if Fails(e) {
        return None;
      }
      size := size + |bytes|;
      if size >= SEGMENT_CAP && !reopenPending {
        if e.renames {
          Rotate(e.opensNew);
        }
      }
      written := Some(|bytes|);
    }

    lemma RangePrefix(from: nat, n: nat, k: nat)
      requires k <= n
      ensures |Range(from, from + n)| == n && Range(from, from + n)[..k] == Range(from, from + k)
    {
    }

    lemma HandleIsOpen(l: Log, e: Event)
      requires Inv(l) && e.Write?
      ensures l.file < |l.files| && Retried(l, e).file < |Retried(l, e).files|
      ensures Retried(l, e).next == l.next && |Range(l.next, l.next + e.n)| == e.n
    {
      hide Segments, EndsAt;
    }

    /** `prevRead` and `curRead` tell whether a file that is there can be opened and read. */
    method Read(prevRead: bool, curRead: bool) returns (out: seq<nat>)
      requires Inv(Now())
      ensures out == Shown(Now(), prevRead, curRead)
      ensures prevRead && curRead ==> out == Reading(Now())
    {
      hide Segments, EndsAt;
      out := [];
      if prev.Some? && prevRead {
        out := out + files[prev.value];
      }
      if cur.Some? && curRead {
        out := out + files[cur.value];
      }
    }

    method ClearLog(e: Event) returns (ok: bool)
      requires Inv(Now()) && e.Clear?
      modifies this
      ensures Inv(Now()) && Now() == Cleared(old(Now()), e)
      ensures ok == (e.truncates && e.opens)
    {
      ClearKeepsInv(Now(), e);
      hide Segments, EndsAt;
      if !e.truncates {
        return false;
      }
      OpenAppend();
      files := files[cur.value := []];
      if !e.opens {
        return false;
      }
      Reopen();
      since := next;
      if e.removes {
        prev := None;
      }
      ok := true;
    }
  }
}
