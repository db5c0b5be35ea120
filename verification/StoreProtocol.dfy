/**
 * The cross-process JSON store as a state machine: threads of several processes take the process mutex
 * and the file lock, read, write a temporary file, rename it and release, and may crash at any step.
 */
module StoreProtocol {
  import opened Common

  type Doc = string

  /** What a file holds: nothing but white space, a well-formed document, or something unreadable. */
  datatype Content = Blank | Json(doc: Doc) | Broken(bytes: string)

  datatype Thread = Thread(pid: nat, tid: nat)

  datatype TempName = TempName(pid: nat, number: nat)

  datatype Job = Read | Update(f: Doc -> Doc)

  /** How a call came back; a read tells after how many commits its value was current, if it found the file. */
  datatype Outcome = ReadOk(doc: Doc, at: nat, missed: bool) | Committed | Errored

  /** An update under way: the change, the document it is applied to, and whether the existence test said "no file". */
  datatype Change = Change(f: Doc -> Doc, base: Doc, missed: bool)

  /** Where a thread stands in `read` or `update`. */
  datatype Pc =
    | Idle
    | Waiting(job: Job)
    | InMutex(job: Job)
    | Locked(job: Job)
    | Loaded(job: Job, value: Doc, missed: bool)
    | Ready(change: Change, content: Content)
    | Writing(change: Change, content: Content, temp: TempName)
    | Synced(change: Change, content: Content, temp: TempName)
    | Unlocking(outcome: Outcome)
    | Unlocked(outcome: Outcome)
    | Done(outcome: Outcome)

  /** A commit: which call of which thread, its change, and the file it replaced. */
  datatype Entry = Entry(th: Thread, call: nat, change: Change, over: Option<Content>)

  /** `calls` counts the calls each thread has started, `since` the commits before its current one. */
  datatype State = State(
    start: Option<Content>, fallback: Doc, disk: Disk,
    lockHolder: Option<Thread>, mutex: map<nat, nat>, counter: map<nat, nat>,
    pc: map<Thread, Pc>, calls: map<Thread, nat>, since: map<Thread, nat>, log: seq<Entry>)

  /** The store file, what was set aside as unreadable, and the temporary files. */
  datatype Disk = Disk(file: Option<Content>, backups: seq<Content>, temps: map<TempName, Content>)

  datatype Step =
    | Start(job: Job)
    | TakeMutex
    | OpenLockFails
    | TakeFileLock
    | Load
    | LoadMissed
    | LoadFails
    | FinishRead
    | Apply
    | SerializeFails
    | CreateTemp
    | CreateTempFails
    | WritePart(part: Content)
    | WriteAll
    | WriteFails(cleaned: bool)
    | Rename
    | RenameFails(cleaned: bool)
    | ReleaseFile
    | ReleaseMutex

  datatype Action = Act(th: Thread, step: Step) | Crash(pid: nat)

  function PcOf(s: State, th: Thread): Pc { if th in s.pc then s.pc[th] else Idle }

  function Number(m: map<Thread, nat>, th: Thread): nat { if th in m then m[th] else 0 }

  function NextTemp(s: State, pid: nat): TempName {
    TempName(pid, if pid in s.counter then s.counter[pid] else 0)
  }

  /** The document a file stands for when it is loaded. */
  function Meaning(file: Option<Content>, fallback: Doc): Doc {
    match file
    case Some(Json(d)) => d
    case _ => fallback
  }

  /** All committed changes applied to `d`, one to the result of the other. */
  function Fold(d: Doc, log: seq<Entry>): Doc {
    if log == [] then d else log[|log| - 1].change.f(Fold(d, log[..|log| - 1]))
  }

  /** What the last commit wrote. */
  function Latest(d: Doc, log: seq<Entry>): Doc {
    if log == [] then d else log[|log| - 1].change.f(log[|log| - 1].change.base)
  }

  // --- one step ---

  predicate Enabled(s: State, th: Thread, step: Step) {
    var pc := PcOf(s, th);
    match step
    case Start(_) => pc.Idle? || pc.Done?
    case TakeMutex => pc.Waiting? && th.pid !in s.mutex
    case OpenLockFails => pc.InMutex?
    case TakeFileLock => pc.InMutex? && s.lockHolder.None?
    case Load => pc.Locked?
    case LoadMissed => pc.Locked?
    case LoadFails => pc.Locked?
    case FinishRead => pc.Loaded? && pc.job.Read?
    case Apply => pc.Loaded? && pc.job.Update?
    case SerializeFails => pc.Loaded? && pc.job.Update?
    case CreateTemp => pc.Ready? && NextTemp(s, th.pid) !in s.disk.temps
    case CreateTempFails => pc.Ready?
    case WritePart(_) => pc.Writing?
    case WriteAll => pc.Writing?
    case WriteFails(_) => pc.Writing?
    case Rename => pc.Synced? && pc.temp in s.disk.temps
    case RenameFails(_) => pc.Synced?
    case ReleaseFile => pc.Unlocking?
    case ReleaseMutex => pc.Unlocked?
  }

  /** `LoadMissed` is an existence test that fails although the file may be there: the call goes on with the default. */
  function NextPc(s: State, th: Thread, step: Step): Pc
    requires Enabled(s, th, step)
  {
    var pc := PcOf(s, th);
    match step
    case Start(job) => Waiting(job)
    case TakeMutex => InMutex(pc.job)
    case OpenLockFails => Unlocked(Errored)
    case TakeFileLock => Locked(pc.job)
    case Load => Loaded(pc.job, Meaning(s.disk.file, s.fallback), false)
    case LoadMissed => Loaded(pc.job, s.fallback, true)
    case FinishRead => Unlocking(ReadOk(pc.value, |s.log|, pc.missed))
    case Apply => Ready(Change(pc.job.f, pc.value, pc.missed), Json(pc.job.f(pc.value)))
    case CreateTemp => Writing(pc.change, pc.content, NextTemp(s, th.pid))
    case WritePart(_) => pc
    case WriteAll => Synced(pc.change, pc.content, pc.temp)
    case Rename => Unlocking(Committed)
    case ReleaseFile => Unlocked(pc.outcome)
    case ReleaseMutex => Done(pc.outcome)
    case LoadFails => Unlocking(Errored)
    case SerializeFails => Unlocking(Errored)
    case CreateTempFails => Unlocking(Errored)
    case WriteFails(_) => Unlocking(Errored)
    case RenameFails(_) => Unlocking(Errored)
  }

  predicate IsBroken(file: Option<Content>) { file.Some? && file.value.Broken? }

  function Removed(d: Disk, temp: TempName, removed: bool): Disk {
    if removed then d.(temps := d.temps - {temp}) else d
  }

  /** An unreadable file is renamed to a backup. */
  function SetAside(d: Disk): Disk {
    if IsBroken(d.file) then d.(file := None, backups := d.backups + [d.file.value]) else d
  }

  /** Loading sets an unreadable file aside; a failed write removes its temp file unless that fails too. */
  function NextDisk(s: State, th: Thread, step: Step): Disk
    requires Enabled(s, th, step)
  {
    var d, pc := s.disk, PcOf(s, th);
    if step.Load? then SetAside(d)
    else if step.CreateTemp? then d.(temps := d.temps[NextTemp(s, th.pid) := Blank])
    else if step.WritePart? then d.(temps := d.temps[pc.temp := step.part])
    else if step.WriteAll? then d.(temps := d.temps[pc.temp := pc.content])
    else if step.WriteFails? || step.RenameFails? then Removed(d, pc.temp, step.cleaned)
    else if step.Rename? then Disk(Some(d.temps[pc.temp]), d.backups, d.temps - {pc.temp})
    else d
  }

  function NextHolder(s: State, th: Thread, step: Step): Option<Thread> {
    if step.TakeFileLock? then Some(th) else if step.ReleaseFile? then None else s.lockHolder
  }

  function NextMutex(s: State, th: Thread, step: Step): map<nat, nat> {
    if step.TakeMutex? then s.mutex[th.pid := th.tid]
    else if step.ReleaseMutex? then s.mutex - {th.pid}
    else s.mutex
  }

  function NextCounter(s: State, th: Thread, step: Step): map<nat, nat> {
    if step.CreateTemp? || step.CreateTempFails? then s.counter[th.pid := NextTemp(s, th.pid).number + 1] else s.counter
  }

  function Committing(s: State, th: Thread): Entry
    requires PcOf(s, th).Synced?
  {
    Entry(th, Number(s.calls, th), PcOf(s, th).change, s.disk.file)
  }

  /** The rename is the commit. */
  function NextLog(s: State, th: Thread, step: Step): seq<Entry>
    requires Enabled(s, th, step)
  {
    if step.Rename? then s.log + [Committing(s, th)] else s.log
  }

  function NextState(s: State, th: Thread, step: Step): State
    requires Enabled(s, th, step)
  {
    State(s.start, s.fallback, NextDisk(s, th, step), NextHolder(s, th, step), NextMutex(s, th, step),
          NextCounter(s, th, step), s.pc[th := NextPc(s, th, step)],
          if step.Start? then s.calls[th := Number(s.calls, th) + 1] else s.calls,
          if step.Start? then s.since[th := |s.log|] else s.since,
          NextLog(s, th, step))
  }

  /** The operating system drops what a dead process held; its temp files stay, its counter restarts. */
  function Crashed(s: State, pid: nat): State {
    s.(pc := map th | th in s.pc && th.pid != pid :: s.pc[th],
       mutex := s.mutex - {pid},
       counter := s.counter - {pid},
       lockHolder := if s.lockHolder.Some? && s.lockHolder.value.pid == pid then None else s.lockHolder)
  }

  predicate Possible(s: State, a: Action) { a.Act? ==> Enabled(s, a.th, a.step) }

  function After(s: State, a: Action): State
    requires Possible(s, a)
  {
    match a case Act(th, step) => NextState(s, th, step) case Crash(pid) => Crashed(s, pid)
  }

  predicate IsRun(s: State, actions: seq<Action>)
    decreases |actions|
  {
    actions != [] ==> Possible(s, actions[0]) && IsRun(After(s, actions[0]), actions[1..])
  }

  function FinalState(s: State, actions: seq<Action>): State
    requires IsRun(s, actions)
    decreases |actions|
  {
    if actions == [] then s else FinalState(After(s, actions[0]), actions[1..])
  }

  // --- what every step keeps ---

  predicate HasFileLock(pc: Pc) {
    pc.Locked? || pc.Loaded? || pc.Ready? || pc.Writing? || pc.Synced? || pc.Unlocking?
  }

  predicate HasMutex(pc: Pc) { HasFileLock(pc) || pc.InMutex? || pc.Unlocked? }

  ghost predicate InLog(s: State, th: Thread, call: nat) {
    exists i :: 0 <= i < |s.log| && s.log[i].th == th && s.log[i].call == call
  }

  ghost function Current(s: State): Doc { Latest(Meaning(s.start, s.fallback), s.log) }

  /** What a load that went on has in hand. */
  ghost predicate LoadedOk(s: State, value: Doc, missed: bool) { value == if missed then s.fallback else Current(s) }

  /** A finished call was committed exactly if it says so; a read saw a state no older than its start. */
  ghost predicate OutcomeOk(s: State, th: Thread, o: Outcome) {
    match o
    case Committed => InLog(s, th, Number(s.calls, th))
    case Errored => !InLog(s, th, Number(s.calls, th))
    case ReadOk(doc, at, missed) =>
      !InLog(s, th, Number(s.calls, th)) && Number(s.since, th) <= at <= |s.log| &&
      doc == if missed then s.fallback else Latest(Meaning(s.start, s.fallback), s.log[..at])
  }

  ghost predicate PcOk(s: State, th: Thread, pc: Pc) {
    if pc.Idle? then true
    else if pc.Unlocking? || pc.Unlocked? || pc.Done? then OutcomeOk(s, th, pc.outcome)
    else
      && !InLog(s, th, Number(s.calls, th)) && Number(s.since, th) <= |s.log|
      && (pc.Loaded? ==> LoadedOk(s, pc.value, pc.missed) && (!pc.missed ==> !IsBroken(s.disk.file)))
      && (pc.Ready? || pc.Writing? || pc.Synced? ==>
            && LoadedOk(s, pc.change.base, pc.change.missed) && (!pc.change.missed ==> !IsBroken(s.disk.file))
            && pc.content == Json(pc.change.f(pc.change.base)))
      && (pc.Writing? || pc.Synced? ==> pc.temp in s.disk.temps)
      && (pc.Synced? ==> s.disk.temps[pc.temp] == pc.content)
  }

  ghost predicate ThreadOk(s: State, th: Thread) {
    var pc := PcOf(s, th);
    && (HasFileLock(pc) <==> s.lockHolder == Some(th))
    && (HasMutex(pc) <==> th.pid in s.mutex && s.mutex[th.pid] == th.tid)
    && PcOk(s, th, pc)
  }

  /** Unreadable content was replaced before anything set it aside. */
  ghost predicate Buried(s: State) { exists i :: 0 <= i < |s.log| && IsBroken(s.log[i].over) }

  /**
   * The file is what the last commit wrote; unreadable content is kept or set aside once, unless a commit buried it.
   */
  ghost predicate FileOk(s: State) {
    && Meaning(s.disk.file, s.fallback) == Current(s)
    && (IsBroken(s.disk.file) ==> s.disk.file == s.start && s.disk.backups == [] && !Buried(s))
    && (IsBroken(s.start) && !IsBroken(s.disk.file) ==> s.disk.backups == if Buried(s) then [] else [s.start.value])
    && (!IsBroken(s.start) ==> s.disk.backups == [] && !Buried(s))
  }

  /** Every commit replaced what the one before it wrote, and was applied to that unless it missed the file. */
  ghost predicate EntryOk(s: State, i: nat)
    requires i < |s.log|
  {
    var e := s.log[i];
    && Meaning(e.over, s.fallback) == Latest(Meaning(s.start, s.fallback), s.log[..i])
    && e.change.base == (if e.change.missed then s.fallback else Meaning(e.over, s.fallback))
    && (IsBroken(e.over) ==> e.change.missed)
  }

  ghost predicate LogOk(s: State) { forall i :: 0 <= i < |s.log| ==> EntryOk(s, i) }

  ghost predicate CallsOk(s: State) {
    && (forall i :: 0 <= i < |s.log| ==> s.log[i].call <= Number(s.calls, s.log[i].th))
    && (forall i, j :: 0 <= i < j < |s.log| ==> (s.log[i].th, s.log[i].call) != (s.log[j].th, s.log[j].call))
  }

  ghost predicate Inv(s: State) {
    (forall th :: ThreadOk(s, th)) && FileOk(s) && LogOk(s) && CallsOk(s)
  }

  ghost predicate Initial(s: State) {
    && s.disk.file == s.start && s.disk.backups == [] && s.lockHolder == None && s.mutex == map[] && s.counter == map[]
    && s.pc == map[] && s.calls == map[] && s.since == map[] && s.log == []
  }

  lemma InitialInv(s: State)
    requires Initial(s)
    ensures Inv(s)
  {
  }

  /** A step that leaves the log, the file and the locks alone disturbs no other thread. */
  lemma OthersKeep(s: State, s': State, th: Thread, other: Thread)
    requires ThreadOk(s, other) && other != th && PcOf(s', other) == PcOf(s, other)
    requires Number(s'.calls, other) == Number(s.calls, other) && Number(s'.since, other) == Number(s.since, other)
    requires s'.start == s.start && s'.fallback == s.fallback
    requires s'.lockHolder == Some(other) <==> s.lockHolder == Some(other)
    requires other.pid in s'.mutex && s'.mutex[other.pid] == other.tid <==>
             other.pid in s.mutex && s.mutex[other.pid] == other.tid
    requires s'.log == s.log || (exists e: Entry :: e.th == th && s'.log == s.log + [e])
    requires HasFileLock(PcOf(s, other)) ==>
             s'.log == s.log && s'.disk.temps == s.disk.temps && s'.disk.file == s.disk.file
    ensures ThreadOk(s', other)
  {
    if s'.log != s.log {
      LogGrows(s, s', th, other);
    }
  }

  lemma LogGrows(s: State, s': State, th: Thread, other: Thread)
    requires exists e: Entry :: e.th == th && s'.log == s.log + [e]
    requires other != th
    ensures forall n :: InLog(s', other, n) == InLog(s, other, n)
    ensures |s'.log| == |s.log| + 1 && forall n :: 0 <= n <= |s.log| ==> s'.log[..n] == s.log[..n]
  {
    forall n | InLog(s, other, n) ensures InLog(s', other, n) {
      var i :| 0 <= i < |s.log| && s.log[i].th == other && s.log[i].call == n;
      assert s'.log[i] == s.log[i];
    }
  }

  predicate MovesLocks(step: Step) {
    step.TakeMutex? || step.TakeFileLock? || step.ReleaseFile? || step.ReleaseMutex?
  }

  lemma LocksKeepOthers(s: State, th: Thread, step: Step, other: Thread)
    requires Enabled(s, th, step) && ThreadOk(s, th) && ThreadOk(s, other) && other != th && MovesLocks(step)
    ensures ThreadOk(NextState(s, th, step), other)
  {
    hide PcOk, InLog, Latest;
    OthersKeep(s, NextState(s, th, step), th, other);
  }

  lemma WorkKeepsOthers(s: State, th: Thread, step: Step, other: Thread)
    requires Enabled(s, th, step) && ThreadOk(s, th) && ThreadOk(s, other) && other != th && !MovesLocks(step)
    ensures ThreadOk(NextState(s, th, step), other)
  {
    hide PcOk, InLog, Latest, HasMutex;
    var s' := NextState(s, th, step);
    if step.Rename? {
      assert s'.log == s.log + [Committing(s, th)];
    }
    OthersKeep(s, s', th, other);
  }

  lemma FoldAppend(d: Doc, log: seq<Entry>, e: Entry)
    ensures Fold(d, log + [e]) == e.change.f(Fold(d, log))
  {
    assert (log + [e])[..|log|] == log;
  }

  lemma Appended(s: State, s': State, e: Entry)
    requires s'.log == s.log + [e]
    ensures InLog(s', e.th, e.call)
  {
    assert s'.log[|s.log|] == e;
  }

  lemma FreshCall(s: State, th: Thread)
    requires CallsOk(s)
    ensures !InLog(s, th, Number(s.calls, th) + 1)
  {
  }

  lemma SameLog(s: State, s': State, th: Thread, call: nat)
    requires s.log == s'.log
    ensures InLog(s, th, call) == InLog(s', th, call)
  {
  }

  lemma StepKeepsOwnLocks(s: State, th: Thread, step: Step)
    requires Enabled(s, th, step) && ThreadOk(s, th)
    ensures var s' := NextState(s, th, step);
            var pc := PcOf(s', th);
            && (HasFileLock(pc) <==> s'.lockHolder == Some(th))
            && (HasMutex(pc) <==> th.pid in s'.mutex && s'.mutex[th.pid] == th.tid)
  {
    hide PcOk;
  }

  /** Steps up to the rename do not touch the log; the value read stays current because the file lock is held. */
  lemma StepKeepsOwnPc(s: State, th: Thread, step: Step)
    requires Enabled(s, th, step) && PcOk(s, th, PcOf(s, th)) && FileOk(s) && !step.Start? && !step.Rename?
    requires HasFileLock(PcOf(s, th)) ==> s.lockHolder == Some(th)
    ensures PcOk(NextState(s, th, step), th, PcOf(NextState(s, th, step), th))
  {
    hide InLog, Latest, Meaning, Buried;
    var s' := NextState(s, th, step);
    SameLog(s, s', th, Number(s.calls, th));
    assert s.log[..|s.log|] == s.log;
    if step.Load? {
      LoadMeans(s);
    }
  }

  lemma LoadMeans(s: State)
    requires FileOk(s)
    ensures Meaning(s.disk.file, s.fallback) == Current(s)
  {
  }

  lemma StepKeepsSelf(s: State, th: Thread, step: Step)
    requires Enabled(s, th, step) && Inv(s)
    ensures ThreadOk(NextState(s, th, step), th)
  {
    hide InLog, CallsOk, FileOk, LogOk, Latest;
    assert ThreadOk(s, th);
    StepKeepsOwnLocks(s, th, step);
    var s' := NextState(s, th, step);
    if step.Rename? {
      Appended(s, s', Committing(s, th));
    } else if step.Start? {
      FreshCall(s, th);
      SameLog(s, s', th, Number(s.calls, th) + 1);
    } else {
      StepKeepsOwnPc(s, th, step);
    }
  }

  lemma BuriedGrows(s: State, s': State, e: Entry)
    requires s'.log == s.log + [e]
    ensures Buried(s') <==> Buried(s) || IsBroken(e.over)
  {
    assert s'.log[|s.log|] == e && forall i :: 0 <= i < |s.log| ==> s'.log[i] == s.log[i];
  }

  lemma StepKeepsFile(s: State, th: Thread, step: Step)
    requires Enabled(s, th, step) && ThreadOk(s, th) && FileOk(s)
    ensures FileOk(NextState(s, th, step))
  {
    hide InLog, Buried;
    var s' := NextState(s, th, step);
    if step.Rename? {
      BuriedGrows(s, s', Committing(s, th));
    } else {
      SameBuried(s, s');
    }
  }

  lemma SameBuried(s: State, s': State)
    requires s'.log == s.log
    ensures Buried(s') == Buried(s)
  {
  }

  lemma StepKeepsLog(s: State, th: Thread, step: Step)
    requires Enabled(s, th, step) && ThreadOk(s, th) && FileOk(s) && LogOk(s)
    ensures LogOk(NextState(s, th, step))
  {
    hide InLog, Latest, Meaning, Buried;
    var s' := NextState(s, th, step);
    forall i | 0 <= i < |s'.log| ensures EntryOk(s', i) {
      if i < |s.log| {
        assert EntryOk(s, i) && s'.log[..i] == s.log[..i];
      } else {
        assert s'.log[..i] == s.log;
      }
    }
  }

  lemma StepKeepsCalls(s: State, th: Thread, step: Step)
    requires Enabled(s, th, step) && ThreadOk(s, th) && CallsOk(s)
    ensures CallsOk(NextState(s, th, step))
  {
    hide Latest, Current;
    var s' := NextState(s, th, step);
    if step.Rename? {
      var n := |s.log|;
      forall i | 0 <= i < n ensures (s'.log[i].th, s'.log[i].call) != (s'.log[n].th, s'.log[n].call) {
        assert !(s.log[i].th == th && s.log[i].call == Number(s.calls, th));
      }
    }
  }

  /** Every step of every thread keeps the invariant. */
  lemma StepKeepsInv(s: State, th: Thread, step: Step)
    requires Inv(s) && Enabled(s, th, step)
    ensures Inv(NextState(s, th, step))
  {
    hide ThreadOk, FileOk, LogOk, CallsOk, NextState;
    forall other ensures ThreadOk(NextState(s, th, step), other) {
      if other == th {
        StepKeepsSelf(s, th, step);
      } else {
        if MovesLocks(step) {
          LocksKeepOthers(s, th, step, other);
        } else {
          WorkKeepsOthers(s, th, step, other);
        }
      }
    }
    StepKeepsFile(s, th, step);
    StepKeepsLog(s, th, step);
    StepKeepsCalls(s, th, step);
  }

  /** So does a crash of any process. */
  lemma CrashKeepsInv(s: State, pid: nat)
    requires Inv(s)
    ensures Inv(Crashed(s, pid))
  {
    hide InLog, Latest, Buried;
    var s' := Crashed(s, pid);
    SameBuried(s, s');
    forall i | 0 <= i < |s'.log| ensures EntryOk(s', i) {
      assert EntryOk(s, i);
    }
    forall th ensures ThreadOk(s', th) {
      assert ThreadOk(s, th);
      SameLog(s, s', th, Number(s.calls, th));
    }
  }

  // --- whole runs ---

  lemma {:induction false} RunKeepsInv(s: State, actions: seq<Action>)
    requires Inv(s) && IsRun(s, actions)
    ensures Inv(FinalState(s, actions))
    decreases |actions|
  {
    hide Inv, NextState, Crashed, Enabled;
    if actions != [] {
      match actions[0]
      case Act(th, step) => StepKeepsInv(s, th, step); RunKeepsInv(After(s, actions[0]), actions[1..]);
      case Crash(pid) => CrashKeepsInv(s, pid); RunKeepsInv(After(s, actions[0]), actions[1..]);
    }
  }

  /** Each change was applied to the document the changes before it make. */
  ghost predicate AppliedInOrder(d: Doc, log: seq<Entry>) {
    forall i :: 0 <= i < |log| ==> log[i].change.base == Fold(d, log[..i])
  }

  /** A commit that missed the file while it stood for a document other than the default. */
  predicate Overwrites(e: Entry, fallback: Doc) { e.change.missed && Meaning(e.over, fallback) != fallback }

  lemma FoldOfNone(d: Doc)
    ensures Fold(d, []) == d
  {
  }

  lemma {:induction false} LatestIsFold(s: State, n: nat)
    requires LogOk(s) && n <= |s.log| && forall i :: 0 <= i < n ==> !Overwrites(s.log[i], s.fallback)
    ensures Latest(Meaning(s.start, s.fallback), s.log[..n]) == Fold(Meaning(s.start, s.fallback), s.log[..n])
    ensures forall i :: 0 <= i < n ==> s.log[i].change.base == Fold(Meaning(s.start, s.fallback), s.log[..i])
  {
    hide Meaning, Fold;
    if n == 0 {
      FoldOfNone(Meaning(s.start, s.fallback));
      assert s.log[..0] == [];
    } else {
      LatestIsFold(s, n - 1);
      assert EntryOk(s, n - 1);
      FoldAppend(Meaning(s.start, s.fallback), s.log[..n - 1], s.log[n - 1]);
      assert s.log[..n] == s.log[..n - 1] + [s.log[n - 1]];
    }
  }

  lemma {:induction false} LatestInOrder(s: State, n: nat)
    requires n <= |s.log| && AppliedInOrder(Meaning(s.start, s.fallback), s.log)
    ensures Latest(Meaning(s.start, s.fallback), s.log[..n]) == Fold(Meaning(s.start, s.fallback), s.log[..n])
  {
    hide Meaning;
    if n > 0 {
      FoldAppend(Meaning(s.start, s.fallback), s.log[..n - 1], s.log[n - 1]);
      assert s.log[..n] == s.log[..n - 1] + [s.log[n - 1]];
    }
  }

  lemma InOrderUnlessOverwritten(s: State)
    requires LogOk(s)
    ensures AppliedInOrder(Meaning(s.start, s.fallback), s.log) <==>
            forall i :: 0 <= i < |s.log| ==> !Overwrites(s.log[i], s.fallback)
  {
    if forall i :: 0 <= i < |s.log| ==> !Overwrites(s.log[i], s.fallback) {
      LatestIsFold(s, |s.log|);
    }
    if AppliedInOrder(Meaning(s.start, s.fallback), s.log) {
      forall i | 0 <= i < |s.log| ensures !Overwrites(s.log[i], s.fallback) {
        LatestInOrder(s, i);
        assert EntryOk(s, i);
      }
    }
  }

  /**
   * After any interleaving of threads and crashes the file is what the last commit wrote, each call is committed at
   * most once, and exactly if it says so. Every committed change was applied to what the changes before it left if and
   * only if no commit had missed the file in its existence test while the file stood for something else than the
   * default; then the file stands for all of them in commit order.
   */
  lemma CommitsInOrder(s: State, actions: seq<Action>, th: Thread)
    requires Initial(s) && IsRun(s, actions)
    ensures var e := FinalState(s, actions);
            var first := Meaning(s.start, s.fallback);
            && Meaning(e.disk.file, s.fallback) == Latest(first, e.log)
            && (AppliedInOrder(first, e.log) <==> forall i :: 0 <= i < |e.log| ==> !Overwrites(e.log[i], s.fallback))
            && (AppliedInOrder(first, e.log) ==> Meaning(e.disk.file, s.fallback) == Fold(first, e.log))
            && (forall i, j :: 0 <= i < j < |e.log| ==> (e.log[i].th, e.log[i].call) != (e.log[j].th, e.log[j].call))
            && (PcOf(e, th).Done? ==> OutcomeOk(e, th, PcOf(e, th).outcome))
            && forall i :: 0 <= i < |e.log| ==> Meaning(e.log[i].over, s.fallback) == Latest(first, e.log[..i])
  {
    hide OutcomeOk, Latest, Fold, Meaning, Overwrites, EntryOk;
    InitialInv(s);
    RunKeepsInv(s, actions);
    StartIsKept(s, actions);
    var e := FinalState(s, actions);
    assert ThreadOk(e, th);
    InOrderUnlessOverwritten(e);
    if AppliedInOrder(Meaning(s.start, s.fallback), e.log) {
      LatestInOrder(e, |e.log|);
      assert e.log[..|e.log|] == e.log;
    }
    forall i | 0 <= i < |e.log|
      ensures Meaning(e.log[i].over, s.fallback) == Latest(Meaning(s.start, s.fallback), e.log[..i])
    {
      EntryReplaces(e, i);
    }
  }

  lemma EntryReplaces(s: State, i: nat)
    requires LogOk(s) && i < |s.log|
    ensures Meaning(s.log[i].over, s.fallback) == Latest(Meaning(s.start, s.fallback), s.log[..i])
  {
    hide Latest, Meaning;
    assert EntryOk(s, i);
  }

  lemma {:induction false} StartIsKept(s: State, actions: seq<Action>)
    requires IsRun(s, actions)
    ensures FinalState(s, actions).start == s.start && FinalState(s, actions).fallback == s.fallback
    decreases |actions|
  {
    if actions != [] {
      StepKeepsStart(s, actions[0]);
      StartIsKept(After(s, actions[0]), actions[1..]);
    }
  }

  lemma StepKeepsStart(s: State, a: Action)
    requires Possible(s, a)
    ensures After(s, a).start == s.start && After(s, a).fallback == s.fallback
  {
  }

  /**
   * A file that starts absent or readable is never set aside. An unreadable one stays or is set aside, once, if and
   * only if no commit that missed it in its existence test replaced it.
   */
  lemma NeverQuarantined(s: State, actions: seq<Action>)
    requires Initial(s) && IsRun(s, actions)
    ensures var e := FinalState(s, actions);
            if IsBroken(s.start) then
              ((e.disk.file == s.start && e.disk.backups == []) || e.disk.backups == [s.start.value]) <==>
              forall i :: 0 <= i < |e.log| ==> !(e.log[i].change.missed && IsBroken(e.log[i].over))
            else e.disk.backups == [] && !IsBroken(e.disk.file)
  {
    hide OutcomeOk, Latest, Meaning;
    InitialInv(s);
    RunKeepsInv(s, actions);
    StartIsKept(s, actions);
    var e := FinalState(s, actions);
    forall i | 0 <= i < |e.log| && IsBroken(e.log[i].over) ensures e.log[i].change.missed {
      assert EntryOk(e, i);
    }
  }

  /** Each action either leaves what the file stands for alone or is the rename of one update of what was loaded. */
  lemma ActionIsAtomic(s: State, a: Action)
    requires Inv(s) && Possible(s, a)
    ensures var s' := After(s, a);
            if a.Act? && a.step.Rename? then
              && PcOf(s, a.th).Synced?
              && var c := PcOf(s, a.th).change;
              && Meaning(s'.disk.file, s.fallback) == c.f(c.base)
              && c.base == (if c.missed then s.fallback else Meaning(s.disk.file, s.fallback))
            else Meaning(s'.disk.file, s.fallback) == Meaning(s.disk.file, s.fallback) && s'.log == s.log
  {
    hide InLog, Latest, CallsOk, Buried;
    if a.Act? {
      assert ThreadOk(s, a.th);
    }
  }

  /** Two threads are never between taking and releasing the file lock at once. */
  lemma MutualExclusion(s: State, th: Thread, other: Thread)
    requires Inv(s) && HasFileLock(PcOf(s, th)) && HasFileLock(PcOf(s, other))
    ensures th == other
  {
    assert ThreadOk(s, th) && ThreadOk(s, other);
  }

  /** No deadlock: while a call is unfinished, some thread that is in a call can take its next step. */
  lemma SomeoneCanMove(s: State, th: Thread) returns (mover: Thread, step: Step)
    requires Inv(s) && !PcOf(s, th).Idle? && !PcOf(s, th).Done?
    ensures Enabled(s, mover, step) && !step.Start?
  {
    assert ThreadOk(s, th);
    mover := th;
    if PcOf(s, th).Waiting? && th.pid in s.mutex {
      mover := Thread(th.pid, s.mutex[th.pid]);
      assert ThreadOk(s, mover);
    }
    if PcOf(s, mover).InMutex? && s.lockHolder.Some? {
      mover := s.lockHolder.value;
      assert ThreadOk(s, mover);
    }
    step := match PcOf(s, mover)
      case Waiting(_) => TakeMutex
      case InMutex(_) => TakeFileLock
      case Locked(_) => Load
      case Loaded(job, _, _) => if job.Read? then FinishRead else Apply
      case Ready(_, _) => if NextTemp(s, mover.pid) in s.disk.temps then CreateTempFails else CreateTemp
      case Writing(_, _, _) => WriteAll
      case Synced(_, _, _) => Rename
      case Unlocking(_) => ReleaseFile
      case _ => ReleaseMutex;
  }
}
