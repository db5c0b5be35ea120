/**
 * Runs of the JSON store told from the actions alone: which call of which thread was begun with which job, what the
 * commits and outcomes have to do with it, and that a call with nothing in its way succeeds.
 */
module StoreHistory {
  import opened Common
  import opened StoreProtocol

  /** A call: the job it was begun with, the renames before that, and whether its existence test missed the file. */
  datatype Call = Call(job: Job, after: nat, missed: bool)

  /** How often some thread renamed its temp file to the store file. */
  function Renames(actions: seq<Action>): nat {
    if actions == [] then 0
    else
      var a := actions[|actions| - 1];
      Renames(actions[..|actions| - 1]) + if a.Act? && a.step.Rename? then 1 else 0
  }

  /** What one more action does to the calls of a thread. */
  function Grown(calls: seq<Call>, renames: nat, a: Action, th: Thread): seq<Call> {
    if a.Crash? || a.th != th then calls
    else if a.step.Start? then calls + [Call(a.step.job, renames, false)]
    else if a.step.LoadMissed? && calls != [] then calls[..|calls| - 1] + [calls[|calls| - 1].(missed := true)]
    else calls
  }

  /** The calls a thread began, in order, read off the list of actions. */
  function Calls(actions: seq<Action>, th: Thread): seq<Call> {
    if actions == [] then []
    else
      var earlier := actions[..|actions| - 1];
      Grown(Calls(earlier, th), Renames(earlier), actions[|actions| - 1], th)
  }

  /** A commit belongs to an update that its thread began. */
  predicate IsCommitOf(e: Entry, calls: seq<Call>) {
    1 <= e.call <= |calls| && calls[e.call - 1].job.Update?
  }

  /** The change and the missed test of a commit are those of its call. */
  ghost predicate Comes(e: Entry, calls: seq<Call>) {
    IsCommitOf(e, calls) && e.change.f == calls[e.call - 1].job.f && e.change.missed == calls[e.call - 1].missed
  }

  /** An outcome fits the call it ends. */
  predicate Ends(o: Outcome, call: Call) {
    match o
    case Committed => call.job.Update?
    case ReadOk(_, _, missed) => call.job.Read? && missed == call.missed
    case Errored => true
  }

  /** A thread in a call still has that call's job in hand. */
  ghost predicate Carries(pc: Pc, call: Call) {
    match pc
    case Idle => true
    case Waiting(job) => job == call.job && !call.missed
    case InMutex(job) => job == call.job && !call.missed
    case Locked(job) => job == call.job && !call.missed
    case Loaded(job, _, missed) => job == call.job && missed == call.missed
    case Ready(c, _) => call.job == Update(c.f) && c.missed == call.missed
    case Writing(c, _, _) => call.job == Update(c.f) && c.missed == call.missed
    case Synced(c, _, _) => call.job == Update(c.f) && c.missed == call.missed
    case Unlocking(o) => Ends(o, call)
    case Unlocked(o) => Ends(o, call)
    case Done(o) => Ends(o, call)
  }

  ghost predicate ThreadRemembers(s: State, calls: seq<Call>, th: Thread) {
    && Number(s.calls, th) == |calls|
    && (!PcOf(s, th).Idle? ==>
          && calls != []
          && Carries(PcOf(s, th), calls[|calls| - 1])
          && Number(s.since, th) == calls[|calls| - 1].after)
  }

  ghost predicate Remembers(s: State, past: seq<Action>) {
    && |s.log| == Renames(past)
    && (forall th :: ThreadRemembers(s, Calls(past, th), th))
    && (forall i :: 0 <= i < |s.log| ==> Comes(s.log[i], Calls(past, s.log[i].th)))
  }

  lemma CallsGrow(past: seq<Action>, a: Action, th: Thread)
    ensures Calls(past + [a], th) == Grown(Calls(past, th), Renames(past), a, th)
  {
    assert (past + [a])[..|past|] == past;
  }

  lemma RenamesGrow(past: seq<Action>, a: Action)
    ensures Renames(past + [a]) == Renames(past) + if a.Act? && a.step.Rename? then 1 else 0
  {
    assert (past + [a])[..|past|] == past;
  }

  lemma StepRemembersSelf(s: State, th: Thread, step: Step, calls: seq<Call>)
    requires Enabled(s, th, step) && ThreadRemembers(s, calls, th)
    ensures ThreadRemembers(NextState(s, th, step), Grown(calls, |s.log|, Act(th, step), th), th)
  {
    hide NextDisk, NextMutex, NextLog, NextHolder, NextCounter, Meaning;
  }

  lemma StepRemembersOther(s: State, th: Thread, step: Step, calls: seq<Call>, other: Thread)
    requires Enabled(s, th, step) && ThreadRemembers(s, calls, other) && other != th
    ensures ThreadRemembers(NextState(s, th, step), calls, other)
  {
    hide Carries;
  }

  /**
   * A commit still comes from its call: a later start adds calls behind it, and a missed test belongs to a later one.
   */
  lemma StepRemembersEntry(s: State, th: Thread, step: Step, e: Entry, calls: seq<Call>)
    requires Enabled(s, th, step) && Comes(e, calls)
    requires e.th == th && step.LoadMissed? ==> e.call != |calls|
    ensures Comes(e, Grown(calls, |s.log|, Act(th, step), e.th))
  {
  }

  lemma CommitComes(s: State, th: Thread, calls: seq<Call>)
    requires Enabled(s, th, Rename) && ThreadRemembers(s, calls, th)
    ensures Comes(Committing(s, th), calls)
  {
  }

  lemma StepRemembersLog(s: State, th: Thread, step: Step, past: seq<Action>, i: nat)
    requires Inv(s) && Remembers(s, past) && Enabled(s, th, step) && i < |NextLog(s, th, step)|
    ensures var e := NextLog(s, th, step)[i];
            Comes(e, Grown(Calls(past, e.th), |s.log|, Act(th, step), e.th))
  {
    hide Comes, Inv, NextState, Calls;
    assert ThreadRemembers(s, Calls(past, th), th);
    if i < |s.log| {
      assert Comes(s.log[i], Calls(past, s.log[i].th));
      if step.LoadMissed? {
        NotYetInLog(s, th);
      }
      StepRemembersEntry(s, th, step, s.log[i], Calls(past, s.log[i].th));
    } else {
      CommitComes(s, th, Calls(past, th));
    }
  }

  lemma NotYetInLog(s: State, th: Thread)
    requires Inv(s) && PcOf(s, th).Locked?
    ensures forall i :: 0 <= i < |s.log| && s.log[i].th == th ==> s.log[i].call != Number(s.calls, th)
  {
    hide Latest, FileOk, LogOk, CallsOk;
    assert ThreadOk(s, th);
  }

  lemma ActionRemembers(s: State, past: seq<Action>, a: Action)
    requires Inv(s) && Remembers(s, past) && Possible(s, a)
    ensures Remembers(After(s, a), past + [a])
  {
    hide Inv, ThreadRemembers, Comes, Enabled, Calls, Grown, Renames;
    var s' := After(s, a);
    RenamesGrow(past, a);
    forall th ensures ThreadRemembers(s', Calls(past + [a], th), th) {
      CallsGrow(past, a, th);
      assert ThreadRemembers(s, Calls(past, th), th);
      ActionRemembersThread(s, a, Calls(past, th), th);
    }
    forall i | 0 <= i < |s'.log| ensures Comes(s'.log[i], Calls(past + [a], s'.log[i].th)) {
      CallsGrow(past, a, s'.log[i].th);
      if a.Act? {
        StepRemembersLog(s, a.th, a.step, past, i);
      } else {
        CrashGrows(Calls(past, s'.log[i].th), |s.log|, a, s'.log[i].th);
      }
    }
  }

  lemma CrashGrows(calls: seq<Call>, renames: nat, a: Action, th: Thread)
    requires a.Crash? || a.th != th
    ensures Grown(calls, renames, a, th) == calls
  {
  }

  lemma ActionRemembersThread(s: State, a: Action, calls: seq<Call>, th: Thread)
    requires Possible(s, a) && ThreadRemembers(s, calls, th)
    ensures ThreadRemembers(After(s, a), Grown(calls, |s.log|, a, th), th)
  {
    hide NextState, Enabled, Carries;
    if a.Crash? || a.th != th {
      CrashGrows(calls, |s.log|, a, th);
      if a.Act? {
        StepRemembersOther(s, a.th, a.step, calls, th);
      }
    } else {
      StepRemembersSelf(s, th, a.step, calls);
    }
  }

  lemma {:induction false} RunRemembers(s: State, past: seq<Action>, actions: seq<Action>)
    requires Inv(s) && Remembers(s, past) && IsRun(s, actions)
    ensures Remembers(FinalState(s, actions), past + actions)
    decreases |actions|
  {
    hide Inv, Remembers, After, Possible;
    if actions == [] {
      assert past + actions == past;
    } else {
      var a := actions[0];
      assert past + actions == (past + [a]) + actions[1..];
      ActionRemembers(s, past, a);
      ActionKeepsInv(s, a);
      RunRemembers(After(s, a), past + [a], actions[1..]);
    }
  }

  lemma ActionKeepsInv(s: State, a: Action)
    requires Inv(s) && Possible(s, a)
    ensures Inv(After(s, a))
  {
    hide Inv, NextState, Crashed, Enabled;
    match a
    case Act(th, step) => StepKeepsInv(s, th, step);
    case Crash(pid) => CrashKeepsInv(s, pid);
  }

  lemma InitialRemembers(s: State)
    requires Initial(s)
    ensures Remembers(s, [])
  {
  }

  /**
   * How the last call of a thread came back: a read with what some commit since it was begun had written, or the
   * default if it missed the file; an update committed exactly if the log has it; nothing is in the log for a read.
   */
  ghost predicate Answers(log: seq<Entry>, th: Thread, calls: seq<Call>, o: Outcome, s: State) {
    && calls != []
    && var call := calls[|calls| - 1];
    && Ends(o, call)
    && (o.Committed? <==> exists i :: 0 <= i < |log| && log[i].th == th && log[i].call == |calls|)
    && (o.ReadOk? ==>
          && call.after <= o.at <= |log|
          && o.doc == if call.missed then s.fallback else Latest(Meaning(s.start, s.fallback), log[..o.at]))
  }

  lemma DoneAnswers(s: State, th: Thread, calls: seq<Call>)
    requires Inv(s) && ThreadRemembers(s, calls, th) && PcOf(s, th).Done?
    ensures Answers(s.log, th, calls, PcOf(s, th).outcome, s)
  {
    hide Latest, Meaning, FileOk, LogOk, CallsOk;
    assert ThreadOk(s, th);
  }

  /**
   * On every run each commit is of an update its thread began, with the very function it was begun with, and a call
   * that came back did what it was begun for: a read is never in the log.
   */
  lemma RunDoesWhatWasAsked(s: State, actions: seq<Action>, th: Thread)
    requires Initial(s) && IsRun(s, actions)
    ensures var e := FinalState(s, actions);
            && (forall i :: 0 <= i < |e.log| ==> Comes(e.log[i], Calls(actions, e.log[i].th)))
            && (PcOf(e, th).Done? ==> Answers(e.log, th, Calls(actions, th), PcOf(e, th).outcome, s))
  {
    hide Inv, Comes, Calls, FinalState, IsRun, Latest, Meaning;
    InitialInv(s);
    InitialRemembers(s);
    RunRemembers(s, [], actions);
    assert [] + actions == actions;
    RunKeepsInv(s, actions);
    StartIsKept(s, actions);
    if PcOf(FinalState(s, actions), th).Done? {
      DoneAnswers(FinalState(s, actions), th, Calls(actions, th));
    }
  }

  // --- no update is lost ---

  ghost predicate LogComes(log: seq<Entry>, actions: seq<Action>) {
    forall i :: 0 <= i < |log| ==> Comes(log[i], Calls(actions, log[i].th))
  }

  /** The call of a commit. */
  function CallOf(e: Entry, actions: seq<Action>): Call
    requires IsCommitOf(e, Calls(actions, e.th))
  {
    Calls(actions, e.th)[e.call - 1]
  }

  /** The functions the callers of the committed updates passed, applied one to the result of the other. */
  ghost function FoldCalls(d: Doc, log: seq<Entry>, actions: seq<Action>): Doc
    requires LogComes(log, actions)
  {
    if log == [] then d
    else CallOf(log[|log| - 1], actions).job.f(FoldCalls(d, log[..|log| - 1], actions))
  }

  lemma {:induction false} FoldsAgree(d: Doc, log: seq<Entry>, actions: seq<Action>)
    requires LogComes(log, actions)
    ensures FoldCalls(d, log, actions) == Fold(d, log)
  {
    hide Calls;
    if log != [] {
      FoldsAgree(d, log[..|log| - 1], actions);
      assert Comes(log[|log| - 1], Calls(actions, log[|log| - 1].th));
    }
  }

  /** A call missed the file while what the earlier commits had left was not the default. */
  ghost predicate Overwrote(first: Doc, fallback: Doc, log: seq<Entry>, actions: seq<Action>, i: nat)
    requires i < |log| && IsCommitOf(log[i], Calls(actions, log[i].th))
  {
    CallOf(log[i], actions).missed && Latest(first, log[..i]) != fallback
  }

  lemma OverwroteIsOverwrites(first: Doc, fallback: Doc, log: seq<Entry>, actions: seq<Action>, i: nat)
    requires i < |log| && Comes(log[i], Calls(actions, log[i].th))
    requires Meaning(log[i].over, fallback) == Latest(first, log[..i])
    ensures Overwrote(first, fallback, log, actions, i) <==> Overwrites(log[i], fallback)
  {
    hide Calls, Latest, Meaning;
  }

  /**
   * After any interleaving of threads and crashes the commits are of updates that callers began, each at most once and
   * exactly if its call says so. Unless a call missed the file in its existence test and then committed over another
   * document than the default, the file stands for the callers' functions applied in commit order, each to what the
   * ones before it left; and only then is each applied to that.
   */
  lemma NoLostUpdate(s: State, actions: seq<Action>, th: Thread)
    requires Initial(s) && IsRun(s, actions)
    ensures var e := FinalState(s, actions);
            var first := Meaning(s.start, s.fallback);
            && LogComes(e.log, actions)
            && (AppliedInOrder(first, e.log) <==>
                forall i :: 0 <= i < |e.log| ==> !Overwrote(first, s.fallback, e.log, actions, i))
            && (AppliedInOrder(first, e.log) ==> Meaning(e.disk.file, s.fallback) == FoldCalls(first, e.log, actions))
            && Meaning(e.disk.file, s.fallback) == Latest(first, e.log)
            && (forall i, j :: 0 <= i < j < |e.log| ==> (e.log[i].th, e.log[i].call) != (e.log[j].th, e.log[j].call))
            && (PcOf(e, th).Done? ==> Answers(e.log, th, Calls(actions, th), PcOf(e, th).outcome, s))
  {
    hide Latest, Fold, FoldCalls, Meaning, Overwrites, Overwrote, AppliedInOrder, Comes, Calls, IsRun, FinalState,
    Answers;
    var e, first := FinalState(s, actions), Meaning(s.start, s.fallback);
    CommitsInOrder(s, actions, th);
    RunDoesWhatWasAsked(s, actions, th);
    if AppliedInOrder(first, e.log) {
      FoldsAgree(first, e.log, actions);
    }
    forall i | 0 <= i < |e.log|
      ensures IsCommitOf(e.log[i], Calls(actions, e.log[i].th))
      ensures Overwrote(first, s.fallback, e.log, actions, i) <==> Overwrites(e.log[i], s.fallback)
    {
      ComesIsCommit(e.log[i], Calls(actions, e.log[i].th));
      OverwroteIsOverwrites(first, s.fallback, e.log, actions, i);
    }
  }

  lemma ComesIsCommit(e: Entry, calls: seq<Call>)
    requires Comes(e, calls)
    ensures IsCommitOf(e, calls)
  {
  }

  /** Commits stay in the log whatever happens later. */
  lemma {:induction false} CommitsStay(s: State, actions: seq<Action>)
    requires IsRun(s, actions)
    ensures s.log <= FinalState(s, actions).log
    decreases |actions|
  {
    if actions != [] {
      ActionKeepsCommits(s, actions[0]);
      CommitsStay(After(s, actions[0]), actions[1..]);
    }
  }

  lemma ActionKeepsCommits(s: State, a: Action)
    requires Possible(s, a)
    ensures s.log <= After(s, a).log
  {
  }

  // --- temporary files ---

  /** The temp file a thread is working on. */
  function OwnTemp(pc: Pc): Option<TempName> {
    match pc case Writing(_, _, temp) => Some(temp) case Synced(_, _, temp) => Some(temp) case _ => None
  }

  /**
   * A step touches no temp file but its call's own, which is created under a name no file has. A part written stays in
   * it, the whole content is in it before the rename takes it away, and a failure leaves it only if it cannot be
   * removed.
   */
  lemma StepTouchesOwnTemp(s: State, th: Thread, step: Step, temp: TempName)
    requires Inv(s) && Enabled(s, th, step)
    ensures var pc, temps, temps' := PcOf(s, th), s.disk.temps, NextState(s, th, step).disk.temps;
            && (OwnTemp(pc) != Some(temp) && temp in temps ==> temp in temps' && temps'[temp] == temps[temp])
            && (OwnTemp(pc) != Some(temp) && temp !in temps ==>
                  (temp in temps' <==> step.CreateTemp? && OwnTemp(PcOf(NextState(s, th, step), th)) == Some(temp)))
            && (OwnTemp(pc) == Some(temp) ==>
                  && (temp in temps' <==> !(step.Rename? || ((step.WriteFails? || step.RenameFails?) && step.cleaned)))
                  && (step.WritePart? ==> temps'[temp] == step.part)
                  && (step.WriteAll? ==> temps'[temp] == Json(pc.change.f(pc.change.base))))
  {
    hide Inv, Meaning, IsBroken, NextMutex, NextLog, NextHolder;
    OwnTempIsThere(s, th);
  }

  lemma OwnTempIsThere(s: State, th: Thread)
    requires Inv(s)
    ensures var pc := PcOf(s, th);
            pc.Writing? || pc.Synced? ==>
              pc.temp in s.disk.temps && pc.content == Json(pc.change.f(pc.change.base))
  {
    hide InLog, FileOk, LogOk, CallsOk, LoadedOk, IsBroken;
    assert ThreadOk(s, th);
  }

  // --- a call with nothing in its way ---

  predicate CanDo(s: State, th: Thread, steps: seq<Step>)
    decreases |steps|
  {
    steps != [] ==> Enabled(s, th, steps[0]) && CanDo(NextState(s, th, steps[0]), th, steps[1..])
  }

  function Do(s: State, th: Thread, steps: seq<Step>): State
    requires CanDo(s, th, steps)
    decreases |steps|
  {
    if steps == [] then s else Do(NextState(s, th, steps[0]), th, steps[1..])
  }

  function Acts(th: Thread, steps: seq<Step>): (actions: seq<Action>)
    ensures |actions| == |steps|
  {
    seq(|steps|, i requires 0 <= i < |steps| => Act(th, steps[i]))
  }

  lemma {:induction false} DoIsRun(s: State, th: Thread, steps: seq<Step>)
    requires CanDo(s, th, steps)
    ensures IsRun(s, Acts(th, steps)) && FinalState(s, Acts(th, steps)) == Do(s, th, steps)
    decreases |steps|
  {
    hide Enabled, NextState;
    if steps != [] {
      assert Acts(th, steps)[1..] == Acts(th, steps[1..]);
      DoIsRun(NextState(s, th, steps[0]), th, steps[1..]);
    }
  }

  lemma DoFirst(s: State, th: Thread, step: Step, rest: seq<Step>)
    requires Enabled(s, th, step) && CanDo(NextState(s, th, step), th, rest)
    ensures CanDo(s, th, [step] + rest) && Do(s, th, [step] + rest) == Do(NextState(s, th, step), th, rest)
  {
    hide Enabled, NextState;
    assert ([step] + rest)[1..] == rest;
  }

  lemma DoNothing(s: State, th: Thread)
    ensures CanDo(s, th, []) && Do(s, th, []) == s
  {
  }

  lemma {:induction false} DoBoth(s: State, th: Thread, steps: seq<Step>, rest: seq<Step>)
    requires CanDo(s, th, steps) && CanDo(Do(s, th, steps), th, rest)
    ensures CanDo(s, th, steps + rest) && Do(s, th, steps + rest) == Do(Do(s, th, steps), th, rest)
    decreases |steps|
  {
    hide Enabled, NextState;
    if steps == [] {
      assert steps + rest == rest;
    } else {
      DoBoth(NextState(s, th, steps[0]), th, steps[1..], rest);
      DoFirst(s, th, steps[0], steps[1..] + rest);
      assert [steps[0]] + (steps[1..] + rest) == steps + rest;
    }
  }

  /** The thread is in no call and nobody holds the locks it needs. */
  predicate Quiet(s: State, th: Thread) {
    (PcOf(s, th).Idle? || PcOf(s, th).Done?) && th.pid !in s.mutex && s.lockHolder == None
  }

  /** Inside a call of `th` that began in `s`, both locks held, with `pc` reached and nothing else changed. */
  ghost predicate Inside(s: State, m: State, th: Thread, pc: Pc) {
    && m.start == s.start && m.fallback == s.fallback && PcOf(m, th) == pc
    && m.lockHolder == Some(th) && m.mutex == s.mutex[th.pid := th.tid]
    && Number(m.calls, th) == Number(s.calls, th) + 1
  }

  /** The store's own data. */
  ghost predicate Holds(m: State, disk: Disk, counter: map<nat, nat>, log: seq<Entry>) {
    m.disk == disk && m.counter == counter && m.log == log
  }

  /** Three steps of a thread in a row. */
  lemma DoThree(s: State, th: Thread, a: Step, b: Step, c: Step)
    requires Enabled(s, th, a)
    requires var s1 := NextState(s, th, a);
             Enabled(s1, th, b) && Enabled(NextState(s1, th, b), th, c)
    ensures CanDo(s, th, [a, b, c])
    ensures Do(s, th, [a, b, c]) == NextState(NextState(NextState(s, th, a), th, b), th, c)
  {
    hide Enabled, NextState;
    var s1 := NextState(s, th, a);
    var s2 := NextState(s1, th, b);
    DoNothing(NextState(s2, th, c), th);
    DoFirst(s2, th, c, []);
    DoFirst(s1, th, b, [c]);
    DoFirst(s, th, a, [b, c]);
    assert [c] + [] == [c] && [b] + [c] == [b, c] && [a] + [b, c] == [a, b, c];
  }

  lemma DoTwo(s: State, th: Thread, a: Step, b: Step)
    requires Enabled(s, th, a) && Enabled(NextState(s, th, a), th, b)
    ensures CanDo(s, th, [a, b]) && Do(s, th, [a, b]) == NextState(NextState(s, th, a), th, b)
  {
    hide Enabled, NextState;
    var s1 := NextState(s, th, a);
    DoNothing(NextState(s1, th, b), th);
    DoFirst(s1, th, b, []);
    DoFirst(s, th, a, [b]);
    assert [b] + [] == [b] && [a] + [b] == [a, b];
  }

  lemma EnterSteps(s: State, th: Thread, job: Job) returns (m: State)
    requires Quiet(s, th)
    ensures CanDo(s, th, [Start(job), TakeMutex, TakeFileLock])
    ensures m == Do(s, th, [Start(job), TakeMutex, TakeFileLock])
    ensures Inside(s, m, th, Locked(job)) && Holds(m, s.disk, s.counter, s.log)
  {
    var s2 := Begun(s, th, job);
    TakesLock(s, s2, th, job);
    hide *;
    m := NextState(s2, th, TakeFileLock);
    DoThree(s, th, Start(job), TakeMutex, TakeFileLock);
  }

  lemma Begun(s: State, th: Thread, job: Job) returns (m: State)
    requires Quiet(s, th)
    ensures Enabled(s, th, Start(job)) && Enabled(NextState(s, th, Start(job)), th, TakeMutex)
    ensures m == NextState(NextState(s, th, Start(job)), th, TakeMutex)
    ensures m.start == s.start && m.fallback == s.fallback && PcOf(m, th) == InMutex(job) && m.lockHolder == None
    ensures m.mutex == s.mutex[th.pid := th.tid] && Number(m.calls, th) == Number(s.calls, th) + 1
    ensures Holds(m, s.disk, s.counter, s.log)
  {
    m := NextState(NextState(s, th, Start(job)), th, TakeMutex);
  }

  lemma TakesLock(s: State, m: State, th: Thread, job: Job)
    requires m.start == s.start && m.fallback == s.fallback && PcOf(m, th) == InMutex(job) && m.lockHolder == None
    requires m.mutex == s.mutex[th.pid := th.tid] && Number(m.calls, th) == Number(s.calls, th) + 1
    ensures Enabled(m, th, TakeFileLock)
    ensures var n := NextState(m, th, TakeFileLock);
            Inside(s, n, th, Locked(job)) && Holds(n, m.disk, m.counter, m.log)
  {
  }

  /** The work of an update that creates its temp file, and of one that finds a file of that name. */
  const WRITES := [CreateTemp, WriteAll, Rename]
  const BLOCKED := [CreateTempFails]

  /** What a call has in hand after loading, and the disk it then finds. */
  function InHand(s: State, missed: bool): Doc { if missed then s.fallback else Meaning(s.disk.file, s.fallback) }

  function Found(s: State, missed: bool): Disk { if missed then s.disk else SetAside(s.disk) }

  /** Loading, or missing the file, and applying the change or going back with the value. */
  lemma LoadStep(s: State, m: State, th: Thread, job: Job, missed: bool) returns (n: State)
    requires Inside(s, m, th, Locked(job)) && Holds(m, s.disk, s.counter, s.log)
    ensures var load := if missed then LoadMissed else Load;
            Enabled(m, th, load) && n == NextState(m, th, load)
    ensures Inside(s, n, th, Loaded(job, InHand(s, missed), missed))
    ensures Holds(n, Found(s, missed), s.counter, s.log)
  {
    hide Meaning, SetAside;
    n := NextState(m, th, if missed then LoadMissed else Load);
  }

  lemma ApplyStep(s: State, m: State, th: Thread, f: Doc -> Doc, value: Doc, missed: bool) returns (n: State)
    requires Inside(s, m, th, Loaded(Update(f), value, missed))
    ensures Enabled(m, th, Apply) && n == NextState(m, th, Apply)
    ensures Inside(s, n, th, Ready(Change(f, value, missed), Json(f(value)))) && Holds(n, m.disk, m.counter, m.log)
  {
    n := NextState(m, th, Apply);
  }

  lemma LoadSteps(s: State, m: State, th: Thread, f: Doc -> Doc, missed: bool) returns (n: State)
    requires Inside(s, m, th, Locked(Update(f))) && Holds(m, s.disk, s.counter, s.log)
    ensures var load := if missed then LoadMissed else Load;
            CanDo(m, th, [load, Apply]) && n == Do(m, th, [load, Apply])
    ensures var value := InHand(s, missed);
            && Inside(s, n, th, Ready(Change(f, value, missed), Json(f(value))))
            && Holds(n, Found(s, missed), s.counter, s.log)
  {
    hide CanDo, Do, Enabled, NextState, Inside, InHand, Found;
    var m1 := LoadStep(s, m, th, Update(f), missed);
    n := ApplyStep(s, m1, th, f, InHand(s, missed), missed);
    DoTwo(m, th, if missed then LoadMissed else Load, Apply);
  }

  lemma ReadStep(s: State, m: State, th: Thread, value: Doc) returns (n: State)
    requires Inside(s, m, th, Loaded(Read, value, false))
    ensures Enabled(m, th, FinishRead) && n == NextState(m, th, FinishRead)
    ensures Inside(s, n, th, Unlocking(ReadOk(value, |m.log|, false))) && Holds(n, m.disk, m.counter, m.log)
  {
    n := NextState(m, th, FinishRead);
  }

  lemma ReadSteps(s: State, m: State, th: Thread) returns (n: State)
    requires Inside(s, m, th, Locked(Read)) && Holds(m, s.disk, s.counter, s.log)
    ensures CanDo(m, th, [Load, FinishRead]) && n == Do(m, th, [Load, FinishRead])
    ensures Inside(s, n, th, Unlocking(ReadOk(InHand(s, false), |s.log|, false)))
    ensures Holds(n, Found(s, false), s.counter, s.log)
  {
    hide CanDo, Do, Enabled, NextState, Inside, InHand, Found;
    var m1 := LoadStep(s, m, th, Read, false);
    n := ReadStep(s, m1, th, InHand(s, false));
    DoTwo(m, th, Load, FinishRead);
  }

  /** The temp file's turn: it is created, written in full, and renamed to the store file. */
  lemma CreateStep(s: State, m: State, th: Thread, change: Change, content: Content, disk: Disk) returns (n: State)
    requires Inside(s, m, th, Ready(change, content)) && Holds(m, disk, s.counter, s.log)
    requires NextTemp(s, th.pid) !in disk.temps
    ensures Enabled(m, th, CreateTemp) && n == NextState(m, th, CreateTemp)
    ensures var temp := NextTemp(s, th.pid);
            && Inside(s, n, th, Writing(change, content, temp))
            && Holds(n, disk.(temps := disk.temps[temp := Blank]), s.counter[th.pid := temp.number + 1], s.log)
  {
    n := NextState(m, th, CreateTemp);
  }

  lemma WriteStep(s: State, m: State, th: Thread, change: Change, content: Content, temp: TempName, disk: Disk)
    returns (n: State)
    requires Inside(s, m, th, Writing(change, content, temp)) && m.disk == disk
    ensures Enabled(m, th, WriteAll) && n == NextState(m, th, WriteAll)
    ensures Inside(s, n, th, Synced(change, content, temp))
    ensures Holds(n, disk.(temps := disk.temps[temp := content]), m.counter, m.log)
  {
    n := NextState(m, th, WriteAll);
  }

  lemma RenameStep(s: State, m: State, th: Thread, change: Change, content: Content, temp: TempName) returns (n: State)
    requires Inside(s, m, th, Synced(change, content, temp)) && temp in m.disk.temps && m.disk.temps[temp] == content
    ensures Enabled(m, th, Rename) && n == NextState(m, th, Rename)
    ensures Inside(s, n, th, Unlocking(Committed))
    ensures Holds(n, Disk(Some(content), m.disk.backups, m.disk.temps - {temp}), m.counter,
                  m.log + [Entry(th, Number(s.calls, th) + 1, change, m.disk.file)])
  {
    n := NextState(m, th, Rename);
  }

  lemma WriteSteps(s: State, m: State, th: Thread, change: Change, content: Content, disk: Disk) returns (n: State)
    requires Inside(s, m, th, Ready(change, content)) && Holds(m, disk, s.counter, s.log)
    requires NextTemp(s, th.pid) !in disk.temps
    ensures CanDo(m, th, WRITES) && n == Do(m, th, WRITES)
    ensures Inside(s, n, th, Unlocking(Committed))
    ensures Holds(n, disk.(file := Some(content)), s.counter[th.pid := NextTemp(s, th.pid).number + 1],
                  s.log + [Entry(th, Number(s.calls, th) + 1, change, disk.file)])
  {
    hide CanDo, Do, Enabled, NextState, Inside, NextTemp;
    var temp := NextTemp(s, th.pid);
    var m1 := CreateStep(s, m, th, change, content, disk);
    var m2 := WriteStep(s, m1, th, change, content, temp, m1.disk);
    n := RenameStep(s, m2, th, change, content, temp);
    DoThree(m, th, CreateTemp, WriteAll, Rename);
    assert n.disk.temps == disk.temps;
  }

  lemma BlockedStep(s: State, m: State, th: Thread, change: Change, content: Content, disk: Disk) returns (n: State)
    requires Inside(s, m, th, Ready(change, content)) && Holds(m, disk, s.counter, s.log)
    ensures CanDo(m, th, [CreateTempFails]) && n == Do(m, th, [CreateTempFails])
    ensures Inside(s, n, th, Unlocking(Errored))
    ensures Holds(n, disk, s.counter[th.pid := NextTemp(s, th.pid).number + 1], s.log)
  {
    n := NextState(m, th, CreateTempFails);
    DoNothing(n, th);
    DoFirst(m, th, CreateTempFails, []);
    assert [CreateTempFails] + [] == [CreateTempFails];
  }

  /** The state after a call of `th` begun in `s` that ended with `o`. */
  ghost predicate Returned(s: State, e: State, th: Thread, o: Outcome) {
    && Quiet(e, th) && PcOf(e, th) == Done(o) && e.start == s.start && e.fallback == s.fallback
    && Number(e.calls, th) == Number(s.calls, th) + 1
  }

  lemma LeaveSteps(s: State, m: State, th: Thread, o: Outcome) returns (e: State)
    requires Inside(s, m, th, Unlocking(o))
    ensures CanDo(m, th, [ReleaseFile, ReleaseMutex]) && e == Do(m, th, [ReleaseFile, ReleaseMutex])
    ensures Returned(s, e, th, o) && Holds(e, m.disk, m.counter, m.log)
  {
    var m1 := NextState(m, th, ReleaseFile);
    e := NextState(m1, th, ReleaseMutex);
    DoTwo(m, th, ReleaseFile, ReleaseMutex);
  }

  /** A call of which nothing but its own work is told: the locks are taken before and released after it. */
  function CallSteps(job: Job, work: seq<Step>): seq<Step> {
    [Start(job), TakeMutex, TakeFileLock] + (work + [ReleaseFile, ReleaseMutex])
  }

  lemma DoCall(s: State, th: Thread, job: Job, work: seq<Step>, m: State, n: State, o: Outcome) returns (e: State)
    requires CanDo(s, th, [Start(job), TakeMutex, TakeFileLock]) &&
             m == Do(s, th, [Start(job), TakeMutex, TakeFileLock])
    requires CanDo(m, th, work) && n == Do(m, th, work) && Inside(s, n, th, Unlocking(o))
    ensures CanDo(s, th, CallSteps(job, work)) && e == Do(s, th, CallSteps(job, work))
    ensures Returned(s, e, th, o) && Holds(e, n.disk, n.counter, n.log)
  {
    hide CanDo, Do, Inside, Returned, Holds;
    e := LeaveSteps(s, n, th, o);
    DoBoth(m, th, work, [ReleaseFile, ReleaseMutex]);
    DoBoth(s, th, [Start(job), TakeMutex, TakeFileLock], work + [ReleaseFile, ReleaseMutex]);
  }

  function UpdateSteps(f: Doc -> Doc, missed: bool, last: seq<Step>): seq<Step> {
    CallSteps(Update(f), [if missed then LoadMissed else Load, Apply] + last)
  }

  lemma UpdateWrites(s: State, th: Thread, f: Doc -> Doc, missed: bool) returns (e: State)
    requires Quiet(s, th) && NextTemp(s, th.pid) !in s.disk.temps
    ensures CanDo(s, th, UpdateSteps(f, missed, WRITES)) && e == Do(s, th, UpdateSteps(f, missed, WRITES))
    ensures Returned(s, e, th, Committed)
    ensures var change := Change(f, InHand(s, missed), missed);
            var disk := Found(s, missed);
            Holds(e, disk.(file := Some(Json(f(change.base)))), s.counter[th.pid := NextTemp(s, th.pid).number + 1],
                  s.log + [Entry(th, Number(s.calls, th) + 1, change, disk.file)])
  {
    hide CanDo, Do, Inside, Returned, Holds, Quiet, Meaning;
    var change, disk := Change(f, InHand(s, missed), missed), Found(s, missed);
    var m := EnterSteps(s, th, Update(f));
    var k := LoadSteps(s, m, th, f, missed);
    var n := WriteSteps(s, k, th, change, Json(f(change.base)), disk);
    DoBoth(m, th, [if missed then LoadMissed else Load, Apply], WRITES);
    e := DoCall(s, th, Update(f), [if missed then LoadMissed else Load, Apply] + WRITES, m, n, Committed);
    SameHolds(n, e, disk.(file := Some(Json(f(change.base)))), s.counter[th.pid := NextTemp(s, th.pid).number + 1],
              s.log + [Entry(th, Number(s.calls, th) + 1, change, disk.file)]);
  }

  lemma SameHolds(n: State, e: State, disk: Disk, counter: map<nat, nat>, log: seq<Entry>)
    requires Holds(n, disk, counter, log) && Holds(e, n.disk, n.counter, n.log)
    ensures Holds(e, disk, counter, log)
  {
  }

  lemma UpdateIsBlocked(s: State, th: Thread, f: Doc -> Doc) returns (e: State)
    requires Quiet(s, th)
    ensures CanDo(s, th, UpdateSteps(f, false, BLOCKED)) && e == Do(s, th, UpdateSteps(f, false, BLOCKED))
    ensures Returned(s, e, th, Errored)
    ensures Holds(e, SetAside(s.disk), s.counter[th.pid := NextTemp(s, th.pid).number + 1], s.log)
  {
    hide CanDo, Do, Inside, Returned, Holds, Quiet, Meaning;
    var change := Change(f, InHand(s, false), false);
    var m := EnterSteps(s, th, Update(f));
    var k := LoadSteps(s, m, th, f, false);
    var n := BlockedStep(s, k, th, change, Json(f(change.base)), SetAside(s.disk));
    DoBoth(m, th, [Load, Apply], BLOCKED);
    e := DoCall(s, th, Update(f), [Load, Apply] + BLOCKED, m, n, Errored);
    SameHolds(n, e, SetAside(s.disk), s.counter[th.pid := NextTemp(s, th.pid).number + 1], s.log);
  }

  /** A read with nothing in its way comes back with what the file stands for. */
  lemma ReadSucceeds(s: State, th: Thread) returns (e: State)
    requires Quiet(s, th)
    ensures IsRun(s, Acts(th, CallSteps(Read, [Load, FinishRead])))
    ensures e == FinalState(s, Acts(th, CallSteps(Read, [Load, FinishRead])))
    ensures PcOf(e, th) == Done(ReadOk(Meaning(s.disk.file, s.fallback), |s.log|, false))
    ensures Quiet(e, th) && e.disk == SetAside(s.disk) && e.log == s.log
  {
    hide CanDo, Do, Inside, Quiet, Meaning, SetAside, IsRun, FinalState, Acts;
    var m := EnterSteps(s, th, Read);
    var n := ReadSteps(s, m, th);
    e := DoCall(s, th, Read, [Load, FinishRead], m, n, ReadOk(Meaning(s.disk.file, s.fallback), |s.log|, false));
    DoIsRun(s, th, CallSteps(Read, [Load, FinishRead]));
  }

  /** The first temp file number from `n` on that no file of the process has. */
  function FirstFree(names: set<TempName>, pid: nat, n: nat): (m: nat)
    ensures m >= n && TempName(pid, m) !in names && (forall k :: n <= k < m ==> TempName(pid, k) in names)
    ensures m - n <= |names|
    decreases |names|
  {
    if TempName(pid, n) in names then FirstFree(names - {TempName(pid, n)}, pid, n + 1) else n
  }

  /** An update tried again while a file of its temp name stands there. */
  function Tries(f: Doc -> Doc, blocked: nat): seq<Step> {
    if blocked == 0 then UpdateSteps(f, false, WRITES)
    else UpdateSteps(f, false, BLOCKED) + Tries(f, blocked - 1)
  }

  lemma SetAsideMeans(d: Disk, fallback: Doc)
    ensures Meaning(SetAside(d).file, fallback) == Meaning(d.file, fallback)
    ensures SetAside(SetAside(d)) == SetAside(d) && SetAside(d).temps == d.temps
  {
  }

  /** What the last of several tries left. */
  ghost predicate Succeeded(s: State, e: State, th: Thread, f: Doc -> Doc, blocked: nat) {
    var base := Meaning(s.disk.file, s.fallback);
    && Quiet(e, th) && PcOf(e, th) == Done(Committed)
    && e.disk == SetAside(s.disk).(file := Some(Json(f(base))))
    && e.log == s.log + [Entry(th, Number(s.calls, th) + blocked + 1, Change(f, base, false), SetAside(s.disk).file)]
  }

  lemma {:induction false} DoTries(s: State, th: Thread, f: Doc -> Doc, blocked: nat) returns (e: State)
    requires Quiet(s, th) && TempName(th.pid, NextTemp(s, th.pid).number + blocked) !in s.disk.temps
    ensures CanDo(s, th, Tries(f, blocked)) && e == Do(s, th, Tries(f, blocked))
    ensures Succeeded(s, e, th, f, blocked)
    decreases blocked
  {
    hide CanDo, Do, Meaning, SetAside, UpdateSteps;
    SetAsideMeans(s.disk, s.fallback);
    if blocked == 0 {
      e := UpdateWrites(s, th, f, false);
    } else {
      var m := UpdateIsBlocked(s, th, f);
      e := DoTries(m, th, f, blocked - 1);
      DoBoth(s, th, UpdateSteps(f, false, BLOCKED), Tries(f, blocked - 1));
    }
  }

  /**
   * Temp files left behind by failed writes or dead processes block a thread only as often as their names come up: each
   * try takes the next number, and the first one whose name is free commits the change of what the file stands for.
   */
  lemma LaterUpdateCommits(s: State, th: Thread, f: Doc -> Doc) returns (blocked: nat, e: State)
    requires Quiet(s, th)
    ensures var n := NextTemp(s, th.pid).number;
            forall k :: n <= k < n + blocked ==> TempName(th.pid, k) in s.disk.temps
    ensures TempName(th.pid, NextTemp(s, th.pid).number + blocked) !in s.disk.temps && blocked <= |s.disk.temps|
    ensures IsRun(s, Acts(th, Tries(f, blocked))) && e == FinalState(s, Acts(th, Tries(f, blocked)))
    ensures Succeeded(s, e, th, f, blocked)
  {
    hide CanDo, Do, Succeeded, IsRun, FinalState, Acts, Tries;
    var n := NextTemp(s, th.pid).number;
    blocked := FirstFree(s.disk.temps.Keys, th.pid, n) - n;
    e := DoTries(s, th, f, blocked);
    DoIsRun(s, th, Tries(f, blocked));
  }

  /**
   * The run that loses updates, for every change `f` and every thread: the call reports success, the file holds the
   * change of the default, and the document that stood there is gone.
   */
  lemma MissedFileLosesUpdates(s: State, th: Thread, f: Doc -> Doc, d: Doc) returns (e: State)
    requires Initial(s) && s.start == Some(Json(d)) && NextTemp(s, th.pid) !in s.disk.temps
    ensures IsRun(s, Acts(th, UpdateSteps(f, true, WRITES)))
    ensures e == FinalState(s, Acts(th, UpdateSteps(f, true, WRITES)))
    ensures PcOf(e, th) == Done(Committed) && e.disk.file == Some(Json(f(s.fallback)))
    ensures Fold(d, e.log) == f(d) && (d != s.fallback ==> !AppliedInOrder(d, e.log))
  {
    hide CanDo, Do, IsRun, FinalState, Acts, UpdateSteps, Fold, AppliedInOrder;
    e := UpdateWrites(s, th, f, true);
    DoIsRun(s, th, UpdateSteps(f, true, WRITES));
    OneCommit(d, e.log);
  }

  /** A log of one commit. */
  lemma OneCommit(d: Doc, log: seq<Entry>)
    requires |log| == 1
    ensures Fold(d, log) == log[0].change.f(d) && (AppliedInOrder(d, log) ==> log[0].change.base == d)
  {
    FoldOfNone(d);
    FoldAppend(d, [], log[0]);
    assert [] + [log[0]] == log && log[..0] == [];
  }
}
