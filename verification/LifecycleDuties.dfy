/**
  What the supervisor must do, and not only what it must not: tell old workers to leave, keep its timer running, record
  the error that ended it, count every launch, and publish what it tracks before it waits.
 */
module LifecycleDuties {
  import opened Basics
  import opened Lifecycle
  import opened LifecycleInvariants
  import opened LifecycleTheorems

  // Old workers are told to leave

  /** The worker was sent signalOnHUP. */
  ghost predicate Signalled(hups: seq<HupRound>, g: int) {
    exists k :: 0 <= k < |hups| && g in hups[k].targets
  }

  /** Every old worker was. */
  ghost predicate AllSignalled(oldWorkers: map<int, int>, hups: seq<HupRound>) {
    forall pid | pid in oldWorkers :: Signalled(hups, oldWorkers[pid])
  }

  /** Outside of a restart under way, and before the shutdown, every old worker has been told. */
  ghost predicate Told(s: State) {
    !InStop(s.phase) && !InRestart(s.phase) ==> AllSignalled(s.books.oldWorkers, s.sent.hups)
  }

  lemma ToldInStart(s: State, a: Action)
    requires Told(s) && Enabled(s, a) && Starter(a)
    ensures Told(ApplyStart(s, a))
  {
    hide ApplyStart, AllSignalled;
    StartFrame(s, a);
    StartKeepsWhy(s, a);
    assert |s.books.oldWorkers| == 0 ==> AllSignalled(s.books.oldWorkers, s.sent.hups) by { NobodyToTell(s); }
  }

  lemma NobodyToTell(s: State)
    ensures |s.books.oldWorkers| == 0 ==> AllSignalled(s.books.oldWorkers, s.sent.hups)
  {
  }

  /** startWorker works for one origin, and only a restart with an old worker goes on to signal. */
  ghost predicate StartedFor(why: Origin, s: State, t: State) {
    && t.sent == s.sent
    && (InStart(t.phase) ==> t.phase.why == why)
    && (t.phase.Publishing? && why.Restart? ==> |s.books.oldWorkers| == 0)
    && (t.phase.Delaying? ==> why.Restart?)
    && (InStart(t.phase) || InStop(t.phase) || t.phase.Publishing? || t.phase.Delaying?)
  }

  lemma StartKeepsWhy(s: State, a: Action)
    requires Enabled(s, a) && Starter(a)
    ensures StartedFor(s.phase.why, s, ApplyStart(s, a))
  {
    hide AbortStart, AcceptWorker;
    match a {
      case CheckContext => AbortKeeps(s, s.books, s.phase.why, ContextError);
      case FailSetup => AbortKeeps(s, s.books, s.phase.why, SetupError);
      case FailLaunch(_) => AbortKeeps(s, s.books.Bump(), s.phase.why, LaunchError);
      case BackoffCancelled => AbortKeeps(s, s.books, s.phase.why, ContextError);
      case ProbePasses => AcceptKeeps(s, s.phase.why, s.phase.pid, true);
      case ProbeCancelled => AcceptKeeps(s, s.phase.why, s.phase.pid, false);
      case ProbeFindsDead =>
        AbortKeeps(s, s.books, s.phase.why, EarlyExit);
        AbortKeeps(s, s.books, s.phase.why, ContextError);
      case _ =>
    }
  }

  lemma AbortKeeps(s: State, books: Books, why: Origin, e: Error)
    ensures var t := AbortStart(s, books, why, e); t.sent == s.sent && InStop(t.phase)
  {
  }

  lemma AcceptKeeps(s: State, why: Origin, pid: int, probed: bool)
    ensures var t := AcceptWorker(s, why, pid, probed);
            && t.sent == s.sent
            && t.phase == if why.Restart? && |s.books.oldWorkers| != 0 then Delaying else Publishing
  {
  }

  lemma ToldInSelect(s: State, a: Action)
    requires Told(s) && Enabled(s, a) && Selects(a)
    ensures Told(ApplySelect(s, a))
  {
    hide ApplySelect;
    SelectShrinks(s, a);
  }

  /** No entry that was not there. */
  ghost predicate Within(m: map<int, int>, n: map<int, int>) {
    forall pid | pid in m :: pid in n && m[pid] == n[pid]
  }

  lemma ReceiveShrinks(b: Books, g: int)
    requires g in b.workers
    ensures Within(b.Receive(g).oldWorkers, b.oldWorkers)
  {
  }

  lemma WithinSame(m: map<int, int>)
    ensures Within(m, m)
  {
  }

  /** A receive begins a restart, or leaves oldWorkers with no entry it did not have. */
  lemma SelectShrinks(s: State, a: Action)
    requires Enabled(s, a) && Selects(a)
    ensures var t := ApplySelect(s, a);
            && t.sent == s.sent
            && (InRestart(t.phase) || InStop(t.phase)
                || (s.phase.Selecting? && Within(t.books.oldWorkers, s.books.oldWorkers)))
  {
    hide Books.Retire, Books.Receive, Within;
    WithinSame(s.books.oldWorkers);
    if a.ReceiveExit? {
      ReceiveShrinks(s.books, a.gen);
    }
  }

  lemma ToldInRest(s: State, a: Action)
    requires Told(s) && Enabled(s, a) && !Environmental(a) && !Starter(a) && !Selects(a)
    ensures Told(ApplyRest(s, a))
  {
    hide SnapshotOf, StatusMap;
    if a.DelayOver? {
      RoundSignals(s.books.oldWorkers, s.sent.hups, s.books.generation);
    }
  }

  lemma RoundSignals(oldWorkers: map<int, int>, hups: seq<HupRound>, generation: int)
    ensures AllSignalled(oldWorkers, hups + [HupRound(Generations(oldWorkers), generation)])
  {
    var more := hups + [HupRound(Generations(oldWorkers), generation)];
    forall pid | pid in oldWorkers
      ensures Signalled(more, oldWorkers[pid])
    {
      assert oldWorkers[pid] in more[|hups|].targets;
    }
  }

  lemma ToldOutside(s: State, a: Action)
    requires Told(s) && Enabled(s, a) && Environmental(a)
    ensures Told(ApplyEnvironment(s, a))
  {
    hide AllSignalled;
  }

  lemma ToldStep(s: State, a: Action)
    requires Told(s)
    ensures Told(Next(s, a))
  {
    hide ApplyEnvironment, ApplyStart, ApplySelect, ApplyRest, Told;
    if Enabled(s, a) {
      if Environmental(a) {
        ToldOutside(s, a);
      } else if Starter(a) {
        ToldInStart(s, a);
      } else if Selects(a) {
        ToldInSelect(s, a);
      } else {
        ToldInRest(s, a);
      }
    }
  }

  /**
    No old worker is forgotten: after every schedule, unless a restart is still under way or the run is shutting down,
    every worker in oldWorkers has been sent signalOnHUP.
   */
  lemma {:induction false} OldWorkersTold(auto: bool, checked: bool, schedule: seq<Action>)
    ensures Told(After(auto, checked, schedule))
  {
    hide Next, AllSignalled;
    if schedule == [] {
      NobodyToTell(Init(auto, checked));
    } else {
      var n := |schedule| - 1;
      OldWorkersTold(auto, checked, schedule[..n]);
      ToldStep(After(auto, checked, schedule[..n]), schedule[n]);
    }
  }

  // The timer

  /** The timer runs or its tick waits to be received, never both; without auto-restart there is none. */
  ghost predicate Ticking(s: State, auto: bool) {
    && s.timer.auto == auto
    && !(s.timer.armed && s.timer.tick)
    && (s.timer.armed || s.timer.tick ==> auto)
    && (InLoop(s.phase) && auto ==> s.timer.armed || s.timer.tick)
  }

  lemma TickingInStart(s: State, a: Action, auto: bool)
    requires Ticking(s, auto) && Enabled(s, a) && Starter(a)
    ensures Ticking(ApplyStart(s, a), auto)
  {
  }

  lemma TickingInSelect(s: State, a: Action, auto: bool)
    requires Ticking(s, auto) && Enabled(s, a) && Selects(a)
    ensures Ticking(ApplySelect(s, a), auto)
    ensures a.ReceiveTick? ==> !ApplySelect(s, a).timer.tick
  {
    hide Books.Receive, Books.Retire;
  }

  lemma TickingInRest(s: State, a: Action, auto: bool)
    requires Ticking(s, auto) && Enabled(s, a) && !Environmental(a) && !Starter(a) && !Selects(a)
    ensures Ticking(ApplyRest(s, a), auto)
  {
    hide SnapshotOf, StatusMap, Books.Retire;
  }

  lemma TickingOutside(s: State, a: Action, auto: bool)
    requires Ticking(s, auto) && Enabled(s, a) && Environmental(a)
    ensures Ticking(ApplyEnvironment(s, a), auto)
  {
  }

  lemma TickingStep(s: State, a: Action, auto: bool)
    requires Ticking(s, auto)
    ensures Ticking(Next(s, a), auto)
  {
    hide ApplyEnvironment, ApplyStart, ApplySelect, ApplyRest, Ticking;
    if Enabled(s, a) {
      if Environmental(a) {
        TickingOutside(s, a, auto);
      } else if Starter(a) {
        TickingInStart(s, a, auto);
      } else if Selects(a) {
        TickingInSelect(s, a, auto);
      } else {
        TickingInRest(s, a, auto);
      }
    }
  }

  /** With auto-restart, the loop never waits without a timer that is running or has fired. */
  lemma {:induction false} TimerRuns(auto: bool, checked: bool, schedule: seq<Action>)
    ensures Ticking(After(auto, checked, schedule), auto)
  {
    hide Next;
    if schedule != [] {
      var n := |schedule| - 1;
      TimerRuns(auto, checked, schedule[..n]);
      TickingStep(After(auto, checked, schedule[..n]), schedule[n], auto);
    }
  }

  // The terminal error

  /** The error with which an action ends a run, if it does. */
  function Cause(s: State, a: Action): Option<Error> {
    match a
    case FailSetup => Some(SetupError)
    case FailLaunch(terminal) => if terminal then Some(LaunchError) else None
    case ReloadEnv(ok) => if ok then None else Some(EnvdirError)
    case ReceiveCancel => Some(ServerClosed)
    case BackoffCancelled => Some(ServerClosed)
    case CheckContext => if s.cancelled then Some(ServerClosed) else None
    case ProbeFindsDead =>
      if s.phase.Probing? && s.phase.why == Initial(true) then Some(EarlyExit)
      else if s.cancelled then Some(ServerClosed) else None
    case _ => None
  }

  lemma CauseInStart(s: State, a: Action)
    requires s.err.None? && Enabled(s, a) && Starter(a)
    ensures ApplyStart(s, a).err == Cause(s, a)
  {
  }

  lemma CauseInSelect(s: State, a: Action)
    requires s.err.None? && Enabled(s, a) && Selects(a)
    ensures ApplySelect(s, a).err == Cause(s, a)
  {
    hide Books.Receive, Books.Retire;
  }

  lemma CauseInRest(s: State, a: Action)
    requires s.err.None? && Enabled(s, a) && !Environmental(a) && !Starter(a) && !Selects(a)
    ensures ApplyRest(s, a).err == Cause(s, a)
  {
    hide SnapshotOf, StatusMap, Books.Retire;
  }

  /**
    The error tells the cause: a run ends by exactly the actions that have one, with that error.  In particular whatever
    the context cuts short ends with ErrServerClosed, and transient launch errors and unchecked early exits end nothing.
   */
  lemma ErrorTellsCause(s: State, a: Action)
    requires s.err.None? && Enabled(s, a)
    ensures Next(s, a).err == Cause(s, a)
  {
    hide ApplyStart, ApplySelect, ApplyRest, Cause;
    if Starter(a) {
      CauseInStart(s, a);
    } else if Selects(a) {
      CauseInSelect(s, a);
    } else if Environmental(a) {
      OutsideEndsNothing(s, a);
    } else {
      CauseInRest(s, a);
    }
  }

  lemma OutsideEndsNothing(s: State, a: Action)
    requires s.err.None? && Enabled(s, a) && Environmental(a)
    ensures ApplyEnvironment(s, a).err == Cause(s, a)
  {
  }

  // The generation counter

  /** A launch is attempted, whether or not it succeeds. */
  predicate Attempts(a: Action) {
    a.Launch? || a.FailLaunch?
  }

  lemma CountInStart(s: State, a: Action)
    requires Enabled(s, a) && Starter(a)
    ensures ApplyStart(s, a).books.generation == s.books.generation + B2N(Attempts(a))
  {
  }

  lemma CountStep(s: State, a: Action)
    ensures Next(s, a).books.generation == s.books.generation + B2N(Enabled(s, a) && Attempts(a))
  {
    hide ApplyEnvironment, ApplyStart, ApplySelect, ApplyRest;
    if Enabled(s, a) {
      if Environmental(a) {
        OutsideLaunchesNothing(s, a);
      } else if Starter(a) {
        CountInStart(s, a);
      } else if Selects(a) {
        SelectFrame(s, a);
      } else {
        RestFrame(s, a);
      }
    }
  }

  lemma OutsideLaunchesNothing(s: State, a: Action)
    requires Enabled(s, a) && Environmental(a)
    ensures ApplyEnvironment(s, a).books.generation == s.books.generation
  {
  }

  /** The launches attempted in a schedule. */
  ghost function Launches(auto: bool, checked: bool, schedule: seq<Action>): nat {
    if schedule == [] then 0
    else
      var before, a := schedule[..|schedule| - 1], schedule[|schedule| - 1];
      Launches(auto, checked, before) + B2N(Enabled(After(auto, checked, before), a) && Attempts(a))
  }

  /** SERVER_STARTER_GENERATION counts the launches attempted. */
  lemma {:induction false} GenerationCounts(auto: bool, checked: bool, schedule: seq<Action>)
    ensures After(auto, checked, schedule).books.generation == Launches(auto, checked, schedule)
  {
    hide Next, Enabled;
    if schedule != [] {
      var n := |schedule| - 1;
      GenerationCounts(auto, checked, schedule[..n]);
      CountStep(After(auto, checked, schedule[..n]), schedule[n]);
    }
  }

  // Requests that belong to a restart

  /**
    A request that comes in while a replacement or the worker of a restart is being brought up belongs to it: when the
    loop goes back to its head the slot is empty.  One that comes in during the first start is kept.
   */
  lemma RequestsFolded(s: State, a: Action)
    requires Enabled(s, a) && Next(s, a).phase.Publishing?
    ensures s.phase.Probing? ==> Next(s, a).hangup == (s.hangup && s.phase.why.Initial?)
    ensures s.phase.Delaying? && a.DelayOver? ==> !Next(s, a).hangup
  {
    hide ApplySelect, SnapshotOf;
    if s.phase.Probing? && Starter(a) {
      AcceptedSlot(s, a);
    }
  }

  lemma AcceptedSlot(s: State, a: Action)
    requires Enabled(s, a) && s.phase.Probing? && Starter(a) && ApplyStart(s, a).phase.Publishing?
    ensures ApplyStart(s, a).hangup == (s.hangup && s.phase.why.Initial?)
  {
  }

  // Restarts begin

  /**
    A request or a tick that is received with no old worker left begins a restart: the current worker becomes the one
    old worker, and a new one is brought up.  With an old worker still there a request is held back, and a tick sets the
    timer again.
   */
  lemma RestartBegins(auto: bool, checked: bool, schedule: seq<Action>, a: Action)
    requires a.ReceiveHangup? || a.ReceiveTick?
    requires Enabled(After(auto, checked, schedule), a)
    ensures var s := After(auto, checked, schedule); var t := Next(s, a);
            if |s.books.oldWorkers| == 0 then
              && t.phase == Reloading(Restart) && t.counts.restarts == s.counts.restarts + 1
              && s.books.current.Some? && t.books.current.None?
              && t.books.oldWorkers == map[s.books.current.value := s.books.generation]
              && !t.pending
            else
              && t.phase.Publishing? && t.books == s.books && t.counts.restarts == s.counts.restarts
              && t.pending == (s.pending || a.ReceiveHangup?)
              && (a.ReceiveTick? ==> t.timer.armed == auto && !t.timer.tick)
  {
    Reachable(auto, checked, schedule);
    TimerRuns(auto, checked, schedule);
    BeginsStep(After(auto, checked, schedule), a);
  }

  lemma BeginsStep(s: State, a: Action)
    requires Inv(s) && Enabled(s, a) && (a.ReceiveHangup? || a.ReceiveTick?)
    ensures var t := Next(s, a);
            if |s.books.oldWorkers| == 0 then
              && t.phase == Reloading(Restart) && t.counts.restarts == s.counts.restarts + 1
              && s.books.current.Some? && t.books.current.None?
              && t.books.oldWorkers == map[s.books.current.value := s.books.generation]
              && !t.pending
            else
              && t.phase.Publishing? && t.books == s.books && t.counts.restarts == s.counts.restarts
              && t.pending == (s.pending || a.ReceiveHangup?)
              && (a.ReceiveTick? ==> t.timer.armed == s.timer.auto && !t.timer.tick)
  {
    hide Exit, Hups, Ledger, Published;
    assert Shape(s);
    if |s.books.oldWorkers| == 0 {
      assert s.books.oldWorkers == map[];
    }
  }

  /** The exit of the current worker is followed by a replacement, whatever else is going on. */
  lemma ReplacementBegins(auto: bool, checked: bool, schedule: seq<Action>, g: int)
    requires var s := After(auto, checked, schedule); s.phase.Selecting? && Enabled(s, ReceiveExit(g))
    ensures var s := After(auto, checked, schedule); var t := Next(s, ReceiveExit(g));
            && (g == s.books.generation ==>
                  t.phase == Reloading(Replacement) && t.books.oldWorkers == s.books.oldWorkers)
            && (g != s.books.generation ==> t.books.oldWorkers == map[] || t.phase == Reloading(Restart))
  {
    Reachable(auto, checked, schedule);
    ExitStep(After(auto, checked, schedule), g);
  }

  lemma ExitStep(s: State, g: int)
    requires Inv(s) && s.phase.Selecting? && Enabled(s, ReceiveExit(g))
    ensures var t := Next(s, ReceiveExit(g));
            && (g == s.books.generation ==>
                  t.phase == Reloading(Replacement) && t.books.oldWorkers == s.books.oldWorkers)
            && (g != s.books.generation ==> t.books.oldWorkers == map[] || t.phase == Reloading(Restart))
  {
    hide Exit, Hups, Ledger, Published;
    assert Shape(s) && Tracked(s.books, g);
    ReceiveSound(s.books, g);
  }

  // Publishing

  /** The goroutine waits for workers or requests. */
  predicate Waiting(p: Phase) {
    p.Selecting? || p.Draining?
  }

  /**
    The loop publishes before it waits: it comes to the select, or back to the wait loop after a receive, only by
    publishing, and the file then lists exactly the outstanding workers.  Nothing else writes the file.
   */
  lemma PublishedBeforeWaiting(auto: bool, checked: bool, schedule: seq<Action>, a: Action)
    ensures var s := After(auto, checked, schedule); var t := Next(s, a);
            && (Enabled(s, a) && !Environmental(a) && Waiting(t.phase) ==> a.Publish? || a.SignalAll? || a.Deadline?)
            && (a.Publish? && Enabled(s, a) ==>
                  && t.books == s.books
                  && (if a.ok then |t.snapshots| == |s.snapshots| + 1 && s.snapshots < t.snapshots
                                   && Shows(t.snapshots[|s.snapshots|], s.books)
                      else t.snapshots == s.snapshots))
            && (!a.Publish? ==> t.snapshots == s.snapshots)
  {
    hide Next;
    var s := After(auto, checked, schedule);
    Reachable(auto, checked, schedule);
    PublishStep(s, a);
  }

  /** The file lists exactly the workers that were returned and not received, with their pids. */
  ghost predicate Shows(snap: Snapshot, b: Books) {
    snap.status.Keys == Outstanding(b) && forall g | g in snap.status :: snap.status[g] == b.workers[g].pid
  }

  lemma PublishStep(s: State, a: Action)
    requires Inv(s)
    ensures var t := Next(s, a);
            && (Enabled(s, a) && !Environmental(a) && Waiting(t.phase) ==> a.Publish? || a.SignalAll? || a.Deadline?)
            && (a.Publish? && Enabled(s, a) ==>
                  && t.books == s.books
                  && (if a.ok then |t.snapshots| == |s.snapshots| + 1 && s.snapshots < t.snapshots
                                   && Shows(t.snapshots[|s.snapshots|], s.books)
                      else t.snapshots == s.snapshots))
            && (!a.Publish? ==> t.snapshots == s.snapshots)
  {
    hide Inv, ApplyStart, ApplySelect, ApplyEnvironment, Shows;
    if Enabled(s, a) {
      if Environmental(a) {
        OutsideKeepsPhase(s, a);
      } else if Starter(a) {
        StartFrame(s, a);
        StartKeepsWhy(s, a);
        StartNeverWaits(s, a);
      } else if Selects(a) {
        SelectNeverWaits(s, a);
      } else if a.Publish? {
        ShownExactly(s);
      }
    }
  }

  lemma OutsideKeepsPhase(s: State, a: Action)
    requires Enabled(s, a) && Environmental(a)
    ensures ApplyEnvironment(s, a).phase == s.phase && ApplyEnvironment(s, a).snapshots == s.snapshots
  {
  }

  lemma StartNeverWaits(s: State, a: Action)
    requires Enabled(s, a) && Starter(a)
    ensures !Waiting(ApplyStart(s, a).phase)
  {
  }

  lemma SelectNeverWaits(s: State, a: Action)
    requires Enabled(s, a) && Selects(a)
    ensures !Waiting(ApplySelect(s, a).phase) && ApplySelect(s, a).snapshots == s.snapshots
  {
    hide Books.Receive, Books.Retire;
  }

  lemma ShownExactly(s: State)
    requires Inv(s) && (s.phase.Publishing? || s.phase.PublishingDrain?)
    ensures Shows(SnapshotOf(s.books, if s.phase.Publishing? then s.books.current else None), s.books)
  {
    StatusMapExact(s.books);
    assert Shape(s);
  }
}
