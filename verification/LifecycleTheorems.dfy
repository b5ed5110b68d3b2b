/**
  What a supervisor run guarantees, for every schedule of the machine in Lifecycle.
 */
module LifecycleTheorems {
  import opened Basics
  import opened Lifecycle
  import opened LifecycleInvariants

  /** The generations startWorker returned and the loop has not seen exit. */
  ghost function Outstanding(b: Books): set<int> {
    set g | g in b.workers && g !in b.consumed
  }

  ghost function CurrentGeneration(b: Books): set<int> {
    if b.current.Some? then {b.generation} else {}
  }

  /**
    Conservation: every worker ever returned is the current one, an old one or a consumed one, and never
    two of these.  At the select statement there is always a current worker and at most one old worker.
   */
  lemma Conservation(auto: bool, checked: bool, schedule: seq<Action>)
    ensures var b := After(auto, checked, schedule).books;
            && b.workers.Keys == CurrentGeneration(b) + Generations(b.oldWorkers) + b.consumed
            && CurrentGeneration(b) !! Generations(b.oldWorkers)
            && b.consumed !! (CurrentGeneration(b) + Generations(b.oldWorkers))
            && (b.current.Some? ==> b.workers[b.generation].pid == b.current.value)
            && (forall pid | pid in b.oldWorkers :: b.workers[b.oldWorkers[pid]].pid == pid)
            && b.consumed <= b.exited
    ensures var s := After(auto, checked, schedule);
            s.phase.Selecting? ==> s.books.current.Some? && |s.books.oldWorkers| <= 1
  {
    Reachable(auto, checked, schedule);
    var b := After(auto, checked, schedule).books;
    forall g | g in b.workers
      ensures g in CurrentGeneration(b) + Generations(b.oldWorkers) + b.consumed
    {
      assert g in b.consumed || Tracked(b, g);
    }
  }

  /**
    Generations: a step never forgets or alters a worker that was returned, and one that is returned has the
    counter as its generation, above that of every worker before it.
   */
  lemma GenerationsIncrease(auto: bool, checked: bool, schedule: seq<Action>, a: Action)
    ensures var s := After(auto, checked, schedule); var t := Next(s, a);
            && (forall g | g in s.books.workers :: g in t.books.workers && t.books.workers[g] == s.books.workers[g])
            && (forall g | g in t.books.workers && g !in s.books.workers ::
                  g == t.books.generation && forall h | h in s.books.workers :: h < g)
  {
    hide Next, After;
    Reachable(auto, checked, schedule);
    var s := After(auto, checked, schedule);
    WorkersKept(s, a);
    assert forall h | h in s.books.workers :: h <= s.books.generation;
  }

  /** Only the end of a probe adds a worker, under the counter's value. */
  lemma WorkersKept(s: State, a: Action)
    ensures var t := Next(s, a);
            || t.books.workers == s.books.workers
            || (&& s.phase.Probing? && t.books.generation == s.books.generation
                && s.books.generation in t.books.workers
                && t.books.workers == s.books.workers[s.books.generation := t.books.workers[s.books.generation]])
  {
    hide ApplyStart, ApplySelect, ApplyRest;
    if Enabled(s, a) {
      if Starter(a) {
        WorkersStart(s, a);
      } else if Selects(a) {
        WorkersSelect(s, a);
      } else if !Environmental(a) {
        WorkersRest(s, a);
      }
    }
  }

  lemma WorkersStart(s: State, a: Action)
    requires Enabled(s, a) && Starter(a)
    ensures var t := ApplyStart(s, a);
            if a.ProbePasses? || a.ProbeCancelled?
            then t.books.generation == s.books.generation
                 && t.books.workers == s.books.workers[s.books.generation := Worker(s.phase.pid, a.ProbePasses?)]
            else t.books.workers == s.books.workers
  {
  }

  lemma WorkersSelect(s: State, a: Action)
    requires Enabled(s, a) && Selects(a)
    ensures ApplySelect(s, a).books.workers == s.books.workers
  {
    hide Books.Receive, Books.Retire;
    RetireWorkers(s.books);
    if a.ReceiveExit? {
      ReceiveWorkers(s.books, a.gen);
    }
  }

  lemma RetireWorkers(b: Books)
    ensures b.Retire().workers == b.workers
  {
  }

  lemma ReceiveWorkers(b: Books, g: int)
    requires g in b.workers
    ensures b.Receive(g).workers == b.Receive(g).Retire().workers == b.workers
  {
  }

  lemma WorkersRest(s: State, a: Action)
    requires Enabled(s, a) && !Environmental(a) && !Starter(a) && !Selects(a)
    ensures ApplyRest(s, a).books.workers == s.books.workers
  {
  }

  /** Outstanding workers are exactly the tracked ones. */
  lemma OutstandingTracked(b: Books)
    requires Sound(b)
    ensures Outstanding(b) == CurrentGeneration(b) + Generations(b.oldWorkers)
  {
    forall g | g in Outstanding(b)
      ensures g in CurrentGeneration(b) + Generations(b.oldWorkers)
    {
      assert Tracked(b, g);
    }
  }

  /**
    Shutdown: on every way out after a worker was returned, shutdownWorkers sends signalOnTERM to exactly
    the outstanding workers, all of which are then in oldWorkers.
   */
  lemma ShutdownSignals(auto: bool, checked: bool, schedule: seq<Action>)
    requires After(auto, checked, schedule).phase.Stopping?
    ensures var s := After(auto, checked, schedule); var t := Next(s, SignalAll);
            && t.sent.stopSignal == OnTerm
            && t.sent.stopped == Outstanding(s.books) == Generations(t.books.oldWorkers)
  {
    Reachable(auto, checked, schedule);
    var s := After(auto, checked, schedule);
    RetireOutstanding(s.books);
    assert Next(s, SignalAll).books == s.books.Retire();
  }

  lemma RetireOutstanding(b: Books)
    requires Sound(b)
    ensures Generations(b.Retire().oldWorkers) == Outstanding(b)
  {
    RetireSound(b);
    OutstandingTracked(b.Retire());
    assert Outstanding(b.Retire()) == Outstanding(b);
  }

  /** The first deadline is followed by a kill of exactly the workers still outstanding. */
  lemma DeadlineKills(auto: bool, checked: bool, schedule: seq<Action>)
    requires After(auto, checked, schedule).phase == Draining(false)
    ensures var s := After(auto, checked, schedule); Next(s, Deadline).sent.killed == Outstanding(s.books)
  {
    Reachable(auto, checked, schedule);
    OutstandingTracked(After(auto, checked, schedule).books);
  }

  /**
    The end of a run: there is a terminal error; it is ErrServerClosed only if the context was cancelled and
    never the raw context error; every worker that was not reaped was sent signalOnTERM and a kill; and no
    waiter is left blocked.
   */
  lemma EndOfRun(auto: bool, checked: bool, schedule: seq<Action>)
    ensures var s := After(auto, checked, schedule);
            s.phase.Finished? ==>
              && s.err.Some? && s.err.value != ContextError
              && (s.err.value == ServerClosed ==> s.cancelled)
              && (s.books.workers != map[] ==> s.sent.stopSignal == OnTerm)
              && Outstanding(s.books) <= s.sent.stopped * s.sent.killed
              && (forall g | g in s.books.undelivered :: Enabled(s, ReleaseWaiter(g)))
  {
    Reachable(auto, checked, schedule);
    OutstandingTracked(After(auto, checked, schedule).books);
  }

  /** In the wait loop a receive always shrinks oldWorkers by the one worker it was for. */
  lemma DrainShrinks(auto: bool, checked: bool, schedule: seq<Action>, g: int)
    requires var s := After(auto, checked, schedule); s.phase.Draining? && Enabled(s, ReceiveExit(g))
    ensures var s := After(auto, checked, schedule); var t := Next(s, ReceiveExit(g));
            && g in Generations(s.books.oldWorkers)
            && |t.books.oldWorkers| == |s.books.oldWorkers| - 1
            && Outstanding(t.books) == Outstanding(s.books) - {g}
  {
    Reachable(auto, checked, schedule);
    var s := After(auto, checked, schedule);
    ReceiveSound(s.books, g);
    assert Tracked(s.books, g);
  }

  /**
    signalOnHUP reaches a worker at most once, and only when a worker of a strictly higher generation is
    already up: one that passed its probe, unless the context was cancelled.
   */
  lemma HupOnce(auto: bool, checked: bool, schedule: seq<Action>)
    ensures var s := After(auto, checked, schedule);
            && (forall i, j, g | 0 <= i < j < |s.sent.hups| && g in s.sent.hups[i].targets ::
                  g !in s.sent.hups[j].targets)
            && (forall k, g | 0 <= k < |s.sent.hups| && g in s.sent.hups[k].targets ::
                  && g in s.books.workers
                  && g < s.sent.hups[k].newer
                  && s.sent.hups[k].newer in s.books.workers
                  && (s.books.workers[s.sent.hups[k].newer].probed || s.cancelled))
  {
    Reachable(auto, checked, schedule);
  }

  /**
    The hangup ledger: restarts begun, plus a pending and a buffered request, never exceed the calls to
    Hangup plus the timer firings; and a request is pending only while an old worker is draining.
   */
  lemma HangupLedger(auto: bool, checked: bool, schedule: seq<Action>)
    ensures var s := After(auto, checked, schedule);
            && s.counts.restarts + B2N(s.pending) + B2N(s.hangup) <= s.counts.hangupCalls + s.counts.ticks
            && (s.phase.Selecting? && s.pending ==> |s.books.oldWorkers| == 1)
  {
    Reachable(auto, checked, schedule);
  }

  // What a step can change

  /** What both a failed and a finished start, and a step inside startWorker, leave alone. */
  ghost predicate StartsFrom(s: State, t: State) {
    && t.books.consumed == s.books.consumed
    && t.books.oldWorkers == s.books.oldWorkers
    && s.books.generation <= t.books.generation <= s.books.generation + B2N(s.phase.Preparing?)
    && 0 <= t.counts.spawned - s.counts.spawned <= t.books.generation - s.books.generation
    && t.counts.restarts == s.counts.restarts
    && t.pending == s.pending
    && t.cancelled == s.cancelled
    && (t.hangup ==> s.hangup) && (t.timer.tick ==> s.timer.tick)
    && t.snapshots == s.snapshots
  }

  lemma AbortFrame(s: State, books: Books, why: Origin, e: Error)
    requires books == s.books || (books == s.books.Bump() && s.phase.Preparing?)
    ensures var t := AbortStart(s, books, why, e);
            StartsFrom(s, t) && InStop(t.phase) && t.books.current == s.books.current
  {
  }

  lemma AcceptFrame(s: State, why: Origin, pid: int, probed: bool)
    ensures var t := AcceptWorker(s, why, pid, probed); StartsFrom(s, t) && InLoop(t.phase)
  {
  }

  lemma StartFrame(s: State, a: Action)
    requires Enabled(s, a) && Starter(a)
    ensures var t := ApplyStart(s, a);
            && StartsFrom(s, t)
            && (if a.ProbePasses? || a.ProbeCancelled? then InLoop(t.phase) else t.books.current == s.books.current)
            && (s.cancelled ==>
                  || InStop(t.phase)
                  || (s.phase.Preparing? && (t.phase.Probing? || t.phase.Backoff?))
                  || (s.phase.Backoff? && t.phase.Starting?)
                  || (s.phase.Probing? && InLoop(t.phase)))
  {
    hide AbortStart, AcceptWorker;
    match a {
      case CheckContext => AbortFrame(s, s.books, s.phase.why, ContextError);
      case FailSetup => AbortFrame(s, s.books, s.phase.why, SetupError);
      case FailLaunch(_) => AbortFrame(s, s.books.Bump(), s.phase.why, LaunchError);
      case BackoffCancelled => AbortFrame(s, s.books, s.phase.why, ContextError);
      case ProbePasses => AcceptFrame(s, s.phase.why, s.phase.pid, true);
      case ProbeCancelled => AcceptFrame(s, s.phase.why, s.phase.pid, false);
      case ProbeFindsDead =>
        AbortFrame(s, s.books, s.phase.why, EarlyExit);
        AbortFrame(s, s.books, s.phase.why, ContextError);
      case _ =>
    }
  }

  lemma SelectFrame(s: State, a: Action)
    requires Enabled(s, a) && Selects(a)
    ensures var t := ApplySelect(s, a);
            && t.books.consumed == (if a.ReceiveExit? then s.books.consumed + {a.gen} else s.books.consumed)
            && t.books.generation == s.books.generation
            && t.cancelled == s.cancelled && t.counts.spawned == s.counts.spawned && !t.phase.Preparing?
  {
  }

  lemma RestFrame(s: State, a: Action)
    requires Enabled(s, a) && !Environmental(a) && !Starter(a) && !Selects(a)
    ensures var t := ApplyRest(s, a);
            && t.books.consumed == s.books.consumed
            && t.books.generation == s.books.generation
            && t.cancelled == s.cancelled && t.counts.spawned == s.counts.spawned && !t.phase.Preparing?
            && t.counts.restarts == s.counts.restarts
            && t.pending == s.pending
            && (!a.SignalAll? ==> t.books == s.books)
  {
  }

  /** Only a receive consumes, and only a launch attempt moves the generation counter, by one. */
  lemma StepFrame(s: State, a: Action)
    ensures var t := Next(s, a);
            && t.books.consumed == s.books.consumed + (if a.ReceiveExit? && Enabled(s, a) then {a.gen} else {})
            && s.books.generation <= t.books.generation <= s.books.generation + 1
  {
    hide ApplyStart, ApplySelect, ApplyRest;
    if Enabled(s, a) {
      if Starter(a) {
        StartFrame(s, a);
      } else if Selects(a) {
        SelectFrame(s, a);
      } else if !Environmental(a) {
        RestFrame(s, a);
      }
    }
  }

  // Runs that start anywhere

  lemma RunSnoc(s: State, schedule: seq<Action>, a: Action)
    ensures Run(s, schedule + [a]) == Next(Run(s, schedule), a)
  {
    assert (schedule + [a])[..|schedule|] == schedule;
  }

  lemma {:induction false} InvAfter(s: State, schedule: seq<Action>)
    requires Inv(s)
    ensures Inv(Run(s, schedule))
  {
    if schedule != [] {
      InvAfter(s, schedule[..|schedule| - 1]);
      NextKept(Run(s, schedule[..|schedule| - 1]), schedule[|schedule| - 1]);
    }
  }

  /** The loop received from ctrl.hangup in its select statement at some point of the schedule. */
  ghost predicate HangupReceived(s: State, schedule: seq<Action>) {
    schedule != [] &&
    var before := schedule[..|schedule| - 1];
    || HangupReceived(s, before)
    || (schedule[|schedule| - 1] == ReceiveHangup && Enabled(Run(s, before), ReceiveHangup))
  }

  /** A draining worker: old, signalled or about to be, and not yet seen to exit. */
  ghost predicate DrainingWorker(s: State, d: int) {
    d in Generations(s.books.oldWorkers)
  }

  lemma OnlyOldWorker(b: Books, d: int, g: int)
    requires |b.oldWorkers| <= 1 && d in Generations(b.oldWorkers) && g in Generations(b.oldWorkers)
    ensures d == g
  {
    var p :| p in b.oldWorkers && b.oldWorkers[p] == d;
    var q :| q in b.oldWorkers && b.oldWorkers[q] == g;
    assert |b.oldWorkers.Keys - {p}| == 0;
    assert q !in b.oldWorkers.Keys - {p};
  }

  /** An exit other than the draining worker's is the current worker's. */
  lemma OtherExit(s: State, g: int, d: int)
    requires Shape(s) && !InStop(s.phase) && DrainingWorker(s, d) && g != d && g in s.books.undelivered
    ensures s.books.current == Some(s.books.workers[g].pid)
  {
    assert Tracked(s.books, g);
    if s.books.workers[g].pid in s.books.oldWorkers && s.books.oldWorkers[s.books.workers[g].pid] == g {
      OnlyOldWorker(s.books, d, g);
    }
  }

  lemma DrainSelect(s: State, a: Action, d: int)
    requires Shape(s) && Enabled(s, a) && Selects(a) && !InStop(s.phase) && DrainingWorker(s, d) && a != ReceiveExit(d)
    ensures var t := ApplySelect(s, a);
            && t.books.oldWorkers == s.books.oldWorkers
            && t.counts.restarts == s.counts.restarts
            && t.pending == (s.pending || a == ReceiveHangup)
  {
    if a.ReceiveExit? {
      OtherExit(s, a.gen, d);
    }
  }

  lemma DrainStep(s: State, a: Action, d: int)
    requires Inv(s) && Enabled(s, a) && !InStop(s.phase) && DrainingWorker(s, d) && a != ReceiveExit(d)
    ensures var t := Apply(s, a);
            && DrainingWorker(t, d)
            && t.counts.restarts == s.counts.restarts
            && (!InStop(t.phase) ==> t.pending == (s.pending || a == ReceiveHangup))
  {
    hide ApplyStart, ApplySelect, ApplyRest;
    if Starter(a) {
      StartFrame(s, a);
    } else if Selects(a) {
      DrainSelect(s, a, d);
    } else if !Environmental(a) {
      RestFrame(s, a);
    }
  }

  lemma StoppedStays(s: State, a: Action)
    requires InStop(s.phase)
    ensures InStop(Next(s, a).phase) && Next(s, a).counts.restarts == s.counts.restarts && Next(s, a).err == s.err
  {
    hide ApplyStart, ApplySelect, ApplyRest;
    if Enabled(s, a) && !Environmental(a) {
      if Selects(a) {
        StoppedReceive(s, a);
      } else {
        StoppedRest(s, a);
      }
    }
  }

  lemma StoppedReceive(s: State, a: Action)
    requires InStop(s.phase) && Enabled(s, a) && Selects(a)
    ensures var t := ApplySelect(s, a);
            InStop(t.phase) && t.counts.restarts == s.counts.restarts && t.err == s.err
  {
  }

  lemma StoppedRest(s: State, a: Action)
    requires InStop(s.phase) && Enabled(s, a) && !Environmental(a) && !Starter(a) && !Selects(a)
    ensures var t := ApplyRest(s, a);
            InStop(t.phase) && t.counts.restarts == s.counts.restarts && t.err == s.err
  {
  }

  /** The terminal error is recorded once: from then on no schedule changes it. */
  lemma {:induction false} ErrorFinal(auto: bool, checked: bool, prefix: seq<Action>, rest: seq<Action>)
    requires After(auto, checked, prefix).err.Some?
    ensures var t := Run(After(auto, checked, prefix), rest);
            t.err == After(auto, checked, prefix).err && InStop(t.phase)
    decreases |rest|
  {
    hide Next;
    if rest == [] {
      Reachable(auto, checked, prefix);
    } else {
      var n := |rest| - 1;
      ErrorFinal(auto, checked, prefix, rest[..n]);
      StoppedStays(Run(After(auto, checked, prefix), rest[..n]), rest[n]);
    }
  }

  /** While a worker drains no restart begins; a request received meanwhile stays pending. */
  lemma {:induction false} DrainHolds(s: State, schedule: seq<Action>, d: int)
    requires Inv(s) && !InStop(s.phase) && DrainingWorker(s, d)
    requires d !in Run(s, schedule).books.consumed && !InStop(Run(s, schedule).phase)
    ensures var t := Run(s, schedule);
            && DrainingWorker(t, d)
            && t.counts.restarts == s.counts.restarts
            && t.pending == (s.pending || HangupReceived(s, schedule))
  {
    hide Apply;
    if schedule != [] {
      var before, a := schedule[..|schedule| - 1], schedule[|schedule| - 1];
      var r := Run(s, before);
      StepFrame(r, a);
      if InStop(r.phase) {
        StoppedStays(r, a);
      }
      DrainHolds(s, before, d);
      InvAfter(s, before);
      if Enabled(r, a) {
        DrainStep(r, a, d);
      }
    }
  }

  /**
    Coalescing: however many Hangup requests the loop receives while a worker drains, the step that consumes
    that worker's exit begins exactly one restart, or none if there was no request; it also swallows a
    request that is still in the buffer.
   */
  lemma DrainCoalesces(s: State, schedule: seq<Action>, d: int)
    requires Inv(s) && !InStop(s.phase) && DrainingWorker(s, d)
    requires var t := Run(s, schedule); t.phase.Selecting? && Enabled(t, ReceiveExit(d))
    ensures var wanted := s.pending || HangupReceived(s, schedule);
            var u := Run(s, schedule + [ReceiveExit(d)]);
            && u.counts.restarts == s.counts.restarts + B2N(wanted)
            && !u.pending
            && (wanted ==> !u.hangup && u.phase == Reloading(Restart))
  {
    InvAfter(s, schedule);
    DrainHolds(s, schedule, d);
    RunSnoc(s, schedule, ReceiveExit(d));
    var t := Run(s, schedule);
    ReceiveSound(t.books, d);
    assert |t.books.oldWorkers| == 1;
  }

  // Cancellation

  /** Launches still possible in a cancelled run. */
  function Room(s: State): int {
    s.books.generation + B2N(s.phase.Preparing?)
  }

  lemma CancelledStart(s: State, a: Action)
    requires s.cancelled && Enabled(s, a) && Starter(a)
    ensures var t := ApplyStart(s, a);
            && t.cancelled
            && s.books.generation <= t.books.generation && Room(t) <= Room(s)
            && 0 <= t.counts.spawned - s.counts.spawned <= t.books.generation - s.books.generation
  {
    hide ApplyStart;
    StartFrame(s, a);
  }

  lemma CancelledStep(s: State, a: Action)
    requires s.cancelled
    ensures var t := Next(s, a);
            && t.cancelled
            && s.books.generation <= t.books.generation && Room(t) <= Room(s)
            && 0 <= t.counts.spawned - s.counts.spawned <= t.books.generation - s.books.generation
  {
    hide ApplyStart, ApplySelect, ApplyRest;
    if Enabled(s, a) {
      if Starter(a) {
        CancelledStart(s, a);
      } else if Selects(a) {
        SelectFrame(s, a);
      } else if !Environmental(a) {
        RestFrame(s, a);
      }
    }
  }

  /**
    Once the context is cancelled at most one more process is launched, and none at all unless startWorker
    was already past its context check.  In particular nothing is launched after a cancelled loop head.
   */
  lemma {:induction false} CancelStopsSpawning(s: State, schedule: seq<Action>)
    requires s.cancelled
    ensures var t := Run(s, schedule);
            && t.cancelled
            && s.books.generation <= t.books.generation <= s.books.generation + B2N(s.phase.Preparing?)
            && s.counts.spawned <= t.counts.spawned <= s.counts.spawned + B2N(s.phase.Preparing?)
            && Room(t) <= Room(s) && t.counts.spawned - s.counts.spawned <= t.books.generation - s.books.generation
  {
    hide Apply;
    if schedule != [] {
      CancelStopsSpawning(s, schedule[..|schedule| - 1]);
      CancelledStep(Run(s, schedule[..|schedule| - 1]), schedule[|schedule| - 1]);
    }
  }

  /** How far a phase is from the end of a cancelled run. */
  function Rank(p: Phase): nat {
    match p
    case Preparing(_) => 100
    case Probing(_, _) => 95
    case Delaying => 70
    case Publishing => 60
    case Selecting => 50
    case Reloading(_) => 40
    case Backoff(_) => 40
    case Starting(_) => 30
    case Stopping => 20
    case PublishingDrain(forced) => if forced then 6 else 11
    case Draining(forced) => if forced then 5 else 10
    case Finished => 0
  }

  /** The workers the loop still has to see exit. */
  function Burden(b: Books): nat {
    |b.oldWorkers| + B2N(b.current.Some?)
  }

  ghost function Effort(s: State): nat {
    Rank(s.phase) + 12 * Burden(s.books) + 12 * B2N(s.hangup) + 12 * B2N(s.timer.tick)
  }

  lemma RetireBurden(b: Books)
    requires Sound(b)
    ensures Burden(b.Retire()) == Burden(b)
  {
    RetireSound(b);
  }

  lemma ReceiveBurden(b: Books, g: int)
    requires Sound(b) && g in b.undelivered
    ensures Burden(b.Receive(g)) == Burden(b) - 1
    ensures Burden(b.Receive(g).Retire()) == Burden(b) - 1
  {
    ReceiveSound(b, g);
    RetireSound(b.Receive(g));
  }

  predicate Noise(a: Action) {
    a.CallHangup? || a.FireTimer?
  }

  lemma EffortStart(s: State, a: Action)
    requires s.cancelled && s.books.current.None? && Enabled(s, a) && Starter(a)
    ensures Effort(ApplyStart(s, a)) < Effort(s)
  {
    hide ApplyStart;
    StartFrame(s, a);
  }

  lemma EffortReceive(s: State, g: int)
    requires Enabled(s, ReceiveExit(g))
    requires Burden(s.books.Receive(g)) == Burden(s.books.Receive(g).Retire()) == Burden(s.books) - 1
    ensures Effort(ApplySelect(s, ReceiveExit(g))) < Effort(s)
  {
    hide Burden, Books.Receive, Books.Retire;
    var t := ApplySelect(s, ReceiveExit(g));
    assert Burden(t.books) == Burden(s.books) - 1;
    assert t.timer == s.timer && (t.hangup ==> s.hangup);
    assert Rank(t.phase) <= Rank(s.phase) + 10;
  }

  lemma EffortSelect(s: State, a: Action)
    requires Enabled(s, a) && Selects(a) && !a.ReceiveExit?
    requires Burden(s.books.Retire()) == Burden(s.books)
    ensures Effort(ApplySelect(s, a)) < Effort(s)
  {
    hide Burden, Books.Retire;
  }

  lemma EffortSignal(s: State)
    requires s.phase.Stopping? && Burden(s.books.Retire()) == Burden(s.books)
    ensures Effort(ApplyRest(s, SignalAll)) < Effort(s)
  {
  }

  lemma EffortPublish(s: State, a: Action)
    requires Enabled(s, a) && a.Publish?
    ensures Effort(ApplyRest(s, a)) < Effort(s)
  {
    hide SnapshotOf, Effort;
    EffortRank(s, ApplyRest(s, a));
  }

  lemma EffortRest(s: State, a: Action)
    requires Enabled(s, a) && (a.ReloadEnv? || a.DelayOver? || a.Deadline?)
    ensures Effort(ApplyRest(s, a)) < Effort(s)
  {
    hide Effort;
    var t := ApplyRest(s, a);
    EffortRank(s, t);
  }

  /** With nothing else changed, a lower rank is less effort. */
  lemma EffortRank(s: State, t: State)
    requires t.books == s.books && t.timer == s.timer && (t.hangup ==> s.hangup) && Rank(t.phase) < Rank(s.phase)
    ensures Effort(t) < Effort(s)
  {
  }

  /** Only a Hangup call or a timer firing can add effort from outside. */
  lemma EffortNoise(s: State, a: Action)
    requires Enabled(s, a) && Environmental(a)
    ensures Effort(ApplyEnvironment(s, a)) <= Effort(s) + 12 * B2N(Noise(a))
  {
  }

  /** In a cancelled run every step of the loop goroutine uses up effort. */
  lemma EffortUsed(s: State, a: Action)
    requires Shape(s) && s.cancelled && Enabled(s, a) && !Environmental(a)
    ensures Effort(Apply(s, a)) < Effort(s)
  {
    hide ApplyEnvironment, ApplyStart, ApplySelect, ApplyRest, Effort, Books.Receive, Books.Retire;
    RetireBurden(s.books);
    if Starter(a) {
      EffortStart(s, a);
    } else if a.ReceiveExit? {
      ReceiveBurden(s.books, a.gen);
      EffortReceive(s, a.gen);
    } else if Selects(a) {
      EffortSelect(s, a);
    } else if a.SignalAll? {
      EffortSignal(s);
    } else if a.Publish? {
      EffortPublish(s, a);
    } else {
      EffortRest(s, a);
    }
  }

  /** Steps the loop goroutine takes in a schedule. */
  ghost function LoopSteps(s: State, schedule: seq<Action>): nat {
    if schedule == [] then 0
    else
      var before, a := schedule[..|schedule| - 1], schedule[|schedule| - 1];
      LoopSteps(s, before) + B2N(!Environmental(a) && Enabled(Run(s, before), a))
  }

  /** Calls to Hangup and timer firings in a schedule. */
  function NoiseCount(schedule: seq<Action>): nat {
    if schedule == [] then 0
    else NoiseCount(schedule[..|schedule| - 1]) + B2N(Noise(schedule[|schedule| - 1]))
  }

  /**
    Bounded shutdown: after a cancellation the loop goroutine takes a bounded number of further steps, plus
    a bounded number for each later Hangup call or timer firing.
   */
  lemma {:induction false} BoundedShutdown(s: State, schedule: seq<Action>)
    requires Inv(s) && s.cancelled
    ensures LoopSteps(s, schedule) + Effort(Run(s, schedule)) <= Effort(s) + 12 * NoiseCount(schedule)
    ensures Effort(s) <= 160
  {
    hide ApplyEnvironment, ApplyStart, ApplySelect, ApplyRest;
    if schedule != [] {
      var before, a := schedule[..|schedule| - 1], schedule[|schedule| - 1];
      BoundedShutdown(s, before);
      InvAfter(s, before);
      CancelStopsSpawning(s, before);
      if Enabled(Run(s, before), a) {
        if Environmental(a) {
          EffortNoise(Run(s, before), a);
        } else {
          EffortUsed(Run(s, before), a);
        }
      }
    }
  }

  /** The next step of the loop goroutine in a cancelled run; it never has to wait for anybody. */
  function Shutdown(p: Phase): Action {
    match p
    case Reloading(_) => ReloadEnv(true)
    case Starting(_) => CheckContext
    case Preparing(_) => FailSetup
    case Backoff(_) => BackoffOver
    case Probing(_, _) => ProbeCancelled
    case Delaying => DelayOver
    case Publishing => Publish(true)
    case Selecting => ReceiveCancel
    case Stopping => SignalAll
    case Draining(_) => Deadline
    case PublishingDrain(_) => Publish(true)
    case Finished => ReceiveCancel
  }

  /**
    A cancelled run comes to its end: until it has finished the loop goroutine can always take a step, and it
    has finished by the time it has taken 160 steps plus 12 for each later Hangup call or timer firing.
   */
  lemma ShutdownCompletes(auto: bool, checked: bool, prefix: seq<Action>, rest: seq<Action>)
    requires After(auto, checked, prefix).cancelled
    ensures var s := After(auto, checked, prefix);
            && (!s.phase.Finished? ==> Enabled(s, Shutdown(s.phase)) && !Environmental(Shutdown(s.phase)))
            && LoopSteps(s, rest) <= 160 + 12 * NoiseCount(rest)
  {
    Reachable(auto, checked, prefix);
    BoundedShutdown(After(auto, checked, prefix), rest);
  }

  /** The generation counter is bounded by the number of steps taken. */
  lemma {:induction false} GenerationBound(auto: bool, checked: bool, schedule: seq<Action>)
    ensures 0 <= After(auto, checked, schedule).books.generation <= |schedule|
  {
    hide Apply;
    if schedule != [] {
      GenerationBound(auto, checked, schedule[..|schedule| - 1]);
      StepFrame(After(auto, checked, schedule[..|schedule| - 1]), schedule[|schedule| - 1]);
    }
  }
}
