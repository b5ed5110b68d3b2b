/**
  The supervisor's event loop as a step machine.

  One step is either something the environment does (a call to Hangup, a cancellation, a timer firing,
  a worker process exiting) or one atomic piece of the loop goroutine (internal/supervisor/supervisor.go
  `loop`, `shutdownWorkers`, `waitForWorkers`; internal/supervisor/worker.go `startWorker`).  A schedule
  is any sequence of such steps, so a statement about every schedule is a statement about every
  interleaving.  A step that is not enabled leaves the state alone.

  A worker is identified by its generation, because an operating system may hand a process id out again
  once the exit of the previous holder has been consumed.
 */
module Lifecycle {
  import opened Basics

  datatype Error = ServerClosed | ContextError | SetupError | LaunchError | EarlyExit | EnvdirError

  datatype Signal = NoSignal | OnHup | OnTerm

  /** On whose behalf startWorker runs. */
  datatype Origin = Initial(checked: bool) | Replacement | Restart

  /** Where the loop goroutine stands. */
  datatype Phase =
    | Reloading(why: Origin)              // reloadEnvdir, before startWorker
    | Starting(why: Origin)               // top of startWorker's retry loop, before the context check
    | Preparing(why: Origin)              // context check passed: descriptor table and environment
    | Backoff(why: Origin)                // transient launch error: waitForWorkerStartRetry
    | Probing(why: Origin, pid: int)      // launched: waitForProbe and findWorker
    | Delaying                            // new worker is up: killOldDelay, then signalOnHUP
    | Publishing                          // loop head: WriteStatus
    | Selecting                           // the select statement
    | Stopping                            // deferred function: signal every worker
    | Draining(forced: bool)              // waitForWorkers, before or after the kill
    | PublishingDrain(forced: bool)       // WriteStatus after a receive in waitForWorkers
    | Finished                            // done is closed

  /** A process that startWorker returned; `probed` is false when cancellation cut its probe short. */
  datatype Worker = Worker(pid: int, probed: bool)

  /**
    The loop's variables about workers, beside the record of what really happened to them.
   */
  datatype Books = Books(
    current: Option<int>,        // p
    generation: int,             // rs.generation
    oldWorkers: map<int, int>,   // rs.oldWorkers, pid to generation
    undelivered: set<int>,       // generations whose waiter is blocked sending on workerCh
    workers: map<int, Worker>,   // everything startWorker returned, by generation
    exited: set<int>,            // workers whose process ended
    consumed: set<int>)          // workers whose exit the loop received
  {
    /** A worker was returned by startWorker and its exit has not been received. */
    predicate Unconsumed(g: int) {
      g in workers && g !in consumed
    }

    /** A pid a launch may report: a positive int, and not one that is still tracked or waiting to be delivered. */
    predicate Fresh(pid: int) {
      0 < pid <= MAX_INT && forall g | g in workers && g !in consumed :: workers[g].pid != pid
    }

    /** rs.generation++ */
    function Bump(): Books {
      this.(generation := generation + 1)
    }

    /** startWorker returns; its waiter starts. */
    function Accept(pid: int, probed: bool): Books {
      this.(workers := workers[generation := Worker(pid, probed)], current := Some(pid))
    }

    /** oldWorkers[p.Pid] = rs.generation when p is not nil; p = nil. */
    function Retire(): Books {
      this.(oldWorkers := if current.Some? then oldWorkers[current.value := generation] else oldWorkers,
            current := None)
    }

    /** The process of a worker ends and its waiter blocks on the channel. */
    function Exits(g: int): Books {
      this.(exited := exited + {g}, undelivered := undelivered + {g})
    }

    /** A waiter leaves because workerStateDone is closed. */
    function Release(g: int): Books {
      this.(undelivered := undelivered - {g})
    }

    /** A receive from workerCh; the loop looks at nothing but the pid. */
    function Receive(g: int): Books
      requires g in workers
    {
      var pid := workers[g].pid;
      this.(consumed := consumed + {g},
            undelivered := undelivered - {g},
            current := if current == Some(pid) then None else current,
            oldWorkers := if current == Some(pid) then oldWorkers else oldWorkers - {pid})
    }
  }

  /** The auto-restart timer: configured, running, and ready to be received from. */
  datatype Timer = Timer(auto: bool, armed: bool, tick: bool) {
    function Fire(): Timer {
      this.(armed := false, tick := true)
    }

    /** timer.Reset, when there is a timer. */
    function Reset(): Timer {
      this.(armed := auto, tick := false)
    }
  }

  datatype Counts = Counts(spawned: nat, restarts: nat, hangupCalls: nat, ticks: nat) {
    function Restarted(now: bool): Counts {
      this.(restarts := restarts + if now then 1 else 0)
    }
  }

  /** One pass over oldWorkers that sends signalOnHUP: the generations signalled, and the one then up. */
  datatype HupRound = HupRound(targets: set<int>, newer: int)

  /** Signals sent: the signalOnHUP passes, the shutdown signal and its targets, the kills. */
  datatype Sent = Sent(hups: seq<HupRound>, stopSignal: Signal, stopped: set<int>, killed: set<int>)

  /** A status file that was written, with the counter and the consumed exits at that moment. */
  datatype Snapshot = Snapshot(status: map<int, int>, generation: int, consumed: set<int>)

  datatype State = State(
    phase: Phase,
    books: Books,
    hangup: bool,                // the one-slot ctrl.hangup buffer
    pending: bool,               // hangupPending
    timer: Timer,                // rs.restartTimer and rs.restartC
    cancelled: bool,             // ctx.Err() != nil
    err: Option<Error>,          // ctrl.err
    sig: Signal,                 // sigToSend
    released: bool,              // workerStateDone is closed
    counts: Counts,
    sent: Sent,
    snapshots: seq<Snapshot>)

  datatype Action =
    // environment
    | CallHangup | Cancel | FireTimer | WorkerExits(gen: int) | ReleaseWaiter(gen: int)
    // startWorker
    | CheckContext | FailSetup | Launch(pid: int) | FailLaunch(terminal: bool)
    | BackoffOver | BackoffCancelled
    | ProbePasses | ProbeCancelled | ProbeFindsDead
    // loop
    | ReloadEnv(ok: bool) | DelayOver | Publish(ok: bool)
    | ReceiveExit(gen: int) | ReceiveCancel | ReceiveHangup | ReceiveTick
    // shutdownWorkers
    | SignalAll | Deadline

  predicate Environmental(a: Action) {
    a.CallHangup? || a.Cancel? || a.FireTimer? || a.WorkerExits? || a.ReleaseWaiter?
  }

  /** A step inside startWorker. */
  predicate Starter(a: Action) {
    || a.CheckContext? || a.FailSetup? || a.Launch? || a.FailLaunch? || a.BackoffOver? || a.BackoffCancelled?
    || a.ProbePasses? || a.ProbeCancelled? || a.ProbeFindsDead?
  }

  /** A receive in the select statement. */
  predicate Selects(a: Action) {
    a.ReceiveExit? || a.ReceiveCancel? || a.ReceiveHangup? || a.ReceiveTick?
  }

  function Init(auto: bool, checked: bool): State {
    State(Starting(Initial(checked)), Books(None, 0, map[], {}, map[], {}, {}), false, false,
          Timer(auto, false, false), false, None, NoSignal, false,
          Counts(0, 0, 0, 0), Sent([], NoSignal, {}, {}), [])
  }

  predicate Enabled(s: State, a: Action) {
    match a
    case CallHangup => true
    case Cancel => true
    case FireTimer => s.timer.armed
    case WorkerExits(g) => g in s.books.workers && g !in s.books.exited
    case ReleaseWaiter(g) => s.released && g in s.books.undelivered
    case CheckContext => s.phase.Starting?
    case FailSetup => s.phase.Preparing?
    case Launch(pid) => s.phase.Preparing? && s.books.Fresh(pid)
    case FailLaunch(_) => s.phase.Preparing?
    case BackoffOver => s.phase.Backoff?
    case BackoffCancelled => s.phase.Backoff? && s.cancelled
    case ProbePasses => s.phase.Probing?
    case ProbeCancelled => s.phase.Probing? && s.cancelled
    case ProbeFindsDead => s.phase.Probing?
    case ReloadEnv(_) => s.phase.Reloading?
    case DelayOver => s.phase.Delaying?
    case Publish(_) => s.phase.Publishing? || s.phase.PublishingDrain?
    case ReceiveExit(g) => (s.phase.Selecting? || s.phase.Draining?) && g in s.books.undelivered && g in s.books.workers
    case ReceiveCancel => s.phase.Selecting? && s.cancelled
    case ReceiveHangup => s.phase.Selecting? && s.hangup
    case ReceiveTick => s.phase.Selecting? && s.timer.tick
    case SignalAll => s.phase.Stopping?
    case Deadline => s.phase.Draining?
  }

  /** The error paths out of startWorker, as `loop` handles them. */
  function AbortStart(s: State, books: Books, why: Origin, e: Error): State {
    s.(phase := if why.Initial? then Finished else Stopping,
       books := books,
       sig := if why.Initial? then s.sig else OnTerm,
       err := Some(if s.cancelled && e == ContextError then ServerClosed else e))
  }

  /** startWorker returned `pid`: a restart that left an old worker behind goes on to signal it. */
  function AcceptWorker(s: State, why: Origin, pid: int, probed: bool): State {
    var direct := !why.Restart? || |s.books.oldWorkers| == 0;
    s.(phase := if direct then Publishing else Delaying,
       books := s.books.Accept(pid, probed),
       hangup := s.hangup && (why.Initial? || !direct),
       timer := s.timer.Reset())
  }

  /** The generations that oldWorkers holds. */
  function Generations(oldWorkers: map<int, int>): set<int> {
    set pid | pid in oldWorkers :: oldWorkers[pid]
  }

  /** Some pid with the given generation. */
  ghost function PidOf(oldWorkers: map<int, int>, g: int): int
    requires g in Generations(oldWorkers)
  {
    var pid :| pid in oldWorkers && oldWorkers[pid] == g;
    pid
  }

  /** StatusMap: one entry per old worker and one for the current worker. */
  ghost function StatusMap(oldWorkers: map<int, int>, current: Option<int>, generation: int): map<int, int> {
    var m := map g | g in Generations(oldWorkers) :: PidOf(oldWorkers, g);
    if current.Some? then m[generation := current.value] else m
  }

  /** The snapshot a successful WriteStatus leaves behind. */
  ghost function SnapshotOf(b: Books, shown: Option<int>): Snapshot {
    Snapshot(StatusMap(b.oldWorkers, shown, b.generation), b.generation, b.consumed)
  }

  function ApplyEnvironment(s: State, a: Action): State
    requires Enabled(s, a) && Environmental(a)
  {
    match a
    case CallHangup => s.(hangup := true, counts := s.counts.(hangupCalls := s.counts.hangupCalls + 1))
    case Cancel => s.(cancelled := true)
    case FireTimer => s.(timer := s.timer.Fire(), counts := s.counts.(ticks := s.counts.ticks + 1))
    case WorkerExits(g) => s.(books := s.books.Exits(g))
    case ReleaseWaiter(g) => s.(books := s.books.Release(g))
  }

  /** The steps of startWorker. */
  function ApplyStart(s: State, a: Action): State
    requires Enabled(s, a) && Starter(a)
  {
    match a
    case CheckContext =>
      if s.cancelled then AbortStart(s, s.books, s.phase.why, ContextError)
      else s.(phase := Preparing(s.phase.why))
    case FailSetup => AbortStart(s, s.books, s.phase.why, SetupError)
    case Launch(pid) =>
      s.(books := s.books.Bump(),
         counts := s.counts.(spawned := s.counts.spawned + 1),
         phase := Probing(s.phase.why, pid))
    case FailLaunch(terminal) =>
      if terminal then AbortStart(s, s.books.Bump(), s.phase.why, LaunchError)
      else s.(books := s.books.Bump(), phase := Backoff(s.phase.why))
    case BackoffOver => s.(phase := Starting(s.phase.why))
    case BackoffCancelled => AbortStart(s, s.books, s.phase.why, ContextError)
    case ProbePasses => AcceptWorker(s, s.phase.why, s.phase.pid, true)
    case ProbeCancelled => AcceptWorker(s, s.phase.why, s.phase.pid, false)
    case ProbeFindsDead =>
      if s.phase.why.Initial? && s.phase.why.checked then AbortStart(s, s.books, s.phase.why, EarlyExit)
      else if s.cancelled then AbortStart(s, s.books, s.phase.why, ContextError)
      else s.(phase := Starting(s.phase.why))
  }

  /** A receive from workerCh in the wait loop of the shutdown. */
  function ReceiveInDrain(s: State, g: int): State
    requires Enabled(s, ReceiveExit(g)) && s.phase.Draining?
  {
    s.(books := s.books.Receive(g), phase := PublishingDrain(s.phase.forced))
  }

  /**
    A receive from workerCh in the select statement.  The exit of the current worker leads to a replacement;
    the exit of the last old worker begins the restart that was held back for it.
   */
  function ReceiveInLoop(s: State, g: int): State
    requires Enabled(s, ReceiveExit(g)) && s.phase.Selecting?
  {
    var died := s.books.current == Some(s.books.workers[g].pid);
    var after := s.books.Receive(g);
    var restart := !died && |after.oldWorkers| == 0 && s.pending;
    s.(phase := if died then Reloading(Replacement) else if restart then Reloading(Restart) else Publishing,
       books := if restart then after.Retire() else after,
       hangup := s.hangup && !restart,
       pending := s.pending && !restart,
       sig := if restart then OnHup else s.sig,
       counts := s.counts.Restarted(restart))
  }

  /** The receives of the select statement, and of the wait loop. */
  function ApplySelect(s: State, a: Action): State
    requires Enabled(s, a) && Selects(a)
  {
    var restart := |s.books.oldWorkers| == 0;
    match a
    case ReceiveExit(g) => if s.phase.Draining? then ReceiveInDrain(s, g) else ReceiveInLoop(s, g)
    case ReceiveCancel => s.(phase := Stopping, sig := OnTerm, err := Some(ServerClosed))
    case ReceiveHangup =>
      s.(phase := if restart then Reloading(Restart) else Publishing,
         books := if restart then s.books.Retire() else s.books,
         hangup := false,
         pending := s.pending || !restart,
         sig := if restart then OnHup else s.sig,
         counts := s.counts.Restarted(restart))
    case ReceiveTick =>
      s.(phase := if restart then Reloading(Restart) else Publishing,
         books := if restart then s.books.Retire() else s.books,
         timer := if restart then s.timer.(tick := false) else s.timer.Reset(),
         counts := s.counts.Restarted(restart))
  }

  /** The rest of the loop and of the deferred shutdown. */
  ghost function ApplyRest(s: State, a: Action): State
    requires Enabled(s, a) && !Environmental(a) && !Starter(a) && !Selects(a)
  {
    match a
    case ReloadEnv(ok) =>
      if ok then s.(phase := Starting(s.phase.why))
      else s.(phase := Stopping, sig := OnTerm, err := Some(EnvdirError))
    case DelayOver =>
      s.(sent := s.sent.(hups := s.sent.hups + [HupRound(Generations(s.books.oldWorkers), s.books.generation)]),
         hangup := false,
         phase := Publishing)
    case Publish(ok) =>
      var shown := if s.phase.Publishing? then s.books.current else None;
      var finished := s.phase.PublishingDrain? && |s.books.oldWorkers| == 0;
      s.(phase := if s.phase.Publishing? then Selecting else if finished then Finished else Draining(s.phase.forced),
         released := finished,
         snapshots := if ok then s.snapshots + [SnapshotOf(s.books, shown)] else s.snapshots)
    case SignalAll =>
      var all := s.books.Retire();
      s.(phase := if |all.oldWorkers| == 0 then Finished else Draining(false),
         books := all,
         released := |all.oldWorkers| == 0,
         sent := s.sent.(stopSignal := s.sig, stopped := Generations(all.oldWorkers)))
    case Deadline =>
      if s.phase.forced then s.(phase := Finished, released := true)
      else s.(sent := s.sent.(killed := Generations(s.books.oldWorkers)), phase := Draining(true))
  }

  ghost function Apply(s: State, a: Action): State
    requires Enabled(s, a)
  {
    if Environmental(a) then ApplyEnvironment(s, a)
    else if Starter(a) then ApplyStart(s, a)
    else if Selects(a) then ApplySelect(s, a)
    else ApplyRest(s, a)
  }

  ghost function Next(s: State, a: Action): State {
    if Enabled(s, a) then Apply(s, a) else s
  }

  /** The state after a schedule. */
  ghost function Run(s: State, schedule: seq<Action>): State {
    if schedule == [] then s
    else Next(Run(s, schedule[..|schedule| - 1]), schedule[|schedule| - 1])
  }

  /** The state of a supervisor run after a schedule. */
  ghost function After(auto: bool, checked: bool, schedule: seq<Action>): State {
    Run(Init(auto, checked), schedule)
  }
}
