/**
  The supervisor goroutine as the program writes it: `loop`, `startWorker`, `shutdownWorkers` and
  `waitForWorkers` over the fields they update, with the Controller they report to.

  `script` is what the outside will do: calls to Hangup, cancellations, timers, exits, and the outcome of each
  operation the goroutine waits for.  The methods below take it apart one action at a time, so a run of
  them is a prefix of the script; `Valid` says that after every action the fields are those of the step machine
  in Lifecycle after the same actions.  What is proved of every schedule therefore holds of this code.
 */
module RunLoop {
  import opened Basics
  import opened Lifecycle
  import opened LifecycleInvariants
  import LifecycleTheorems
  import opened LifecycleDuties

  /** The handle on a run: a one-slot channel, the terminal error, and a channel closed at the end. */
  class Controller {
    var hangup: bool
    var err: Option<Error>
    var done: bool

    constructor ()
      ensures !hangup && err.None? && !done
    {
      hangup, err, done := false, None, false;
    }

    /** Never blocks: a full slot absorbs the request. */
    method Hangup()
      modifies this`hangup
      ensures hangup
    {
      if !hangup {
        hangup := true;
      }
    }

    /** Empty the slot if there is a request in it. */
    method TakeHangup()
      modifies this`hangup
      ensures !hangup
    {
      if hangup {
        hangup := false;
      }
    }

    method SetErr(e: Error)
      modifies this`err
      ensures err == Some(e)
    {
      err := Some(e);
    }
  }

  /**
    What startWorker, or a part of it, comes back with: its two results, either of which may be nil; another pass of
    its loop; or Blocked when the script ended while it was waiting.
   */
  datatype Start = Return(process: Option<int>, err: Option<Error>) | Retry | Blocked

  /** What the select statement leads to. */
  datatype Decision = Again | Replace | Renew | Stop | Wait

  /** oldWorkers never holds a generation twice. */
  ghost predicate Injective(oldWorkers: map<int, int>) {
    forall p, q | p in oldWorkers && q in oldWorkers && oldWorkers[p] == oldWorkers[q] :: p == q
  }

  /**
    StatusMap as a loop over oldWorkers in any order.  Two pids of one generation would overwrite each other;
    without them the outcome does not depend on the order.
   */
  method BuildStatusMap(oldWorkers: map<int, int>, current: Option<int>, generation: int) returns (m: map<int, int>)
    ensures m.Keys == Generations(oldWorkers) + (if current.Some? then {generation} else {})
    ensures forall g | g in m ::
              if current.Some? && g == generation then m[g] == current.value
              else m[g] in oldWorkers && oldWorkers[m[g]] == g
    ensures Injective(oldWorkers) ==> m == StatusMap(oldWorkers, current, generation)
  {
    m := map[];
    var left := oldWorkers.Keys;
    while left != {}
      invariant left <= oldWorkers.Keys
      invariant m.Keys == set pid | pid in oldWorkers && pid !in left :: oldWorkers[pid]
      invariant forall g | g in m :: m[g] in oldWorkers && oldWorkers[m[g]] == g
    {
      SomeMember(left);
      var pid :| pid in left;
      m := m[oldWorkers[pid] := pid];
      left := left - {pid};
    }
    if current.Some? {
      m := m[generation := current.value];
    }
    StatusMapUnique(oldWorkers, current, generation, m);
  }

  lemma StatusMapUnique(oldWorkers: map<int, int>, current: Option<int>, generation: int, m: map<int, int>)
    requires m.Keys == Generations(oldWorkers) + (if current.Some? then {generation} else {})
    requires forall g | g in m ::
               if current.Some? && g == generation then m[g] == current.value
               else m[g] in oldWorkers && oldWorkers[m[g]] == g
    ensures Injective(oldWorkers) ==> m == StatusMap(oldWorkers, current, generation)
  {
    if Injective(oldWorkers) {
      var n := StatusMap(oldWorkers, current, generation);
      assert m.Keys == n.Keys;
      assert forall g | g in m :: m[g] == n[g];
    }
  }

  /** The loop that signals every old worker, in any order; the generations it reached. */
  method SignalEach(oldWorkers: map<int, int>) returns (targets: set<int>)
    ensures targets == Generations(oldWorkers)
  {
    targets := {};
    var left := oldWorkers.Keys;
    while left != {}
      invariant left <= oldWorkers.Keys
      invariant targets == set pid | pid in oldWorkers && pid !in left :: oldWorkers[pid]
    {
      SomeMember(left);
      var pid :| pid in left;
      targets := targets + {oldWorkers[pid]};
      left := left - {pid};
    }
  }

  /** What the machine's state says about the fields of a run: everything but the stop and the history. */
  datatype Image = Image(
    books: Books, hangup: bool, pending: bool, timer: Timer, cancelled: bool, err: Option<Error>,
    sig: Signal, released: bool, sent: Sent, file: Option<map<int, int>>)
  {
    function Generation(g: int): Image {
      this.(books := books.(generation := g))
    }

    /** loop records the error of startWorker; the shutdown, if there is one, uses signalOnTERM. */
    function Failure(why: Origin, e: Error): Image {
      this.(sig := if why.Initial? then sig else OnTerm,
            err := Some(if cancelled && e == ContextError then ServerClosed else e))
    }

    /** A worker that leaves no old worker to be signalled. */
    predicate Direct(why: Origin) {
      !why.Restart? || |books.oldWorkers| == 0
    }

    /** loop takes the process over from startWorker. */
    function Arrival(why: Origin, pid: int): Image {
      this.(books := books.(current := Some(pid)),
            hangup := hangup && (why.Initial? || !Direct(why)),
            timer := timer.Reset())
    }

    /** The current worker becomes an old one. */
    function Retired(): Image {
      this.(books := books.Retire())
    }

    /** A receive from workerCh. */
    function Received(g: int): Image
      requires g in books.workers
    {
      this.(books := books.Receive(g))
    }
  }

  ghost function Latest(snapshots: seq<Snapshot>): Option<map<int, int>> {
    if snapshots == [] then None else Some(snapshots[|snapshots| - 1].status)
  }

  ghost function ImageOf(s: State): Image {
    Image(s.books, s.hangup, s.pending, s.timer, s.cancelled, s.err, s.sig, s.released, s.sent, Latest(s.snapshots))
  }

  /** The books of a reachable state never give two old workers one generation. */
  lemma OldInjective(s: State)
    requires Inv(s)
    ensures Injective(ImageOf(s).books.oldWorkers)
  {
    assert Sound(s.books);
  }

  /** The wait loop is entered, and entered again, with a worker left to wait for. */
  lemma DrainingSome(s: State)
    requires Inv(s) && s.phase.Draining?
    ensures |ImageOf(s).books.oldWorkers| > 0
  {
    assert Exit(s);
  }

  /** A state with the given image, to ask what can happen. */
  function Resume(v: Image, at: Phase): State {
    State(at, v.books, v.hangup, v.pending, v.timer, v.cancelled, v.err, v.sig, v.released,
          Counts(0, 0, 0, 0), v.sent, [])
  }

  /** Whether the goroutine or the outside can take an action depends on the fields and the stop alone. */
  predicate Ready(v: Image, at: Phase, a: Action) {
    Enabled(Resume(v, at), a)
  }

  lemma ReadyExact(s: State, a: Action)
    ensures Ready(ImageOf(s), s.phase, a) <==> Enabled(s, a)
  {
  }

  // The moves of the machine, one at a time, as the goroutine sees them.

  /** What the goroutine can be waiting for at each of its stops. */
  lemma Possible(s: State, a: Action)
    requires Enabled(s, a) && !Environmental(a)
    ensures match s.phase
            case Reloading(_) => a.ReloadEnv?
            case Starting(_) => a.CheckContext?
            case Preparing(_) => a.FailSetup? || a.Launch? || a.FailLaunch?
            case Backoff(_) => a.BackoffOver? || a.BackoffCancelled?
            case Probing(_, _) => a.ProbePasses? || a.ProbeCancelled? || a.ProbeFindsDead?
            case Delaying => a.DelayOver?
            case Publishing => a.Publish?
            case Selecting => Selects(a)
            case Stopping => a.SignalAll?
            case Draining(_) => a.ReceiveExit? || a.Deadline?
            case PublishingDrain(_) => a.Publish?
            case Finished => false
  {
  }

  /** The stop after a failed startWorker. */
  function Aborted(why: Origin): Phase {
    if why.Initial? then Finished else Stopping
  }

  ghost predicate Goes(s: State, a: Action, v: Image, to: Phase) {
    Enabled(s, a) && ImageOf(Next(s, a)) == v && Next(s, a).phase == to
  }

  lemma MoveOutside(s: State, a: Action)
    requires Enabled(s, a)
    ensures var v := ImageOf(s);
            && (a.CallHangup? ==> Goes(s, a, v.(hangup := true), s.phase))
            && (a.Cancel? ==> Goes(s, a, v.(cancelled := true), s.phase))
            && (a.FireTimer? ==> Goes(s, a, v.(timer := v.timer.Fire()), s.phase))
            && (a.WorkerExits? ==> Goes(s, a, v.(books := v.books.Exits(a.gen)), s.phase))
            && (a.ReleaseWaiter? ==> Goes(s, a, v.(books := v.books.Release(a.gen)), s.phase))
  {
  }

  lemma MoveCheck(s: State, a: Action)
    requires Enabled(s, a) && a.CheckContext?
    ensures var v, why := ImageOf(s), s.phase.why;
            if v.cancelled then Goes(s, a, v.Failure(why, ContextError), Aborted(why))
            else Goes(s, a, v, Preparing(why))
  {
  }

  lemma MovePrepare(s: State, a: Action)
    requires Enabled(s, a) && s.phase.Preparing? && !Environmental(a)
    ensures var v, why := ImageOf(s), s.phase.why;
            var w := v.Generation(v.books.generation + 1);
            && (a.FailSetup? ==> Goes(s, a, v.Failure(why, SetupError), Aborted(why)))
            && (a.Launch? ==> Goes(s, a, w, Probing(why, a.pid)))
            && (a.FailLaunch? && a.terminal ==> Goes(s, a, w.Failure(why, LaunchError), Aborted(why)))
            && (a.FailLaunch? && !a.terminal ==> Goes(s, a, w, Backoff(why)))
  {
  }

  lemma MoveBackoff(s: State, a: Action)
    requires Enabled(s, a) && s.phase.Backoff? && !Environmental(a)
    ensures var v, why := ImageOf(s), s.phase.why;
            if a.BackoffCancelled? then v.cancelled && Goes(s, a, v.Failure(why, ContextError), Aborted(why))
            else Goes(s, a, v, Starting(why))
  {
  }

  lemma MoveDead(s: State, a: Action)
    requires Enabled(s, a) && a.ProbeFindsDead?
    ensures var v, why := ImageOf(s), s.phase.why;
            if why.Initial? && why.checked then Goes(s, a, v.Failure(why, EarlyExit), Aborted(why))
            else if v.cancelled then Goes(s, a, v.Failure(why, ContextError), Aborted(why))
            else Goes(s, a, v, Starting(why))
  {
  }

  lemma MoveUp(s: State, a: Action)
    requires Enabled(s, a) && (a.ProbePasses? || a.ProbeCancelled?)
    ensures var v, why, pid := ImageOf(s), s.phase.why, s.phase.pid;
            var returned := v.books.workers[v.books.generation := Worker(pid, a.ProbePasses?)];
            var w := v.(books := v.books.(workers := returned));
            && Goes(s, a, w.Arrival(why, pid), if w.Direct(why) then Publishing else Delaying)
            && (a.ProbeCancelled? ==> v.cancelled)
  {
  }

  lemma MoveReload(s: State, a: Action)
    requires Enabled(s, a) && a.ReloadEnv?
    ensures var v := ImageOf(s);
            if a.ok then Goes(s, a, v, Starting(s.phase.why))
            else Goes(s, a, v.(sig := OnTerm, err := Some(EnvdirError)), Stopping)
  {
  }

  lemma MoveDelay(s: State, a: Action)
    requires Enabled(s, a) && a.DelayOver?
    ensures var v := ImageOf(s);
            var round := HupRound(Generations(v.books.oldWorkers), v.books.generation);
            Goes(s, a, v.(sent := v.sent.(hups := v.sent.hups + [round]), hangup := false), Publishing)
  {
  }

  /** With old generations all different, the file gets the map that the loop of StatusMap builds. */
  lemma MovePublish(s: State, a: Action)
    requires Enabled(s, a) && a.Publish? && Inv(s)
    ensures var v := ImageOf(s);
            var shown := if s.phase.Publishing? then v.books.current else None;
            var w := if a.ok then v.(file := Some(StatusMap(v.books.oldWorkers, shown, v.books.generation))) else v;
            if s.phase.Publishing? then Goes(s, a, w, Selecting)
            else if |v.books.oldWorkers| == 0 then Goes(s, a, w.(released := true), Finished)
            else Goes(s, a, w, Draining(s.phase.forced))
  {
  }

  lemma MoveCurrentExit(s: State, a: Action)
    requires Enabled(s, a) && a.ReceiveExit? && s.phase.Selecting?
    ensures var v, g := ImageOf(s), a.gen;
            && g in v.books.workers
            && (v.books.current == Some(v.books.workers[g].pid) ==> Goes(s, a, v.Received(g), Reloading(Replacement)))
  {
  }

  lemma MoveOldExit(s: State, a: Action)
    requires Enabled(s, a) && a.ReceiveExit? && s.phase.Selecting?
    requires s.books.current != Some(s.books.workers[a.gen].pid)
    ensures var v, g := ImageOf(s), a.gen;
            && g in v.books.workers
            && var w := v.Received(g);
               if |w.books.oldWorkers| == 0 && v.pending
               then Goes(s, a, w.Retired().(hangup := false, pending := false, sig := OnHup), Reloading(Restart))
               else Goes(s, a, w, Publishing)
  {
  }

  /** The image has the books themselves. */
  lemma ImageBooks(s: State)
    ensures ImageOf(s).books == s.books
  {
  }

  lemma MoveCancel(s: State, a: Action)
    requires Enabled(s, a) && a.ReceiveCancel?
    ensures Goes(s, a, ImageOf(s).(sig := OnTerm, err := Some(ServerClosed)), Stopping)
  {
  }

  lemma MoveHangup(s: State, a: Action)
    requires Enabled(s, a) && a.ReceiveHangup?
    ensures var v := ImageOf(s);
            if |v.books.oldWorkers| == 0
            then Goes(s, a, v.Retired().(hangup := false, sig := OnHup), Reloading(Restart))
            else Goes(s, a, v.(hangup := false, pending := true), Publishing)
  {
  }

  lemma MoveTick(s: State, a: Action)
    requires Enabled(s, a) && a.ReceiveTick?
    ensures var v := ImageOf(s);
            if |v.books.oldWorkers| == 0
            then Goes(s, a, v.Retired().(timer := v.timer.(tick := false)), Reloading(Restart))
            else Goes(s, a, v.(timer := v.timer.Reset()), Publishing)
  {
  }

  /** In the wait loop there is no current worker, so every receive deletes from oldWorkers. */
  lemma MoveDrain(s: State, a: Action)
    requires Enabled(s, a) && a.ReceiveExit? && s.phase.Draining? && Inv(s)
    ensures var v, g := ImageOf(s), a.gen;
            && g in v.books.workers
            && |v.Received(g).books.oldWorkers| == |v.books.oldWorkers| - 1
            && Goes(s, a, v.Received(g), PublishingDrain(s.phase.forced))
  {
    ReceiveSound(s.books, a.gen);
  }

  lemma MoveSignal(s: State, a: Action)
    requires Enabled(s, a) && a.SignalAll? && Inv(s)
    ensures var v := ImageOf(s).Retired();
            var targets := Generations(v.books.oldWorkers);
            var w := v.(sent := v.sent.(stopSignal := v.sig, stopped := targets));
            if |v.books.oldWorkers| == 0 then Goes(s, a, w.(released := true), Finished)
            else Goes(s, a, w, Draining(false))
  {
  }

  lemma MoveDeadline(s: State, a: Action)
    requires Enabled(s, a) && a.Deadline?
    ensures var v := ImageOf(s);
            if s.phase.forced then Goes(s, a, v.(released := true), Finished)
            else Goes(s, a, v.(sent := v.sent.(killed := Generations(v.books.oldWorkers))), Draining(true))
  {
  }

  class RunState {
    const ctrl: Controller
    const auto: bool
    const checked: bool

    // runState and the locals of loop
    var p: Option<int>
    var generation: int
    var oldWorkers: map<int, int>
    var timer: Timer
    var hangupPending: bool
    var sigToSend: Signal

    // the outside: the context, workerStateDone, processes and their waiters, the status file, signals sent
    var cancelled: bool
    var released: bool
    var workers: map<int, Worker>
    var exited: set<int>
    var undelivered: set<int>
    var consumed: set<int>
    var statusFile: Option<map<int, int>>
    var sent: Sent
    var script: seq<Action>

    // the run so far
    ghost const schedule: seq<Action>
    ghost var trace: seq<Action>
    ghost var st: State

    function View(): Image
      reads this, ctrl
    {
      Image(Books(p, generation, oldWorkers, undelivered, workers, exited, consumed), ctrl.hangup, hangupPending,
            timer, cancelled, ctrl.err, sigToSend, released, sent, statusFile)
    }

    /** The machine has taken the actions recorded so far, and done is closed exactly when it has finished. */
    ghost predicate Recorded()
      reads this, ctrl
    {
      st == After(auto, checked, trace) && (ctrl.done <==> st.phase.Finished?)
    }

    /** Between two actions: the fields are those of the machine after the same actions. */
    ghost predicate Valid()
      reads this, ctrl
    {
      Recorded() && View() == ImageOf(st) && trace + script == schedule
    }

    /** Inside an action that has been taken from the script and not been recorded. */
    ghost predicate Inside(a: Action)
      reads this, ctrl
    {
      Recorded() && Enabled(st, a) && trace + [a] + script == schedule
    }

    constructor (auto: bool, checked: bool, script: seq<Action>)
      ensures Valid() && fresh(ctrl) && schedule == script && this.script == script
      ensures this.auto == auto && this.checked == checked
      ensures st == Init(auto, checked)
    {
      this.auto, this.checked, this.script, this.schedule := auto, checked, script, script;
      p, generation, oldWorkers, hangupPending, sigToSend := None, 0, map[], false, NoSignal;
      timer := Timer(auto, false, false);
      cancelled, released, workers, exited, undelivered, consumed := false, false, map[], {}, {}, {};
      statusFile, sent := None, Sent([], NoSignal, {}, {});
      trace, st := [], Init(auto, checked);
      ctrl := new Controller();
    }

    /** Record an action whose effect on the fields is complete. */
    ghost method Commit(a: Action, to: Phase)
      requires st == After(auto, checked, trace)
      requires Goes(st, a, View(), to) && (ctrl.done <==> to.Finished?) && trace + [a] + script == schedule
      modifies this`st, this`trace
      ensures Valid() && st.phase == to
    {
      hide Next, ImageOf;
      assert (trace + [a])[..|trace|] == trace;
      st := Next(st, a);
      trace := trace + [a];
    }

    /** An action that is not possible here does nothing. */
    ghost method Skip(a: Action)
      requires Recorded() && View() == ImageOf(st) && trace + [a] + script == schedule
      requires !Enabled(st, a)
      modifies this`st, this`trace
      ensures Valid() && st == old(st)
    {
      hide Enabled, ImageOf;
      assert (trace + [a])[..|trace|] == trace;
      trace := trace + [a];
    }

    /** What the outside does by itself. */
    method Interrupted(a: Action)
      requires Inside(a) && View() == ImageOf(st) && Environmental(a)
      modifies this, ctrl
      ensures Valid() && st.phase == old(st.phase) && script == old(script)
    {
      hide Next, After, Enabled, ImageOf, Goes;
      MoveOutside(st, a);
      match a {
        case CallHangup =>
          ctrl.Hangup();
          Commit(a, st.phase);
        case Cancel =>
          cancelled := true;
          Commit(a, st.phase);
        case FireTimer =>
          timer := timer.Fire();
          Commit(a, st.phase);
        case WorkerExits(g) =>
          exited, undelivered := exited + {g}, undelivered + {g};
          Commit(a, st.phase);
        case ReleaseWaiter(g) =>
          undelivered := undelivered - {g};
          Commit(a, st.phase);
      }
    }

    /** Let the outside act until something happens that the goroutine is waiting for. */
    method Await(at: Phase) returns (a: Action, blocked: bool)
      requires Valid() && st.phase == at
      modifies this, ctrl
      ensures blocked ==> Valid() && script == []
      ensures !blocked ==> Inside(a) && View() == ImageOf(st) && !Environmental(a)
      ensures !blocked ==> st.phase == at && |script| < |old(script)|
    {
      hide Next, After, Enabled, ImageOf, Ready, Environmental;
      a := Cancel;
      while script != []
        invariant Valid() && st.phase == at && |script| <= |old(script)|
        decreases |script|
      {
        a := script[0];
        assert [a] + script[1..] == script;
        script := script[1..];
        ReadyExact(st, a);
        if !Ready(View(), at, a) {
          Skip(a);
        } else if Environmental(a) {
          Interrupted(a);
        } else {
          return a, false;
        }
      }
      return a, true;
    }

    /** ctx.Err() */
    function CtxErr(): Option<Error>
      reads this
    {
      if cancelled then Some(ContextError) else None
    }

    /**
      What is known when startWorker, or a part of it, comes back.  When it returns, exactly one of its two results
      is there; and a process that did not pass its probe is returned only after a cancellation.
     */
    ghost predicate Returned(why: Origin, r: Start, a: Action)
      reads this, ctrl
    {
      match r
      case Blocked => Valid() && script == []
      case Retry => Valid() && st.phase == Starting(why)
      case Return(None, None) => false
      case Return(Some(_), Some(_)) => false
      case Return(None, Some(e)) => Inside(a) && !ctrl.done && Goes(st, a, View().Failure(why, e), Aborted(why))
      case Return(Some(pid), None) =>
        && Inside(a) && !ctrl.done
        && Goes(st, a, View().Arrival(why, pid), if View().Direct(why) then Publishing else Delaying)
        && generation in workers && workers[generation].pid == pid
        && (workers[generation].probed || cancelled)
    }

    /** The retry loop of startWorker. */
    method StartWorker(why: Origin) returns (r: Start, a: Action)
      requires Valid() && st.phase == Starting(why)
      modifies this, ctrl
      ensures Returned(why, r, a) && !r.Retry? && |script| <= |old(script)|
      ensures r.Return? ==> (r.process.None? <==> r.err.Some?)
    {
      hide Next, After, Enabled, ImageOf, Goes, Generations, StatusMap, Inv;
      r, a := Retry, Cancel;
      while r.Retry?
        invariant Returned(why, r, a) && |script| <= |old(script)|
        decreases |script|, r.Retry?
      {
        r, a := TryOnce(why);
      }
    }

    /** One pass of the loop: the context check, the descriptor table and environment, the launch. */
    method TryOnce(why: Origin) returns (r: Start, a: Action)
      requires Valid() && st.phase == Starting(why)
      modifies this, ctrl
      ensures Returned(why, r, a) && |script| <= |old(script)| && (r.Retry? ==> |script| < |old(script)|)
    {
      hide Next, After, Enabled, ImageOf, Goes, Generations, StatusMap, Inv;
      var blocked: bool;
      a, blocked := Await(Starting(why));
      if blocked {
        return Blocked, a;
      }
      Possible(st, a);
      MoveCheck(st, a);
      if CtxErr().Some? {
        return Return(None, CtxErr()), a;
      }
      Commit(a, Preparing(why));
      a, blocked := Await(Preparing(why));
      if blocked {
        return Blocked, a;
      }
      Possible(st, a);
      if a.FailSetup? {
        MovePrepare(st, a);
        return Return(None, Some(SetupError)), a;
      }
      r, a := Launched(why, a);
    }

    /** rs.generation is incremented whether or not the command starts. */
    method Launched(why: Origin, launch: Action) returns (r: Start, a: Action)
      requires Inside(launch) && View() == ImageOf(st) && st.phase == Preparing(why)
      requires launch.Launch? || launch.FailLaunch?
      modifies this, ctrl
      ensures Returned(why, r, a) && |script| <= |old(script)|
    {
      hide Next, After, Enabled, ImageOf, Goes, Generations, StatusMap, Inv;
      MovePrepare(st, launch);
      generation := generation + 1;
      if launch.Launch? {
        Commit(launch, Probing(why, launch.pid));
        r, a := Probe(why, launch.pid);
      } else if launch.terminal {
        return Return(None, Some(LaunchError)), launch;
      } else {
        Commit(launch, Backoff(why));
        r, a := RetryLater(why);
      }
    }

    /** waitForWorkerStartRetry after a transient error; it gives up only when there is a context error to return. */
    method RetryLater(why: Origin) returns (r: Start, a: Action)
      requires Valid() && st.phase == Backoff(why)
      modifies this, ctrl
      ensures Returned(why, r, a) && |script| <= |old(script)|
    {
      hide Next, After, Enabled, ImageOf, Goes, Generations, StatusMap, Inv;
      var blocked: bool;
      a, blocked := Await(Backoff(why));
      if blocked {
        return Blocked, a;
      }
      Possible(st, a);
      MoveBackoff(st, a);
      if a.BackoffCancelled? {
        return Return(None, CtxErr()), a;
      }
      Commit(a, Starting(why));
      return Retry, a;
    }

    /** The probe; a process that is there gets a waiter and is returned. */
    method Probe(why: Origin, pid: int) returns (r: Start, a: Action)
      requires Valid() && st.phase == Probing(why, pid)
      modifies this, ctrl
      ensures Returned(why, r, a) && |script| <= |old(script)|
    {
      hide Next, After, Enabled, ImageOf, Goes, Generations, StatusMap, Inv;
      var blocked: bool;
      a, blocked := Await(Probing(why, pid));
      if blocked {
        return Blocked, a;
      }
      Possible(st, a);
      if !a.ProbeFindsDead? {
        MoveUp(st, a);
        workers := workers[generation := Worker(pid, a.ProbePasses?)];
        return Return(Some(pid), None), a;
      }
      r := Dead(why, a);
    }

    /** The process ended during its probe: the checked startup fails, and otherwise the context decides. */
    method Dead(why: Origin, a: Action) returns (r: Start)
      requires Inside(a) && View() == ImageOf(st) && a.ProbeFindsDead? && st.phase.Probing? && st.phase.why == why
      modifies this, ctrl
      ensures Returned(why, r, a) && script == old(script)
    {
      hide Next, After, Enabled, ImageOf, Goes, Generations, StatusMap, Inv;
      MoveDead(st, a);
      if why.Initial? && why.checked {
        return Return(None, Some(EarlyExit));
      }
      if CtxErr().Some? {
        return Return(None, CtxErr());
      }
      Commit(a, Starting(why));
      return Retry;
    }

    /**
      loop after its first startWorker, for any pair of results: an error is recorded, with the context error
      translated; a nil process without an error ends the run too, and then there is an error to record only if
      the context was cancelled.
     */
    method Concluded(process: Option<int>, err: Option<Error>) returns (over: bool)
      modifies ctrl`err
      ensures over <==> err.Some? || process.None?
      ensures err.Some? ==> ctrl.err == Some(if cancelled && err.value == ContextError then ServerClosed else err.value)
      ensures err.None? && process.None? ==> ctrl.err == if cancelled then Some(ServerClosed) else old(ctrl.err)
      ensures !over ==> ctrl.err == old(ctrl.err)
    {
      if err.Some? {
        ctrl.SetErr(if cancelled && err.value == ContextError then ServerClosed else err.value);
        return true;
      }
      if process.None? {
        if CtxErr().Some? {
          ctrl.SetErr(ServerClosed);
        }
        return true;
      }
      return false;
    }

    /** The error path of loop after a later startWorker. */
    method Abort(why: Origin, e: Error, a: Action)
      requires Inside(a) && !ctrl.done && Goes(st, a, View().Failure(why, e), Aborted(why)) && !why.Initial?
      modifies this, ctrl
      ensures Valid() && script == old(script) && st.phase == Stopping
    {
      hide Next, After, Enabled, ImageOf, Goes;
      sigToSend := OnTerm;
      ctrl.SetErr(if cancelled && e == ContextError then ServerClosed else e);
      Commit(a, Stopping);
    }

    /**
      Bring up a replacement, or the worker of a restart and then signal the old one: reload the environment
      directory, start, reset the timer, wait out the delay, send signalOnHUP, drop a buffered hangup.
     */
    method Bring(why: Origin) returns (next: Decision)
      requires Valid() && st.phase == Reloading(why) && !why.Initial?
      modifies this, ctrl
      ensures Valid() && !next.Replace? && !next.Renew? && (next.Wait? ==> script == [])
      ensures !next.Wait? ==> |script| < |old(script)|
      ensures (next.Again? ==> st.phase.Publishing?) && (next.Stop? ==> st.phase.Stopping?)
      ensures next.Again? ==> AllSignalled(oldWorkers, sent.hups)
    {
      hide Next, After, Enabled, ImageOf, Goes, Generations, StatusMap, Inv;
      next := Reload(why);
      if !next.Again? {
        return;
      }
      var r, a := StartWorker(why);
      if r.Blocked? {
        return Wait;
      }
      if r.err.Some? {
        Abort(why, r.err.value, a);
        return Stop;
      }
      next := Arrive(why, r.process, a);
      if next.Again? {
        EverybodyTold();
      }
    }

    /** At the loop head every old worker has been sent signalOnHUP, and an auto-restart timer is set. */
    lemma EverybodyTold()
      requires Valid() && InLoop(st.phase) && !st.phase.Delaying?
      ensures AllSignalled(oldWorkers, sent.hups)
      ensures auto ==> timer.armed || timer.tick
    {
      OldWorkersTold(auto, checked, trace);
      TimerRuns(auto, checked, trace);
    }

    /** reloadEnvdir, and its error path. */
    method Reload(why: Origin) returns (next: Decision)
      requires Valid() && st.phase == Reloading(why)
      modifies this, ctrl
      ensures Valid() && (!next.Wait? ==> |script| < |old(script)|)
      ensures || (next.Again? && st.phase == Starting(why))
              || (next.Wait? && script == [])
              || (next.Stop? && st.phase.Stopping?)
    {
      hide Next, After, Enabled, ImageOf, Goes, Generations, StatusMap, Inv;
      var a, blocked := Await(Reloading(why));
      if blocked {
        return Wait;
      }
      Possible(st, a);
      MoveReload(st, a);
      if !a.ok {
        sigToSend := OnTerm;
        ctrl.SetErr(EnvdirError);
        Commit(a, Stopping);
        return Stop;
      }
      Commit(a, Starting(why));
      return Again;
    }

    /** loop after startWorker returned a process. */
    method Arrive(why: Origin, process: Option<int>, a: Action) returns (next: Decision)
      requires Returned(why, Return(process, None), a) && !why.Initial?
      modifies this, ctrl
      ensures Valid() && |script| <= |old(script)|
      ensures (next.Again? && st.phase.Publishing?) || (next.Wait? && script == [])
    {
      hide Next, After, Enabled, ImageOf, Goes, Generations, StatusMap, Inv;
      p := process;
      timer := timer.Reset();
      if !why.Restart? || |oldWorkers| == 0 {
        ctrl.TakeHangup();
        Commit(a, Publishing);
        return Again;
      }
      Commit(a, Delaying);
      next := SignalOld();
    }

    /** The delay, then signalOnHUP to every old worker, then a buffered hangup is dropped. */
    method SignalOld() returns (next: Decision)
      requires Valid() && st.phase == Delaying
      modifies this, ctrl
      ensures Valid() && |script| <= |old(script)|
      ensures (next.Again? && st.phase.Publishing?) || (next.Wait? && script == [])
    {
      hide Next, After, Enabled, ImageOf, Goes, Generations, StatusMap, Inv;
      var a, blocked := Await(Delaying);
      if blocked {
        return Wait;
      }
      Possible(st, a);
      MoveDelay(st, a);
      var targets := SignalEach(oldWorkers);
      sent := sent.(hups := sent.hups + [HupRound(targets, generation)]);
      ctrl.TakeHangup();
      Commit(a, Publishing);
      return Again;
    }

    /** WriteStatus at the loop head, and in the wait loop with no current worker; the caller records it. */
    method Publish(at: Phase) returns (a: Action, blocked: bool)
      requires Valid() && st.phase == at && (at.Publishing? || at.PublishingDrain?)
      modifies this, ctrl
      ensures blocked ==> Valid() && script == []
      ensures !blocked ==> Inside(a) && !ctrl.done && |script| < |old(script)|
      ensures !blocked ==>
                if at.Publishing? then Goes(st, a, View(), Selecting)
                else if |oldWorkers| == 0 then Goes(st, a, View().(released := true), Finished)
                else Goes(st, a, View(), Draining(at.forced))
    {
      hide Next, After, Enabled, ImageOf, Goes, Generations, StatusMap, Inv;
      a, blocked := Await(at);
      if !blocked {
        Possible(st, a);
        var m := BuildStatusMap(oldWorkers, if at.Publishing? then p else None, generation);
        Reachable(auto, checked, trace);
        OldInjective(st);
        MovePublish(st, a);
        if a.ok {
          statusFile := Some(m);
        }
      }
    }

    /** The select statement, up to the point where a restart has moved the current worker to oldWorkers. */
    method Select() returns (next: Decision)
      requires Valid() && st.phase == Selecting
      modifies this, ctrl
      ensures Valid() && (next.Wait? ==> script == [])
      ensures !next.Wait? ==> |script| < |old(script)|
      ensures match next
              case Wait => true
              case Again => st.phase.Publishing?
              case Replace => st.phase == Reloading(Replacement)
              case Renew => st.phase == Reloading(Restart)
              case Stop => st.phase.Stopping?
    {
      hide Next, After, Enabled, ImageOf, Goes, Generations, StatusMap, Inv;
      var a, blocked := Await(Selecting);
      if blocked {
        return Wait;
      }
      Possible(st, a);
      match a {
        case ReceiveExit(g) =>
          next := OnExit(g);
        case ReceiveCancel =>
          MoveCancel(st, a);
          sigToSend := OnTerm;
          ctrl.SetErr(ServerClosed);
          Commit(a, Stopping);
          next := Stop;
        case ReceiveHangup =>
          next := OnHangup();
        case ReceiveTick =>
          next := OnTick();
      }
    }

    method OnExit(g: int) returns (next: Decision)
      requires Inside(ReceiveExit(g)) && View() == ImageOf(st) && st.phase == Selecting
      modifies this, ctrl
      ensures Valid() && script == old(script)
      ensures || (next.Replace? && st.phase == Reloading(Replacement))
              || (next.Again? && st.phase.Publishing?)
              || (next.Renew? && st.phase == Reloading(Restart))
    {
      hide Next, After, Enabled, ImageOf, Goes, Generations, StatusMap, Inv;
      MoveCurrentExit(st, ReceiveExit(g));
      if p == Some(workers[g].pid) {
        consumed, undelivered, p := consumed + {g}, undelivered - {g}, None;
        Commit(ReceiveExit(g), Reloading(Replacement));
        return Replace;
      }
      next := OnOldExit(g);
    }

    method OnOldExit(g: int) returns (next: Decision)
      requires Inside(ReceiveExit(g)) && View() == ImageOf(st) && st.phase == Selecting
      requires g in workers && p != Some(workers[g].pid)
      modifies this, ctrl
      ensures Valid() && script == old(script)
      ensures (next.Again? && st.phase.Publishing?) || (next.Renew? && st.phase == Reloading(Restart))
    {
      hide Next, After, Enabled, ImageOf, Goes, Generations, StatusMap, Inv,
           Image.Retired, Image.Received;
      ImageBooks(st);
      MoveOldExit(st, ReceiveExit(g));
      Discard(g);
      if |oldWorkers| == 0 && hangupPending {
        RenewPending(ReceiveExit(g));
        return Renew;
      }
      Commit(ReceiveExit(g), Publishing);
      return Again;
    }

    /** The restart that was held back begins; a request still in the slot is folded into it. */
    method RenewPending(a: Action)
      requires Inside(a) && !ctrl.done
      requires Goes(st, a, View().Retired().(hangup := false, pending := false, sig := OnHup), Reloading(Restart))
      modifies this, ctrl
      ensures Valid() && script == old(script) && st.phase == Reloading(Restart)
    {
      hide Next, After, Enabled, ImageOf, Goes, Generations, StatusMap, Inv;
      ctrl.TakeHangup();
      hangupPending, sigToSend := false, OnHup;
      Retire();
      Commit(a, Reloading(Restart));
    }

    method OnHangup() returns (next: Decision)
      requires Inside(ReceiveHangup) && View() == ImageOf(st) && st.phase == Selecting
      modifies this, ctrl
      ensures Valid() && script == old(script)
      ensures (next.Again? && st.phase.Publishing?) || (next.Renew? && st.phase == Reloading(Restart))
    {
      hide Next, After, Enabled, ImageOf, Goes, Generations, StatusMap, Inv;
      MoveHangup(st, ReceiveHangup);
      ctrl.TakeHangup();
      if |oldWorkers| == 0 {
        sigToSend := OnHup;
        Retire();
        Commit(ReceiveHangup, Reloading(Restart));
        return Renew;
      }
      hangupPending := true;
      Commit(ReceiveHangup, Publishing);
      return Again;
    }

    method OnTick() returns (next: Decision)
      requires Inside(ReceiveTick) && View() == ImageOf(st) && st.phase == Selecting
      modifies this, ctrl
      ensures Valid() && script == old(script)
      ensures (next.Again? && st.phase.Publishing?) || (next.Renew? && st.phase == Reloading(Restart))
    {
      hide Next, After, Enabled, ImageOf, Goes, Generations, StatusMap, Inv;
      MoveTick(st, ReceiveTick);
      timer := timer.(tick := false);
      if |oldWorkers| == 0 {
        Retire();
        Commit(ReceiveTick, Reloading(Restart));
        return Renew;
      }
      timer := timer.Reset();
      Commit(ReceiveTick, Publishing);
      return Again;
    }

    /** A receive whose pid is deleted from oldWorkers. */
    method Discard(g: int)
      requires g in workers && p != Some(workers[g].pid)
      modifies this`consumed, this`undelivered, this`oldWorkers
      ensures View() == old(View()).Received(g)
    {
      consumed, undelivered := consumed + {g}, undelivered - {g};
      oldWorkers := oldWorkers - {workers[g].pid};
    }

    /** The current worker, if there is one, becomes an old worker. */
    method Retire()
      modifies this`p, this`oldWorkers
      ensures View() == old(View()).Retired()
    {
      if p.Some? {
        oldWorkers := oldWorkers[p.value := generation];
      }
      p := None;
    }

    /** Receive exits until no worker is left or the deadline passes.  The caller completes the last action. */
    method WaitForWorkers(forced: bool) returns (all: bool, a: Action, blocked: bool)
      requires Valid() && st.phase == Draining(forced)
      modifies this, ctrl
      ensures blocked ==> Valid() && script == []
      ensures !blocked ==> Inside(a) && !ctrl.done && |script| <= |old(script)|
      ensures !blocked && all ==> |oldWorkers| == 0 && Goes(st, a, View().(released := true), Finished)
      ensures !blocked && !all ==>
                && |oldWorkers| > 0
                && (if forced then Goes(st, a, View().(released := true), Finished)
                    else Goes(st, a, View().(sent := sent.(killed := Generations(oldWorkers))), Draining(true)))
    {
      hide Next, After, Enabled, ImageOf, Goes, Generations, StatusMap, Inv;
      while true
        invariant Valid() && st.phase == Draining(forced) && |script| <= |old(script)|
        decreases |script|
      {
        a, blocked := Await(Draining(forced));
        if blocked {
          return false, a, true;
        }
        Possible(st, a);
        if a.Deadline? {
          Reachable(auto, checked, trace);
          MoveDeadline(st, a);
          DrainingSome(st);
          return false, a, false;
        }
        Reaped(a.gen, forced);
        a, blocked := Publish(PublishingDrain(forced));
        if blocked {
          return false, a, true;
        }
        if |oldWorkers| == 0 {
          return true, a, false;
        }
        Commit(a, Draining(forced));
      }
    }

    /** One receive of the wait loop: the worker is always found in oldWorkers. */
    method Reaped(g: int, forced: bool)
      requires Inside(ReceiveExit(g)) && View() == ImageOf(st) && st.phase == Draining(forced)
      modifies this
      ensures Valid() && st.phase == PublishingDrain(forced) && script == old(script)
      ensures |oldWorkers| == |old(oldWorkers)| - 1
    {
      hide Next, After, Enabled, ImageOf, Goes, Generations, StatusMap, Inv;
      Reachable(auto, checked, trace);
      MoveDrain(st, ReceiveExit(g));
      Discard(g);
      Commit(ReceiveExit(g), PublishingDrain(forced));
    }

    /** The deferred function and shutdownWorkers: signal everything, wait, kill the survivors, wait again. */
    method ShutdownWorkers() returns (blocked: bool)
      requires Valid() && st.phase == Stopping
      modifies this, ctrl
      ensures Valid() && (if blocked then script == [] else ctrl.done)
    {
      hide Next, After, Enabled, ImageOf, Goes, Generations, StatusMap, Inv;
      blocked := SignalAll();
      if blocked || ctrl.done {
        return;
      }
      var all, a, ended := WaitForWorkers(false);
      if ended {
        return true;
      }
      if all {
        Finish(a);
        return;
      }
      var targets := SignalEach(oldWorkers);
      sent := sent.(killed := targets);
      Commit(a, Draining(true));
      all, a, ended := WaitForWorkers(true);
      if ended {
        return true;
      }
      Finish(a);
    }

    /** The current worker joins oldWorkers, and each of them is signalled. */
    method SignalAll() returns (blocked: bool)
      requires Valid() && st.phase == Stopping
      modifies this, ctrl
      ensures Valid() && (blocked ==> script == [])
      ensures !blocked ==> if ctrl.done then st.phase.Finished? else st.phase == Draining(false)
    {
      hide Next, After, Enabled, ImageOf, Goes, Generations, StatusMap, Inv;
      var a: Action;
      a, blocked := Await(Stopping);
      if blocked {
        return;
      }
      Possible(st, a);
      Reachable(auto, checked, trace);
      MoveSignal(st, a);
      Retire();
      var targets := SignalEach(oldWorkers);
      sent := sent.(stopSignal := sigToSend, stopped := targets);
      if |oldWorkers| == 0 {
        Finish(a);
      } else {
        Commit(a, Draining(false));
      }
    }

    /** close(workerStateDone) and close(ctrl.done). */
    method Finish(a: Action)
      requires Inside(a) && Goes(st, a, View().(released := true), Finished)
      modifies this, ctrl
      ensures Valid() && ctrl.done && st.phase.Finished?
    {
      hide Next, After, Enabled, ImageOf, Goes, Generations, StatusMap, Inv;
      released, ctrl.done := true, true;
      Commit(a, Finished);
    }

    /** The first worker; `next` is Stop when the run is over already. */
    method Begin() returns (next: Decision)
      requires Valid() && st.phase == Starting(Initial(checked))
      modifies this, ctrl
      ensures Valid()
      ensures (next.Again? && st.phase.Publishing?) || (next.Wait? && script == []) || (next.Stop? && ctrl.done)
    {
      hide Next, After, Enabled, ImageOf, Goes, Generations, StatusMap, Inv;
      var r, a := StartWorker(Initial(checked));
      if r.Blocked? {
        return Wait;
      }
      next := First(r.process, r.err, a);
    }

    /**
      loop with the results of its first startWorker.  Had there been neither a process nor an error, the run could
      end with no error recorded; exactly one of them is there.
     */
    method First(process: Option<int>, err: Option<Error>, a: Action) returns (next: Decision)
      requires Returned(Initial(checked), Return(process, err), a)
      modifies this, ctrl
      ensures Valid() && if next.Again? then st.phase.Publishing? else next.Stop? && ctrl.done
      ensures ctrl.done ==> ctrl.err.Some?
    {
      hide Next, After, Enabled, ImageOf, Goes, Generations, StatusMap, Inv;
      var over := Concluded(process, err);
      if over {
        ctrl.done := true;
        Commit(a, Finished);
        return Stop;
      }
      p := process;
      timer := timer.Reset();
      Commit(a, Publishing);
      return Again;
    }

    /** One turn of the loop. */
    method Turn() returns (next: Decision)
      requires Valid() && st.phase == Publishing
      modifies this, ctrl
      ensures Valid() && (!next.Wait? ==> |script| < |old(script)|)
      ensures || (next.Again? && st.phase.Publishing?)
              || (next.Wait? && script == [])
              || (next.Stop? && st.phase.Stopping?)
      ensures next.Again? ==> AllSignalled(oldWorkers, sent.hups)
    {
      hide Next, After, Enabled, ImageOf, Goes, Generations, StatusMap, Inv;
      var a, blocked := Publish(Publishing);
      if blocked {
        return Wait;
      }
      Commit(a, Selecting);
      next := Select();
      if next.Replace? || next.Renew? {
        next := Bring(if next.Replace? then Replacement else Restart);
      }
      if next.Again? {
        EverybodyTold();
      }
    }

    method Serve()
      requires Valid() && st.phase == Starting(Initial(checked))
      modifies this, ctrl
      ensures Valid() && (ctrl.done || script == [])
    {
      hide Next, After, Enabled, ImageOf, Goes, Generations, StatusMap, Inv;
      var next := Begin();
      if !next.Again? {
        return;
      }
      while next.Again?
        invariant Valid()
        invariant || (next.Again? && st.phase.Publishing?)
                  || (next.Wait? && script == [])
                  || (next.Stop? && st.phase.Stopping?)
        decreases |script|, next.Again?
      {
        next := Turn();
      }
      if next.Stop? {
        var blocked := ShutdownWorkers();
      }
    }

    /**
      The whole goroutine.  For every script it goes through exactly the states of the step machine, and stops
      only when the script ends or when done is closed.  Then there is a terminal error, it is ErrServerClosed
      only after a cancellation, and every worker whose exit was not received was signalled with
      signalOnTERM and killed.
     */
    method Loop()
      requires Valid() && st == Init(auto, checked)
      modifies this, ctrl
      ensures Valid() && trace <= schedule && (ctrl.done || trace == schedule)
      ensures View() == ImageOf(After(auto, checked, trace))
      ensures ctrl.done <==> ctrl.err.Some? && st.phase.Finished?
      ensures ctrl.err == Some(ServerClosed) ==> cancelled
      ensures st.phase.Selecting? ==> AllSignalled(oldWorkers, sent.hups) && (auto ==> timer.armed || timer.tick)
      ensures ctrl.done && workers != map[] ==> sent.stopSignal == OnTerm
      ensures ctrl.done ==> workers.Keys - consumed <= sent.stopped * sent.killed
    {
      Serve();
      Reachable(auto, checked, trace);
      LifecycleTheorems.EndOfRun(auto, checked, trace);
      if st.phase.Selecting? {
        EverybodyTold();
      }
    }
  }
}
