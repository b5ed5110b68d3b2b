/**
  What every step of the supervisor machine keeps.  Each predicate below is preserved by every action,
  so together they hold in every state any schedule can reach.
 */
module LifecycleInvariants {
  import opened Basics
  import opened Lifecycle

  /** The worker is the current one, or oldWorkers maps its pid to its generation. */
  predicate Tracked(b: Books, g: int)
    requires g in b.workers
  {
    || (b.current.Some? && g == b.generation)
    || (b.workers[g].pid in b.oldWorkers && b.oldWorkers[b.workers[g].pid] == g)
  }

  /** Conservation of workers: returned = current + old + consumed, with no overlap. */
  ghost predicate Sound(b: Books) {
    && b.generation >= 0
    && (forall g | g in b.workers :: 1 <= g <= b.generation && 0 < b.workers[g].pid <= MAX_INT)
    && b.consumed <= b.exited <= b.workers.Keys
    && b.undelivered <= b.exited - b.consumed
    && (b.current.Some? ==>
          && b.Unconsumed(b.generation)
          && b.workers[b.generation].pid == b.current.value
          && b.current.value !in b.oldWorkers)
    && (forall pid | pid in b.oldWorkers ::
          && b.Unconsumed(b.oldWorkers[pid])
          && b.workers[b.oldWorkers[pid]].pid == pid
          && (b.current.Some? ==> b.oldWorkers[pid] < b.generation))
    && (forall g | g in b.workers && g !in b.consumed :: Tracked(b, g))
  }

  lemma AcceptSound(b: Books, pid: int, probed: bool)
    requires Sound(b) && b.current.None? && b.Fresh(pid) && b.generation >= 1 && b.generation !in b.workers
    ensures Sound(b.Accept(pid, probed))
  {
  }

  lemma RetireSound(b: Books)
    requires Sound(b)
    ensures Sound(b.Retire()) && b.Retire().current.None?
    ensures |b.Retire().oldWorkers| == |b.oldWorkers| + (if b.current.Some? then 1 else 0)
  {
    if b.current.Some? {
      assert b.Retire().oldWorkers.Keys == b.oldWorkers.Keys + {b.current.value};
    }
  }

  lemma ReceiveSound(b: Books, g: int)
    requires Sound(b) && g in b.undelivered
    ensures Sound(b.Receive(g))
    ensures b.current != Some(b.workers[g].pid) ==> |b.Receive(g).oldWorkers| == |b.oldWorkers| - 1
  {
    assert b.Unconsumed(g) && Tracked(b, g);
    var c := b.Receive(g);
    if b.current != Some(b.workers[g].pid) {
      assert c.oldWorkers.Keys == b.oldWorkers.Keys - {b.workers[g].pid};
    }
    forall h | c.Unconsumed(h)
      ensures Tracked(c, h)
    {
      assert b.Unconsumed(h) && Tracked(b, h);
    }
  }

  lemma BumpSound(b: Books)
    requires Sound(b) && b.current.None?
    ensures Sound(b.Bump()) && b.Bump().generation !in b.workers
  {
  }

  lemma EnvironmentSound(b: Books, g: int)
    requires Sound(b)
    ensures g in b.workers && g !in b.exited ==> Sound(b.Exits(g))
    ensures Sound(b.Release(g))
  {
  }

  /** startWorker is running. */
  predicate InStart(p: Phase) {
    p.Reloading? || p.Starting? || p.Preparing? || p.Backoff? || p.Probing?
  }

  /** The loop is past its first worker and has not returned. */
  predicate InLoop(p: Phase) {
    p.Delaying? || p.Publishing? || p.Selecting?
  }

  predicate InStop(p: Phase) {
    p.Stopping? || p.Draining? || p.PublishingDrain? || p.Finished?
  }

  /** A restart was begun and its old worker has not been signalled yet. */
  predicate InRestart(p: Phase) {
    p.Delaying? || (InStart(p) && p.why.Restart?)
  }

  /** What the phase says about the books. */
  ghost predicate Shape(s: State) {
    && Sound(s.books)
    && (s.phase.Probing? ==>
          s.books.Fresh(s.phase.pid) && s.books.generation >= 1 && s.books.generation !in s.books.workers)
    && (InStart(s.phase) || (InStop(s.phase) && !s.phase.Stopping?) ==> s.books.current.None?)
    && (InLoop(s.phase) ==> s.books.current.Some?)
    && (InStart(s.phase) && s.phase.why.Initial? ==>
          s.books.workers == map[] && |s.books.oldWorkers| == 0 && !s.pending && !s.phase.Reloading?)
    && (InRestart(s.phase) ==> !s.pending)
    && (!InStop(s.phase) && s.pending ==> |s.books.oldWorkers| > 0)
    && |s.books.oldWorkers| <= (if InStop(s.phase) && !s.phase.Stopping? then 2 else 1)
  }

  /** The way out: the terminal error, the signal used, and who was signalled. */
  ghost predicate Exit(s: State) {
    && (s.err.Some? <==> InStop(s.phase))
    && s.err != Some(ContextError)
    && (s.err == Some(ServerClosed) ==> s.cancelled)
    && (s.released ==> s.phase.Finished?)
    && (s.phase.Stopping? ==> s.sig == OnTerm)
    && (s.phase.Draining? ==> |s.books.oldWorkers| > 0)
    && (s.phase.Finished? && !s.released ==> s.books.workers == map[])
    && (s.phase.Draining? || s.phase.PublishingDrain? || s.released ==>
          && s.sent.stopSignal == OnTerm
          && Generations(s.books.oldWorkers) <= s.sent.stopped)
    && (((s.phase.Draining? || s.phase.PublishingDrain?) && s.phase.forced) || s.released ==>
          Generations(s.books.oldWorkers) <= s.sent.killed)
  }

  /** signalOnHUP: once per worker, and only with a newer worker up. */
  ghost predicate HupsSent(workers: map<int, Worker>, hups: seq<HupRound>) {
    && (forall k | 0 <= k < |hups| ::
          && hups[k].newer in workers
          && hups[k].targets <= workers.Keys
          && (forall g | g in hups[k].targets :: g < hups[k].newer))
    && (forall i, j | 0 <= i < j < |hups| :: hups[i].targets !! hups[j].targets)
  }

  /** Only a cancelled context lets a worker through without its probe. */
  ghost predicate ProbedUnless(workers: map<int, Worker>, cancelled: bool) {
    forall g | g in workers && !workers[g].probed :: cancelled
  }

  ghost predicate Unhupped(oldWorkers: map<int, int>, hups: seq<HupRound>) {
    forall k | 0 <= k < |hups| :: Generations(oldWorkers) !! hups[k].targets
  }

  ghost predicate Hups(s: State) {
    && HupsSent(s.books.workers, s.sent.hups)
    && ProbedUnless(s.books.workers, s.cancelled)
    && (InRestart(s.phase) ==> Unhupped(s.books.oldWorkers, s.sent.hups))
  }

  function B2N(b: bool): nat {
    if b then 1 else 0
  }

  /** Every restart is paid for by a Hangup call or a timer that fired. */
  ghost predicate Ledger(s: State) {
    s.counts.restarts + B2N(s.pending) + B2N(s.hangup) + B2N(s.timer.tick) <= s.counts.hangupCalls + s.counts.ticks
  }

  /** The workers a snapshot must list. */
  ghost function ListedAt(workers: map<int, Worker>, snap: Snapshot): set<int> {
    set g | g in workers && g <= snap.generation && g !in snap.consumed
  }

  /** A written status file lists exactly the workers unconsumed when it was written, with their pids. */
  ghost predicate Faithful(workers: map<int, Worker>, snap: Snapshot) {
    && snap.status.Keys == ListedAt(workers, snap)
    && (forall g | g in snap.status :: snap.status[g] == workers[g].pid)
    && |snap.status| <= 2
  }

  ghost predicate AllFaithful(workers: map<int, Worker>, snaps: seq<Snapshot>) {
    forall k | 0 <= k < |snaps| :: Faithful(workers, snaps[k])
  }

  /** Snapshots were written in order, none after the present. */
  ghost predicate Ordered(snaps: seq<Snapshot>, generation: int, consumed: set<int>) {
    && (forall i, j | 0 <= i <= j < |snaps| ::
          snaps[i].generation <= snaps[j].generation && snaps[i].consumed <= snaps[j].consumed)
    && (forall k | 0 <= k < |snaps| :: snaps[k].generation <= generation && snaps[k].consumed <= consumed)
  }

  /** The counter a status file can have shown: a worker that is just coming up is in none yet. */
  function Shown(p: Phase, generation: int): int {
    if p.Probing? || p.Delaying? then generation - 1 else generation
  }

  ghost predicate Published(s: State) {
    && AllFaithful(s.books.workers, s.snapshots)
    && Ordered(s.snapshots, Shown(s.phase, s.books.generation), s.books.consumed)
  }

  ghost predicate Inv(s: State) {
    Shape(s) && Exit(s) && Hups(s) && Ledger(s) && Published(s)
  }

  // Helpers about single components

  lemma RetireUnhupped(b: Books, hups: seq<HupRound>)
    requires Sound(b) && |b.oldWorkers| == 0 && HupsSent(b.workers, hups)
    ensures Unhupped(b.Retire().oldWorkers, hups)
  {
  }

  lemma HupsAccepted(workers: map<int, Worker>, hups: seq<HupRound>, g: int, w: Worker)
    requires HupsSent(workers, hups) && g !in workers
    ensures HupsSent(workers[g := w], hups)
  {
  }

  lemma HupsExtended(b: Books, hups: seq<HupRound>)
    requires Sound(b) && b.current.Some? && HupsSent(b.workers, hups) && Unhupped(b.oldWorkers, hups)
    ensures HupsSent(b.workers, hups + [HupRound(Generations(b.oldWorkers), b.generation)])
  {
  }

  lemma FaithfulAccepted(workers: map<int, Worker>, snaps: seq<Snapshot>, g: int, w: Worker)
    requires AllFaithful(workers, snaps) && g !in workers
    requires forall k | 0 <= k < |snaps| :: snaps[k].generation < g
    ensures AllFaithful(workers[g := w], snaps)
  {
    forall k | 0 <= k < |snaps|
      ensures Faithful(workers[g := w], snaps[k])
    {
      assert ListedAt(workers[g := w], snaps[k]) == ListedAt(workers, snaps[k]);
    }
  }

  /**
    StatusMap inverts oldWorkers without overwriting anything: it has one entry per tracked worker, and
    that entry is the worker's own pid.
   */
  lemma StatusMapExact(b: Books)
    requires Sound(b)
    ensures var status := StatusMap(b.oldWorkers, b.current, b.generation);
            && status.Keys == (set g | g in b.workers && g !in b.consumed)
            && (forall g | g in status :: status[g] == b.workers[g].pid)
            && |status| == |b.oldWorkers| + B2N(b.current.Some?)
  {
    StatusMapCount(b);
    var status := StatusMap(b.oldWorkers, b.current, b.generation);
    forall g | g in b.workers && g !in b.consumed
      ensures g in status
    {
      assert Tracked(b, g);
    }
  }

  lemma StatusMapCount(b: Books)
    requires Sound(b)
    ensures |StatusMap(b.oldWorkers, b.current, b.generation)| == |b.oldWorkers| + B2N(b.current.Some?)
  {
    var m := map g | g in Generations(b.oldWorkers) :: PidOf(b.oldWorkers, g);
    GenerationsCount(b.oldWorkers);
    assert m.Keys == Generations(b.oldWorkers);
    if b.current.Some? {
      assert m[b.generation := b.current.value].Keys == m.Keys + {b.generation};
    }
  }

  lemma {:induction false} GenerationsCount(m: map<int, int>)
    requires forall p, q | p in m && q in m && m[p] == m[q] :: p == q
    ensures |Generations(m)| == |m|
    decreases |m|
  {
    if pid :| pid in m {
      var rest := map p | p in m && p != pid :: m[p];
      assert rest.Keys == m.Keys - {pid};
      assert |rest| == |rest.Keys| && |m| == |m.Keys|;
      GenerationsCount(rest);
      GenerationsSplit(m, rest, pid);
    } else {
      assert m.Keys == {} && Generations(m) == {};
    }
  }

  lemma GenerationsSplit(m: map<int, int>, rest: map<int, int>, pid: int)
    requires forall p, q | p in m && q in m && m[p] == m[q] :: p == q
    requires pid in m && rest.Keys == m.Keys - {pid} && (forall p | p in rest :: rest[p] == m[p])
    ensures Generations(m) == Generations(rest) + {m[pid]} && m[pid] !in Generations(rest)
  {
    forall g | g in Generations(m)
      ensures g in Generations(rest) + {m[pid]}
    {
      var p :| p in m && m[p] == g;
      assert p == pid || p in rest;
    }
  }

  lemma SnapshotFaithful(b: Books, snaps: seq<Snapshot>)
    requires Sound(b) && |b.oldWorkers| + B2N(b.current.Some?) <= 2
    requires AllFaithful(b.workers, snaps) && Ordered(snaps, b.generation, b.consumed)
    ensures AllFaithful(b.workers, snaps + [SnapshotOf(b, b.current)])
    ensures Ordered(snaps + [SnapshotOf(b, b.current)], b.generation, b.consumed)
  {
    hide Ordered;
    StatusMapExact(b);
    var snap := SnapshotOf(b, b.current);
    assert ListedAt(b.workers, snap) == set g | g in b.workers && g !in b.consumed;
    OrderedNext(snaps, snap);
  }

  lemma OrderedNext(snaps: seq<Snapshot>, snap: Snapshot)
    requires Ordered(snaps, snap.generation, snap.consumed)
    ensures Ordered(snaps + [snap], snap.generation, snap.consumed)
  {
  }

  // Every action keeps the invariant; one lemma for each branch of the machine.

  lemma EnvironmentKept(s: State, a: Action)
    requires Inv(s) && Enabled(s, a) && Environmental(a)
    ensures Inv(Apply(s, a))
  {
    if a.WorkerExits? || a.ReleaseWaiter? {
      EnvironmentSound(s.books, a.gen);
    }
  }

  /** Every error path out of startWorker, with the counter as it was or incremented. */
  lemma AbortKept(s: State, books: Books, e: Error)
    requires Inv(s) && InStart(s.phase) && !s.phase.Reloading?
    requires Sound(books) && s.books.generation <= books.generation && books == s.books.(generation := books.generation)
    requires e != ServerClosed && (e == ContextError ==> s.cancelled)
    ensures Inv(AbortStart(s, books, s.phase.why, e))
  {
  }

  lemma ContextKept(s: State, a: Action)
    requires Inv(s) && Enabled(s, a) && a.CheckContext?
    ensures Inv(Apply(s, a))
  {
    if s.cancelled {
      AbortKept(s, s.books, ContextError);
    }
  }

  lemma SetupKept(s: State, a: Action)
    requires Inv(s) && Enabled(s, a) && a.FailSetup?
    ensures Inv(Apply(s, a))
  {
    AbortKept(s, s.books, SetupError);
    assert Apply(s, a) == AbortStart(s, s.books, s.phase.why, SetupError);
  }

  lemma BackoffKept(s: State, a: Action)
    requires Inv(s) && Enabled(s, a) && (a.BackoffOver? || a.BackoffCancelled?)
    ensures Inv(Apply(s, a))
  {
    if a.BackoffCancelled? {
      AbortKept(s, s.books, ContextError);
    }
  }

  lemma LaunchKept(s: State, a: Action)
    requires Inv(s) && Enabled(s, a) && a.Launch?
    ensures Inv(Apply(s, a))
  {
    BumpSound(s.books);
  }

  lemma LaunchTerminalKept(s: State, a: Action)
    requires Inv(s) && Enabled(s, a) && a.FailLaunch? && a.terminal
    ensures Inv(Apply(s, a))
  {
    BumpSound(s.books);
    AbortKept(s, s.books.Bump(), LaunchError);
    assert Apply(s, a) == AbortStart(s, s.books.Bump(), s.phase.why, LaunchError);
  }

  lemma LaunchTransientKept(s: State, a: Action)
    requires Inv(s) && Enabled(s, a) && a.FailLaunch? && !a.terminal
    ensures Inv(Apply(s, a))
  {
    BumpSound(s.books);
  }

  // A worker that startWorker returns; `probed` is false only after a cancellation.

  lemma AcceptShape(s: State, probed: bool)
    requires Inv(s) && s.phase.Probing?
    ensures var t := AcceptWorker(s, s.phase.why, s.phase.pid, probed); Shape(t) && Exit(t) && Ledger(t)
  {
    AcceptSound(s.books, s.phase.pid, probed);
  }

  lemma AcceptHups(s: State, probed: bool)
    requires Inv(s) && s.phase.Probing? && (probed || s.cancelled)
    ensures Hups(AcceptWorker(s, s.phase.why, s.phase.pid, probed))
  {
    HupsAccepted(s.books.workers, s.sent.hups, s.books.generation, Worker(s.phase.pid, probed));
  }

  lemma AcceptPublished(s: State, probed: bool)
    requires Inv(s) && s.phase.Probing?
    ensures Published(AcceptWorker(s, s.phase.why, s.phase.pid, probed))
  {
    FaithfulAccepted(s.books.workers, s.snapshots, s.books.generation, Worker(s.phase.pid, probed));
  }

  lemma AcceptKept(s: State, a: Action)
    requires Inv(s) && Enabled(s, a) && (a.ProbePasses? || a.ProbeCancelled?)
    ensures Inv(Apply(s, a))
  {
    hide Shape, Exit, Ledger, Hups, Published, AcceptWorker;
    AcceptShape(s, a.ProbePasses?);
    AcceptHups(s, a.ProbePasses?);
    AcceptPublished(s, a.ProbePasses?);
  }

  lemma ProbeRetryKept(s: State, a: Action)
    requires Inv(s) && Enabled(s, a) && a.ProbeFindsDead?
    requires !s.cancelled && !(s.phase.why.Initial? && s.phase.why.checked)
    ensures Inv(Apply(s, a))
  {
  }

  lemma ProbeAbortKept(s: State, a: Action)
    requires Inv(s) && Enabled(s, a) && a.ProbeFindsDead?
    requires s.cancelled || (s.phase.why.Initial? && s.phase.why.checked)
    ensures Inv(Apply(s, a))
  {
    hide Inv;
    var e := if s.phase.why.Initial? && s.phase.why.checked then EarlyExit else ContextError;
    InvSound(s);
    AbortKept(s, s.books, e);
    assert Apply(s, a) == AbortStart(s, s.books, s.phase.why, e);
  }

  lemma InvSound(s: State)
    requires Inv(s)
    ensures Sound(s.books)
  {
  }

  lemma ReceiveDrainKept(s: State, a: Action)
    requires Inv(s) && Enabled(s, a) && a.ReceiveExit? && s.phase.Draining?
    ensures Inv(Apply(s, a))
  {
    ReceiveSound(s.books, a.gen);
  }

  lemma ReceiveCurrentKept(s: State, a: Action)
    requires Inv(s) && Enabled(s, a) && a.ReceiveExit? && s.phase.Selecting?
    requires s.books.current == Some(s.books.workers[a.gen].pid)
    ensures Inv(Apply(s, a))
  {
    ReceiveSound(s.books, a.gen);
  }

  lemma ReceiveOldKept(s: State, a: Action)
    requires Inv(s) && Enabled(s, a) && a.ReceiveExit? && s.phase.Selecting?
    requires s.books.current != Some(s.books.workers[a.gen].pid) && !s.pending
    ensures Inv(Apply(s, a))
  {
    ReceiveSound(s.books, a.gen);
  }

  lemma ReceivePendingHups(s: State, a: Action)
    requires Inv(s) && Enabled(s, a) && a.ReceiveExit? && s.phase.Selecting?
    requires s.books.current != Some(s.books.workers[a.gen].pid) && s.pending
    ensures Hups(Apply(s, a))
  {
    hide Exit, Ledger, Published;
    ReceiveSound(s.books, a.gen);
    RetireUnhupped(s.books.Receive(a.gen), s.sent.hups);
  }

  lemma ReceivePendingKept(s: State, a: Action)
    requires Inv(s) && Enabled(s, a) && a.ReceiveExit? && s.phase.Selecting?
    requires s.books.current != Some(s.books.workers[a.gen].pid) && s.pending
    ensures Inv(Apply(s, a))
  {
    hide Hups, Sound, AllFaithful;
    assert Sound(s.books);
    ReceiveSound(s.books, a.gen);
    RetireSound(s.books.Receive(a.gen));
    ReceivePendingHups(s, a);
  }

  lemma CancelKept(s: State, a: Action)
    requires Inv(s) && Enabled(s, a) && a.ReceiveCancel?
    ensures Inv(Apply(s, a))
  {
  }

  lemma HangupKept(s: State, a: Action)
    requires Inv(s) && Enabled(s, a) && a.ReceiveHangup?
    ensures Inv(Apply(s, a))
  {
    if |s.books.oldWorkers| == 0 {
      RetireSound(s.books);
      RetireUnhupped(s.books, s.sent.hups);
    }
  }

  lemma TickKept(s: State, a: Action)
    requires Inv(s) && Enabled(s, a) && a.ReceiveTick?
    ensures Inv(Apply(s, a))
  {
    if |s.books.oldWorkers| == 0 {
      RetireSound(s.books);
      RetireUnhupped(s.books, s.sent.hups);
    }
  }

  lemma ReloadEnvKept(s: State, a: Action)
    requires Inv(s) && Enabled(s, a) && a.ReloadEnv? && a.ok
    ensures Inv(Apply(s, a))
  {
  }

  lemma ReloadFailsKept(s: State, a: Action)
    requires Inv(s) && Enabled(s, a) && a.ReloadEnv? && !a.ok
    ensures Inv(Apply(s, a))
  {
  }

  lemma DelayOverKept(s: State, a: Action)
    requires Inv(s) && Enabled(s, a) && a.DelayOver?
    ensures Inv(Apply(s, a))
  {
    HupsExtended(s.books, s.sent.hups);
  }

  lemma PublishKept(s: State, a: Action)
    requires Inv(s) && Enabled(s, a) && a.Publish?
    ensures Inv(Apply(s, a))
  {
    hide Sound, AllFaithful, Ordered, SnapshotOf, HupsSent, ProbedUnless, Unhupped;
    SnapshotFaithful(s.books, s.snapshots);
  }

  lemma SignalAllExit(s: State, a: Action)
    requires Inv(s) && Enabled(s, a) && a.SignalAll?
    ensures Exit(Apply(s, a))
  {
    hide Hups, Ledger, Published;
    RetireSound(s.books);
  }

  lemma SignalAllShape(s: State, a: Action)
    requires Inv(s) && Enabled(s, a) && a.SignalAll?
    ensures Shape(Apply(s, a)) && Ledger(Apply(s, a))
  {
    hide Hups, Exit, Published, Sound, Books.Retire;
    RetireSound(s.books);
  }

  lemma SignalAllKept(s: State, a: Action)
    requires Inv(s) && Enabled(s, a) && a.SignalAll?
    ensures Inv(Apply(s, a))
  {
    hide Exit, Shape, Ledger;
    SignalAllShape(s, a);
    SignalAllExit(s, a);
  }

  lemma KillKept(s: State, a: Action)
    requires Inv(s) && Enabled(s, a) && a.Deadline? && !s.phase.forced
    ensures Inv(Apply(s, a))
  {
  }

  lemma GiveUpKept(s: State, a: Action)
    requires Inv(s) && Enabled(s, a) && a.Deadline? && s.phase.forced
    ensures Inv(Apply(s, a))
  {
  }

  lemma StartKept(s: State, a: Action)
    requires Inv(s) && Enabled(s, a) && Starter(a)
    ensures Inv(Apply(s, a))
  {
    hide Apply, Inv;
    match a {
      case CheckContext => ContextKept(s, a);
      case FailSetup => SetupKept(s, a);
      case BackoffCancelled => BackoffKept(s, a);
      case BackoffOver => BackoffKept(s, a);
      case Launch(_) => LaunchKept(s, a);
      case FailLaunch(terminal) =>
        if terminal { LaunchTerminalKept(s, a); } else { LaunchTransientKept(s, a); }
      case ProbePasses => AcceptKept(s, a);
      case ProbeCancelled => AcceptKept(s, a);
      case ProbeFindsDead =>
        if s.cancelled || (s.phase.why.Initial? && s.phase.why.checked) { ProbeAbortKept(s, a); }
        else { ProbeRetryKept(s, a); }
    }
  }

  lemma ReceiveKept(s: State, a: Action)
    requires Inv(s) && Enabled(s, a) && a.ReceiveExit?
    ensures Inv(Apply(s, a))
  {
    hide Apply, Inv;
    if s.phase.Draining? {
      ReceiveDrainKept(s, a);
    } else if s.books.current == Some(s.books.workers[a.gen].pid) {
      ReceiveCurrentKept(s, a);
    } else if s.pending {
      ReceivePendingKept(s, a);
    } else {
      ReceiveOldKept(s, a);
    }
  }

  lemma RestKept(s: State, a: Action)
    requires Inv(s) && Enabled(s, a) && !Environmental(a) && !Starter(a) && !Selects(a)
    ensures Inv(Apply(s, a))
  {
    hide Apply, Inv;
    match a {
      case ReloadEnv(ok) =>
        if ok { ReloadEnvKept(s, a); } else { ReloadFailsKept(s, a); }
      case DelayOver => DelayOverKept(s, a);
      case Publish(_) => PublishKept(s, a);
      case SignalAll => SignalAllKept(s, a);
      case Deadline =>
        if s.phase.forced { GiveUpKept(s, a); } else { KillKept(s, a); }
    }
  }

  lemma NextKept(s: State, a: Action)
    requires Inv(s)
    ensures Inv(Next(s, a))
  {
    hide Apply, Inv, Enabled;
    if Enabled(s, a) {
      if Environmental(a) {
        EnvironmentKept(s, a);
      } else if Starter(a) {
        StartKept(s, a);
      } else if a.ReceiveExit? {
        ReceiveKept(s, a);
      } else if a.ReceiveCancel? {
        CancelKept(s, a);
      } else if a.ReceiveHangup? {
        HangupKept(s, a);
      } else if a.ReceiveTick? {
        TickKept(s, a);
      } else {
        RestKept(s, a);
      }
    }
  }

  /** The invariant holds after every schedule. */
  lemma {:induction false} Reachable(auto: bool, checked: bool, schedule: seq<Action>)
    ensures Inv(After(auto, checked, schedule))
  {
    hide Apply;
    if schedule != [] {
      Reachable(auto, checked, schedule[..|schedule| - 1]);
      NextKept(After(auto, checked, schedule[..|schedule| - 1]), schedule[|schedule| - 1]);
    }
  }
}
