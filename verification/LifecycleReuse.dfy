/**
  Why the model assumes that a launch never reports a pid whose last exit is still undelivered.  A waiter reaps its
  process before it sends on the channel, so between the two the operating system is free to hand the pid out again,
  and the loop may be inside startWorker just then.
 */
module LifecycleReuse {
  import opened Basics
  import opened Lifecycle
  import opened LifecycleTheorems

  /** The machine on an operating system that does hand such a pid out. */
  ghost function NextReusing(s: State, a: Action): State {
    if a.Launch? && s.phase.Preparing? then
      s.(books := s.books.Bump(), counts := s.counts.(spawned := s.counts.spawned + 1),
         phase := Probing(s.phase.why, a.pid))
    else Next(s, a)
  }

  ghost function RunReusing(s: State, schedule: seq<Action>): State
    decreases |schedule|
  {
    if schedule == [] then s else RunReusing(NextReusing(s, schedule[0]), schedule[1..])
  }

  lemma Two(s: State, a: Action, b: Action, rest: seq<Action>)
    ensures RunReusing(s, [a, b] + rest) == RunReusing(NextReusing(NextReusing(s, a), b), rest)
  {
    hide NextReusing;
    var schedule := [a, b] + rest;
    assert schedule[0] == a && schedule[1..] == [b] + rest;
    assert ([b] + rest)[0] == b && ([b] + rest)[1..] == rest;
  }

  // A first worker with pid 7 comes up.  A hangup begins a restart, and the worker ends by itself meanwhile.  The new
  // worker gets pid 7 as well.  Then the exit of the first one is received.
  const REUSE: seq<Action> :=
    [CheckContext, Launch(7)] + ([ProbePasses, Publish(false)] + ([CallHangup, ReceiveHangup]
    + ([WorkerExits(1), ReloadEnv(true)] + ([CheckContext, Launch(7)] + ([ProbePasses, DelayOver]
    + ([Publish(false), ReceiveExit(1)] + []))))))

  /** The part of the state that the schedule is about. */
  ghost predicate At(s: State, phase: Phase, books: Books) {
    s.phase == phase && s.books == books && !s.hangup && !s.pending && !s.cancelled
  }

  lemma FirstLaunched(s: State, books: Books)
    requires At(s, Starting(Initial(false)), books)
    ensures At(NextReusing(NextReusing(s, CheckContext), Launch(7)), Probing(Initial(false), 7), books.Bump())
  {
  }

  lemma FirstUp(s: State, books: Books)
    requires At(s, Probing(Initial(false), 7), books)
    ensures At(NextReusing(NextReusing(s, ProbePasses), Publish(false)), Selecting, books.Accept(7, true))
  {
  }

  lemma RestartBegun(s: State, books: Books)
    requires At(s, Selecting, books) && books.oldWorkers == map[]
    ensures At(NextReusing(NextReusing(s, CallHangup), ReceiveHangup), Reloading(Restart), books.Retire())
  {
  }

  lemma FirstExits(s: State, books: Books)
    requires At(s, Reloading(Restart), books) && 1 in books.workers && 1 !in books.exited
    ensures At(NextReusing(NextReusing(s, WorkerExits(1)), ReloadEnv(true)), Starting(Restart), books.Exits(1))
  {
  }

  lemma SecondLaunched(s: State, books: Books)
    requires At(s, Starting(Restart), books)
    ensures At(NextReusing(NextReusing(s, CheckContext), Launch(7)), Probing(Restart, 7), books.Bump())
  {
  }

  lemma SecondUp(s: State, books: Books)
    requires At(s, Probing(Restart, 7), books) && 7 in books.oldWorkers
    ensures At(NextReusing(NextReusing(s, ProbePasses), DelayOver), Publishing, books.Accept(7, true))
  {
    assert |books.oldWorkers.Keys| > 0;
  }

  lemma FirstReceived(s: State, books: Books)
    requires At(s, Publishing, books) && 1 in books.workers && 1 in books.undelivered
    requires books.current == Some(books.workers[1].pid)
    ensures NextReusing(NextReusing(s, Publish(false)), ReceiveExit(1)).books == books.Receive(1)
  {
  }

  /** The books while the first worker is up, when it has ended and the second is up, and at the end. */
  function Alone(): Books {
    Books(None, 0, map[], {}, map[], {}, {}).Bump().Accept(7, true)
  }

  function Both(): Books {
    Alone().Retire().Exits(1).Bump().Accept(7, true)
  }

  lemma ReuseBooks()
    ensures Alone() == Books(Some(7), 1, map[], {}, map[1 := Worker(7, true)], {}, {})
    ensures Alone().Retire() == Books(None, 1, map[7 := 1], {}, map[1 := Worker(7, true)], {}, {})
    ensures Alone().Retire().Exits(1).Bump().oldWorkers == map[7 := 1]
    ensures Both() == Books(Some(7), 2, map[7 := 1], {1}, map[1 := Worker(7, true), 2 := Worker(7, true)], {1}, {})
  {
  }

  /**
    Without the assumption the supervisor loses a worker.  The exit of the first worker is taken for that of the second:
    the second is running and neither current, nor old, nor received, and the first is both received and old.
   */
  lemma FreshNeeded()
    ensures var b := RunReusing(Init(false, false), REUSE).books;
            && b.Unconsumed(2) && 2 !in b.exited
            && 2 !in CurrentGeneration(b) + Generations(b.oldWorkers)
            && 1 in b.consumed && 1 in Generations(b.oldWorkers)
  {
    hide RunReusing;
    ReuseBooks();
    BooksAtEnd();
    var b := Both().Receive(1);
    assert b.oldWorkers[7] == 1;
  }

  lemma BooksAtEnd()
    ensures 1 in Both().workers && RunReusing(Init(false, false), REUSE).books == Both().Receive(1)
  {
    hide RunReusing, NextReusing, Books.Bump, Books.Accept, Books.Retire, Books.Exits, Books.Receive;
    ReuseBooks();
    var s0 := Init(false, false);
    var s1 := NextReusing(NextReusing(s0, CheckContext), Launch(7));
    FirstLaunched(s0, s0.books);
    var s2 := NextReusing(NextReusing(s1, ProbePasses), Publish(false));
    FirstUp(s1, s1.books);
    var s3 := NextReusing(NextReusing(s2, CallHangup), ReceiveHangup);
    RestartBegun(s2, s2.books);
    var s4 := NextReusing(NextReusing(s3, WorkerExits(1)), ReloadEnv(true));
    FirstExits(s3, s3.books);
    var s5 := NextReusing(NextReusing(s4, CheckContext), Launch(7));
    SecondLaunched(s4, s4.books);
    var s6 := NextReusing(NextReusing(s5, ProbePasses), DelayOver);
    SecondUp(s5, s5.books);
    var s7 := NextReusing(NextReusing(s6, Publish(false)), ReceiveExit(1));
    FirstReceived(s6, s6.books);
    Reused(s0);
  }

  /** The schedule two actions at a time. */
  lemma Reused(s0: State)
    ensures var s1 := NextReusing(NextReusing(s0, CheckContext), Launch(7));
            var s2 := NextReusing(NextReusing(s1, ProbePasses), Publish(false));
            var s3 := NextReusing(NextReusing(s2, CallHangup), ReceiveHangup);
            var s4 := NextReusing(NextReusing(s3, WorkerExits(1)), ReloadEnv(true));
            var s5 := NextReusing(NextReusing(s4, CheckContext), Launch(7));
            var s6 := NextReusing(NextReusing(s5, ProbePasses), DelayOver);
            RunReusing(s0, REUSE) == NextReusing(NextReusing(s6, Publish(false)), ReceiveExit(1))
  {
    hide NextReusing;
    var s1 := NextReusing(NextReusing(s0, CheckContext), Launch(7));
    var s2 := NextReusing(NextReusing(s1, ProbePasses), Publish(false));
    var s3 := NextReusing(NextReusing(s2, CallHangup), ReceiveHangup);
    var s4 := NextReusing(NextReusing(s3, WorkerExits(1)), ReloadEnv(true));
    var s5 := NextReusing(NextReusing(s4, CheckContext), Launch(7));
    var s6 := NextReusing(NextReusing(s5, ProbePasses), DelayOver);
    var r6: seq<Action> := [Publish(false), ReceiveExit(1)] + [];
    var r5 := [ProbePasses, DelayOver] + r6;
    var r4 := [CheckContext, Launch(7)] + r5;
    var r3 := [WorkerExits(1), ReloadEnv(true)] + r4;
    var r2 := [CallHangup, ReceiveHangup] + r3;
    var r1 := [ProbePasses, Publish(false)] + r2;
    Two(s0, CheckContext, Launch(7), r1);
    Two(s1, ProbePasses, Publish(false), r2);
    Two(s2, CallHangup, ReceiveHangup, r3);
    Two(s3, WorkerExits(1), ReloadEnv(true), r4);
    Two(s4, CheckContext, Launch(7), r5);
    Two(s5, ProbePasses, DelayOver, r6);
    Two(s6, Publish(false), ReceiveExit(1), []);
  }
}
