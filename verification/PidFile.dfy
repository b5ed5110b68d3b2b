/**
  Ownership of the pid file (internal/statefile/pidfile.go, pidfile_unix.go, pidfile_lock_linux.go).

  Any number of processes run `acquire` and `Close` on one path at the same time.  Each system call is one
  atomic step, any process may crash between two of them, and a schedule is any sequence of steps.  Nothing
  else links or renames the file.  An inode number may come back once it has no name and nobody has it open.
 */
module PidFile {
  import opened Basics

  /** How far one process has got. */
  datatype Stage =
    | Idle
    | Reopening                  // the exclusive create said that the file exists
    | Opened(inode: int)         // before fstat
    | Inspected(inode: int)      // fstat saw one link; before flock
    | Locked(inode: int)         // flock granted; before the second look at the link count
    | Owner(inode: int)          // link count seen to be one while holding the lock
    | Truncated(inode: int)      // the old pid is gone
    | Recorded(inode: int)       // the pid is written: Acquire has returned
    | Removing(inode: int)       // Close: the path was seen to name this inode; before unlink
    | Leaving(inode: int)        // Close: before close, which releases the lock

  /** One unlink: who did it, the inode it had locked, and the inode that lost its name. */
  datatype Unlink = Unlink(process: int, own: int, removed: int)

  datatype State = State(
    name: Option<int>,           // the inode the path names
    links: map<int, int>,        // link counts
    holder: map<int, int>,       // exclusive flock, by inode
    contents: map<int, int>,     // recorded pid, by inode
    stages: map<int, Stage>,
    unlinks: seq<Unlink>)

  datatype Action =
    | Create(p: int, inode: int) | Reopen(p: int) | Inspect(p: int) | Lock(p: int) | Recheck(p: int)
    | Truncate(p: int) | Record(p: int)
    | StatPath(p: int) | Remove(p: int) | Release(p: int)
    | Crash(p: int)              // also every error return of acquire that closes the file

  const INIT := State(None, map[], map[], map[], map[], [])

  function StageOf(s: State, p: int): Stage {
    if p in s.stages then s.stages[p] else Idle
  }

  function Links(s: State, i: int): int {
    if i in s.links then s.links[i] else 0
  }

  predicate HasOpen(g: Stage, i: int) {
    !g.Idle? && !g.Reopening? && g.inode == i
  }

  predicate HoldsLock(g: Stage) {
    g.Locked? || g.Owner? || g.Truncated? || g.Recorded? || g.Removing? || g.Leaving?
  }

  /** Between passing the second link check and unlinking in Close. */
  predicate Owns(g: Stage) {
    g.Owner? || g.Truncated? || g.Recorded? || g.Removing?
  }

  /** An inode number the file system may hand out. */
  predicate Unused(s: State, i: int) {
    Links(s, i) == 0 && forall p | p in s.stages :: !HasOpen(s.stages[p], i)
  }

  predicate Enabled(s: State, a: Action) {
    var g := StageOf(s, a.p);
    match a
    case Create(_, inode) => g.Idle? && (s.name.None? ==> Unused(s, inode))
    case Reopen(_) => g.Reopening?
    case Inspect(_) => g.Opened?
    case Lock(_) => g.Inspected?
    case Recheck(_) => g.Locked?
    case Truncate(_) => g.Owner?
    case Record(_) => g.Truncated?
    case StatPath(_) => g.Recorded?
    case Remove(_) => g.Removing?
    case Release(_) => g.Leaving?
    case Crash(_) => true
  }

  /** The process closes what it has open; its lock goes with it. */
  function Drop(s: State, p: int): State {
    var g := StageOf(s, p);
    s.(stages := s.stages[p := Idle],
       holder := if HoldsLock(g) then s.holder - {g.inode} else s.holder)
  }

  /** One step; `recheck` says whether acquire looks at the link count again after locking. */
  function Apply(s: State, a: Action, recheck: bool): State
    requires Enabled(s, a)
  {
    var p, g := a.p, StageOf(s, a.p);
    match a
    case Create(_, inode) =>
      if s.name.Some? then s.(stages := s.stages[p := Reopening])
      else s.(name := Some(inode), links := s.links[inode := 1], contents := s.contents - {inode},
              stages := s.stages[p := Opened(inode)])
    case Reopen(_) => s.(stages := s.stages[p := if s.name.Some? then Opened(s.name.value) else Idle])
    case Inspect(_) => s.(stages := s.stages[p := if Links(s, g.inode) == 1 then Inspected(g.inode) else Idle])
    case Lock(_) =>
      if g.inode in s.holder then s.(stages := s.stages[p := Idle])
      else s.(stages := s.stages[p := Locked(g.inode)], holder := s.holder[g.inode := p])
    case Recheck(_) =>
      if recheck && Links(s, g.inode) != 1 then Drop(s, p) else s.(stages := s.stages[p := Owner(g.inode)])
    case Truncate(_) => s.(stages := s.stages[p := Truncated(g.inode)], contents := s.contents - {g.inode})
    case Record(_) => s.(stages := s.stages[p := Recorded(g.inode)], contents := s.contents[g.inode := p])
    case StatPath(_) =>
      var seen := if s.name == Some(g.inode) then Removing(g.inode) else Leaving(g.inode);
      s.(stages := s.stages[p := seen])
    case Remove(_) =>
      if s.name.None? then s.(stages := s.stages[p := Leaving(g.inode)])
      else s.(name := None, links := s.links[s.name.value := Links(s, s.name.value) - 1],
              stages := s.stages[p := Leaving(g.inode)],
              unlinks := s.unlinks + [Unlink(p, g.inode, s.name.value)])
    case Release(_) => Drop(s, p)
    case Crash(_) => Drop(s, p)
  }

  function Next(s: State, a: Action, recheck: bool): State {
    if Enabled(s, a) then Apply(s, a, recheck) else s
  }

  function Run(s: State, schedule: seq<Action>, recheck: bool): State {
    if schedule == [] then s
    else Next(Run(s, schedule[..|schedule| - 1], recheck), schedule[|schedule| - 1], recheck)
  }

  /** The state after any interleaving of the protocol as it is. */
  function After(schedule: seq<Action>): State {
    Run(INIT, schedule, true)
  }

  // The invariant

  /** Only the path links to an inode. */
  ghost predicate LinksCounted(name: Option<int>, links: map<int, int>) {
    && (forall i | i in links :: links[i] == if name == Some(i) then 1 else 0)
    && (name.Some? ==> name.value in links)
  }

  /** The lock table agrees with the stages. */
  ghost predicate LocksHeld(stages: map<int, Stage>, holder: map<int, int>) {
    && (forall p | p in stages && HoldsLock(stages[p]) :: stages[p].inode in holder && holder[stages[p].inode] == p)
    && (forall i | i in holder :: holder[i] in stages && HoldsLock(stages[holder[i]]) && stages[holder[i]].inode == i)
  }

  /**
    Whoever owns the pid file has locked the very inode the path names, and after recording its pid is in it; whoever
    is leaving is not named any more.
   */
  ghost predicate OwnersNamed(s: State) {
    && (forall p | p in s.stages && Owns(s.stages[p]) :: s.name == Some(s.stages[p].inode))
    && (forall p | p in s.stages && (s.stages[p].Recorded? || s.stages[p].Removing?) ::
          s.stages[p].inode in s.contents && s.contents[s.stages[p].inode] == p)
    && (forall p | p in s.stages && s.stages[p].Leaving? :: s.name != Some(s.stages[p].inode))
  }

  ghost predicate Inv(s: State) {
    && LinksCounted(s.name, s.links)
    && LocksHeld(s.stages, s.holder)
    && OwnersNamed(s)
    && (forall k | 0 <= k < |s.unlinks| :: s.unlinks[k].own == s.unlinks[k].removed)
  }

  lemma CreateKept(s: State, a: Action)
    requires Inv(s) && Enabled(s, a) && a.Create?
    ensures Inv(Apply(s, a, true))
  {
  }

  lemma OpenKept(s: State, a: Action)
    requires Inv(s) && Enabled(s, a) && (a.Reopen? || a.Inspect?)
    ensures Inv(Apply(s, a, true))
  {
  }

  lemma LockKept(s: State, a: Action)
    requires Inv(s) && Enabled(s, a) && a.Lock?
    ensures Inv(Apply(s, a, true))
  {
  }

  lemma RecheckKept(s: State, a: Action)
    requires Inv(s) && Enabled(s, a) && a.Recheck?
    ensures Inv(Apply(s, a, true))
  {
  }

  lemma RecordKept(s: State, a: Action)
    requires Inv(s) && Enabled(s, a) && (a.Truncate? || a.Record?)
    ensures Inv(Apply(s, a, true))
  {
  }

  lemma RemoveKept(s: State, a: Action)
    requires Inv(s) && Enabled(s, a) && (a.StatPath? || a.Remove?)
    ensures Inv(Apply(s, a, true))
  {
  }

  lemma CloseKept(s: State, a: Action)
    requires Inv(s) && Enabled(s, a) && (a.Release? || a.Crash?)
    ensures Inv(Apply(s, a, true))
  {
  }

  lemma {:induction false} Reachable(schedule: seq<Action>)
    ensures Inv(After(schedule))
  {
    hide Apply;
    if schedule != [] {
      var before, a := schedule[..|schedule| - 1], schedule[|schedule| - 1];
      Reachable(before);
      if Enabled(After(before), a) {
        if a.Create? {
          CreateKept(After(before), a);
        } else if a.Reopen? || a.Inspect? {
          OpenKept(After(before), a);
        } else if a.Lock? {
          LockKept(After(before), a);
        } else if a.Recheck? {
          RecheckKept(After(before), a);
        } else if a.Truncate? || a.Record? {
          RecordKept(After(before), a);
        } else if a.StatPath? || a.Remove? {
          RemoveKept(After(before), a);
        } else {
          CloseKept(After(before), a);
        }
      }
    }
  }

  // Theorems

  /** Exclusion: in every interleaving at most one process owns the pid file, and the path names its inode. */
  lemma Exclusion(schedule: seq<Action>, p: int, q: int)
    requires Owns(StageOf(After(schedule), p)) && Owns(StageOf(After(schedule), q))
    ensures p == q
    ensures After(schedule).name == Some(StageOf(After(schedule), p).inode)
  {
    Reachable(schedule);
  }

  /** Close never removes a name that is not its own: every unlink hit the inode the closer had locked. */
  lemma UnlinksOwnInode(schedule: seq<Action>)
    ensures var s := After(schedule);
            && (forall k | 0 <= k < |s.unlinks| :: s.unlinks[k].own == s.unlinks[k].removed)
            && (forall p | StageOf(s, p).Removing? :: s.name == Some(StageOf(s, p).inode))
  {
    Reachable(schedule);
  }

  /** While Acquire's result is held, opening the path finds the holder's pid. */
  lemma PathTellsOwner(schedule: seq<Action>, p: int)
    requires StageOf(After(schedule), p).Recorded?
    ensures var s := After(schedule);
            && s.name.Some? && s.name.value in s.contents && s.contents[s.name.value] == p
            && s.name.value in s.holder && s.holder[s.name.value] == p
  {
    Reachable(schedule);
  }

  lemma {:induction false} RunSplit(s: State, first: seq<Action>, rest: seq<Action>, recheck: bool)
    ensures Run(s, first + rest, recheck) == Run(Run(s, first, recheck), rest, recheck)
    decreases |rest|
  {
    hide Apply;
    if rest == [] {
      assert first + rest == first;
    } else {
      var n := |rest| - 1;
      assert (first + rest)[..|first| + n] == first + rest[..n];
      RunSplit(s, first, rest[..n], recheck);
    }
  }

  /** Opening and inspecting, with nobody else moving. */
  function OpenSteps(p: int, i: int): seq<Action> {
    [Create(p, i), Reopen(p), Inspect(p)]
  }

  function OwnSteps(p: int): seq<Action> {
    [Lock(p), Recheck(p), Truncate(p), Record(p)]
  }

  lemma RunThree(s: State, a: Action, b: Action, c: Action, recheck: bool)
    ensures Run(s, [a, b, c], recheck) == Next(Next(Next(s, a, recheck), b, recheck), c, recheck)
  {
    hide Apply;
    assert [a, b, c][..2] == [a, b] && [a, b][..1] == [a] && [a][..0] == [];
    assert Run(s, [a], recheck) == Next(s, a, recheck);
    assert Run(s, [a, b], recheck) == Next(Next(s, a, recheck), b, recheck);
  }

  lemma RunFour(s: State, a: Action, b: Action, c: Action, d: Action, recheck: bool)
    ensures Run(s, [a, b, c, d], recheck) == Next(Next(Next(Next(s, a, recheck), b, recheck), c, recheck), d, recheck)
  {
    hide Apply;
    assert [a, b, c, d][..3] == [a, b, c];
    RunThree(s, a, b, c, recheck);
  }

  lemma OpenAlone(s: State, p: int, i: int)
    requires Inv(s) && StageOf(s, p).Idle? && (s.name.None? ==> Unused(s, i))
    ensures var t := Run(s, OpenSteps(p, i), true);
            && t.name == Some(if s.name.Some? then s.name.value else i)
            && StageOf(t, p) == Inspected(t.name.value) && Links(t, t.name.value) == 1 && t.holder == s.holder
  {
    RunThree(s, Create(p, i), Reopen(p), Inspect(p), true);
  }

  lemma OwnAlone(s: State, p: int)
    requires StageOf(s, p).Inspected? && Links(s, StageOf(s, p).inode) == 1 && StageOf(s, p).inode !in s.holder
    ensures StageOf(Run(s, OwnSteps(p), true), p) == Recorded(StageOf(s, p).inode)
  {
    RunFour(s, Lock(p), Recheck(p), Truncate(p), Record(p), true);
  }

  lemma UnusedUnlocked(s: State, i: int)
    requires LocksHeld(s.stages, s.holder) && Unused(s, i)
    ensures i !in s.holder
  {
    forall j | j in s.holder
      ensures j != i
    {
      var p := s.holder[j];
      assert p in s.stages && HasOpen(s.stages[p], j);
    }
  }

  /**
    No residue blocks a newcomer: after any interleaving, crashes included, a process that runs acquire alone
    succeeds unless somebody alive holds the lock of the file the path names.
   */
  lemma AcquireAlone(schedule: seq<Action>, p: int, i: int)
    requires var s := After(schedule);
             StageOf(s, p).Idle? && if s.name.Some? then s.name.value !in s.holder else Unused(s, i)
    ensures StageOf(After(schedule + (OpenSteps(p, i) + OwnSteps(p))), p).Recorded?
  {
    hide Apply;
    Reachable(schedule);
    var s := After(schedule);
    RunSplit(INIT, schedule, OpenSteps(p, i) + OwnSteps(p), true);
    RunSplit(s, OpenSteps(p, i), OwnSteps(p), true);
    OpenAlone(s, p, i);
    if s.name.None? {
      UnusedUnlocked(s, i);
    }
    OwnAlone(Run(s, OpenSteps(p, i), true), p);
  }

  function CloseSteps(p: int): seq<Action> {
    [StatPath(p), Remove(p), Release(p)]
  }

  /** An interleaving of three processes that needs the second look at the link count. */
  function LateLocker(): seq<Action> {
    OpenSteps(1, 10) + (OwnSteps(1)                          // 1 acquires inode 10
    + (OpenSteps(2, 11)                                      // 2 opens and inspects inode 10
    + (CloseSteps(1)                                         // 1 closes: the path is gone, the lock is free
    + (OwnSteps(2)                                           // 2 locks the unlinked inode
    + (OpenSteps(3, 11) + OwnSteps(3))))))                   // 3 creates the path anew and acquires it
  }

  // The states in between

  const OPENED_1 := State(Some(10), map[10 := 1], map[], map[], map[1 := Inspected(10)], [])
  const OWNED_1 := OPENED_1.(holder := map[10 := 1], contents := map[10 := 1], stages := map[1 := Recorded(10)])
  const OPENED_2 := OWNED_1.(stages := map[1 := Recorded(10), 2 := Inspected(10)])
  const CLOSED_1 :=
    State(None, map[10 := 0], map[], map[10 := 1], map[1 := Idle, 2 := Inspected(10)], [Unlink(1, 10, 10)])
  const OWNED_2 :=
    CLOSED_1.(holder := map[10 := 2], contents := map[10 := 2], stages := map[1 := Idle, 2 := Recorded(10)])
  const OPENED_3 :=
    OWNED_2.(name := Some(11), links := map[10 := 0, 11 := 1],
             stages := map[1 := Idle, 2 := Recorded(10), 3 := Inspected(11)])

  lemma FirstOpens()
    ensures Run(INIT, OpenSteps(1, 10), false) == OPENED_1
  {
    RunThree(INIT, Create(1, 10), Reopen(1), Inspect(1), false);
  }

  lemma FirstOwns()
    ensures Run(OPENED_1, OwnSteps(1), false) == OWNED_1
  {
    RunFour(OPENED_1, Lock(1), Recheck(1), Truncate(1), Record(1), false);
  }

  lemma SecondOpens()
    ensures Run(OWNED_1, OpenSteps(2, 11), false) == OPENED_2
  {
    RunThree(OWNED_1, Create(2, 11), Reopen(2), Inspect(2), false);
  }

  lemma FirstCloses()
    ensures Run(OPENED_2, CloseSteps(1), false) == CLOSED_1
  {
    RunThree(OPENED_2, StatPath(1), Remove(1), Release(1), false);
  }

  lemma SecondOwns()
    ensures Run(CLOSED_1, OwnSteps(2), false) == OWNED_2
  {
    RunFour(CLOSED_1, Lock(2), Recheck(2), Truncate(2), Record(2), false);
  }

  lemma ThirdOpens()
    ensures Run(OWNED_2, OpenSteps(3, 11), false) == OPENED_3
  {
    RunThree(OWNED_2, Create(3, 11), Reopen(3), Inspect(3), false);
    var s := OWNED_2;
    var created := s.(name := Some(11), links := s.links[11 := 1], stages := s.stages[3 := Opened(11)]);
    assert s.contents - {11} == s.contents;
    assert Next(s, Create(3, 11), false) == created;
    assert Next(created, Reopen(3), false) == created;
    assert created.stages[3 := Inspected(11)] == OPENED_3.stages;
  }

  lemma ThirdOwns()
    ensures var s := Run(OPENED_3, OwnSteps(3), false);
            StageOf(s, 2) == Recorded(10) && StageOf(s, 3) == Recorded(11)
  {
    RunFour(OPENED_3, Lock(3), Recheck(3), Truncate(3), Record(3), false);
  }

  /** Without the second link check exclusion fails: processes 2 and 3 end up owning different inodes. */
  lemma RecheckNeeded()
    ensures var s := Run(INIT, LateLocker(), false);
            StageOf(s, 2) == Recorded(10) && StageOf(s, 3) == Recorded(11)
  {
    hide Run, OpenSteps, OwnSteps, CloseSteps;
    FirstOpens();
    FirstOwns();
    SecondOpens();
    FirstCloses();
    SecondOwns();
    ThirdOpens();
    ThirdOwns();
    var third := OpenSteps(3, 11) + OwnSteps(3);
    var r4 := OwnSteps(2) + third;
    var r3 := CloseSteps(1) + r4;
    var r2 := OpenSteps(2, 11) + r3;
    var r1 := OwnSteps(1) + r2;
    RunSplit(INIT, OpenSteps(1, 10), r1, false);
    RunSplit(OPENED_1, OwnSteps(1), r2, false);
    RunSplit(OWNED_1, OpenSteps(2, 11), r3, false);
    RunSplit(OPENED_2, CloseSteps(1), r4, false);
    RunSplit(CLOSED_1, OwnSteps(2), third, false);
    RunSplit(OWNED_2, OpenSteps(3, 11), OwnSteps(3), false);
  }
}
