/**
  `acquire` and `Close` as the sequences of system calls they are, run by one process while others act on the
  same path between any two calls.  Every call is a step of the machine in PidFile, so what holds of every
  interleaving there holds while this code runs.
 */
module PidFileCalls {
  import opened Basics
  import opened PidFile

  /** What the kernel holds for all processes, and what the other processes do before each call of this one. */
  class Kernel {
    var s: State
    var others: seq<seq<Action>>
    ghost var trace: seq<Action>

    ghost predicate Valid()
      reads this
    {
      s == After(trace)
    }

    constructor (others: seq<seq<Action>>)
      ensures Valid() && s == INIT && this.others == others
    {
      s, this.others, trace := INIT, others, [];
    }

    /** One system call by the process it names. */
    method Call(a: Action)
      requires Valid()
      modifies this
      ensures Valid() && s == Next(old(s), a, true) && trace == old(trace) + [a] && others == old(others)
    {
      hide Next;
      assert (trace + [a])[..|trace|] == trace;
      s := Next(s, a, true);
      trace := trace + [a];
    }

    /** The other processes run for a while. */
    method Interleave(p: int)
      requires Valid()
      modifies this
      ensures Valid() && StageOf(s, p) == old(StageOf(s, p))
      ensures old(s.unlinks) <= s.unlinks
      ensures old(others) == [] ==> s == old(s) && others == []
    {
      hide Next;
      var steps := if others == [] then [] else others[0];
      others := if others == [] then [] else others[1..];
      for i := 0 to |steps|
        invariant Valid() && StageOf(s, p) == old(StageOf(s, p)) && old(s.unlinks) <= s.unlinks
        invariant others == if old(others) == [] then [] else old(others)[1..]
        invariant i == 0 ==> s == old(s)
      {
        if steps[i].p != p {
          OnlyOwnStage(s, steps[i], p);
          Call(steps[i]);
        }
      }
    }
  }

  /** A step changes the stage of the process that takes it and of no other. */
  lemma OnlyOwnStage(s: State, a: Action, p: int)
    requires a.p != p
    ensures StageOf(Next(s, a, true), p) == StageOf(s, p)
    ensures s.unlinks <= Next(s, a, true).unlinks
  {
  }

  /** The call fits where the process stands. */
  predicate Ready(g: Stage, a: Action) {
    match a
    case Create(_, _) => false
    case Reopen(_) => g.Reopening?
    case Inspect(_) => g.Opened?
    case Lock(_) => g.Inspected?
    case Recheck(_) => g.Locked?
    case Truncate(_) => g.Owner?
    case Record(_) => g.Truncated?
    case StatPath(_) => g.Recorded?
    case Remove(_) => g.Removing?
    case Release(_) => g.Leaving?
    case Crash(_) => true
  }

  /** Where a call can leave the process that makes it. */
  predicate Leads(g: Stage, a: Action, h: Stage)
    requires Ready(g, a)
  {
    match a
    case Reopen(_) => h.Idle? || h.Opened?
    case Inspect(_) => h.Idle? || h == Inspected(g.inode)
    case Lock(_) => h.Idle? || h == Locked(g.inode)
    case Recheck(_) => h.Idle? || h == Owner(g.inode)
    case Truncate(_) => h == Truncated(g.inode)
    case Record(_) => h == Recorded(g.inode)
    case StatPath(_) => h == Removing(g.inode) || h == Leaving(g.inode)
    case Remove(_) => h == Leaving(g.inode)
    case Release(_) => h.Idle?
    case Crash(_) => h.Idle?
  }

  lemma Outcomes(s: State, a: Action)
    requires Ready(StageOf(s, a.p), a)
    ensures Leads(StageOf(s, a.p), a, StageOf(Next(s, a, true), a.p))
  {
  }

  /** Faults of the calls after the lock; each closes the file and returns an error. */
  datatype Fault = NoFault | FailTruncate | FailWrite | FailSync

  class PIDFile {
    const kernel: Kernel
    const process: int
    var file: Option<int>

    /** The handle has a file exactly while the process has acquired it and not closed it. */
    ghost predicate Valid()
      reads this, kernel
    {
      kernel.Valid() && StageOf(kernel.s, process) == if file.Some? then Recorded(file.value) else Idle
    }

    constructor (kernel: Kernel, process: int)
      requires kernel.Valid() && StageOf(kernel.s, process).Idle?
      ensures Valid() && this.kernel == kernel && this.process == process && file.None?
    {
      this.kernel, this.process, file := kernel, process, None;
    }

    /** One call of this process, after the others have run for a while; `before` is what the call finds. */
    method Step(a: Action) returns (ghost before: State)
      requires kernel.Valid() && a.p == process && Ready(StageOf(kernel.s, process), a)
      modifies kernel
      ensures kernel.Valid() && Leads(old(StageOf(kernel.s, process)), a, StageOf(kernel.s, process))
      ensures kernel.s == Next(before, a, true) && Inv(before)
      ensures StageOf(before, process) == old(StageOf(kernel.s, process)) && old(kernel.s.unlinks) <= before.unlinks
      ensures old(kernel.others) == [] ==> before == old(kernel.s) && kernel.others == []
    {
      hide Next, Leads, Inv;
      kernel.Interleave(process);
      before := kernel.s;
      Reachable(kernel.trace);
      Outcomes(kernel.s, a);
      kernel.Call(a);
    }

    /**
      openPIDFile: create, or reopen what exists, and look at the link count.  With nobody else acting, a path that
      exists is always opened, and one that does not exist is created unless the file system has no inode left.
     */
    method Open(inode: int) returns (ok: bool)
      requires kernel.Valid() && StageOf(kernel.s, process).Idle?
      modifies kernel
      ensures kernel.Valid()
      ensures if ok then StageOf(kernel.s, process).Inspected? else StageOf(kernel.s, process).Idle?
      ensures old(kernel.others) == [] ==>
                && kernel.others == []
                && (ok <==> old(kernel.s.name).Some? || Unused(old(kernel.s), inode))
                && (ok ==> Found(old(kernel.s), kernel.s, process, inode))
    {
      hide Next, Inv, Unused;
      kernel.Interleave(process);
      if kernel.s.name.None? && !Unused(kernel.s, inode) {
        return false;
      }
      ghost var before := kernel.s;
      Reachable(kernel.trace);
      Created(kernel.s, process, inode);
      kernel.Call(Create(process, inode));
      if StageOf(kernel.s, process).Reopening? {
        Reopened(kernel.s, process);
        var _ := Step(Reopen(process));
        if StageOf(kernel.s, process).Idle? {
          return false;
        }
      }
      Reachable(kernel.trace);
      Looked(kernel.s, process);
      var _ := Step(Inspect(process));
      ok := !StageOf(kernel.s, process).Idle?;
    }

    /**
      acquire.  On success the path names the file, the file holds this process's pid and lock, and no other process
      owns the pid file; on every error the process is left with nothing open.  With nobody else acting it succeeds
      exactly if no call fails and the file that the path names, if there is one, is not locked: what a crashed process
      left behind does not matter.
     */
    method Acquire(inode: int, fault: Fault) returns (ok: bool)
      requires Valid() && file.None?
      modifies this, kernel
      ensures Valid() && ok == file.Some?
      ensures ok ==>
                && kernel.s.name == file
                && file.value in kernel.s.contents && kernel.s.contents[file.value] == process
                && file.value in kernel.s.holder && kernel.s.holder[file.value] == process
                && forall q | Owns(StageOf(kernel.s, q)) :: q == process
      ensures old(kernel.others) == [] ==> (ok <==> fault.NoFault? && Free(old(kernel.s), inode))
      ensures old(kernel.others) == [] && ok && old(kernel.s.name).Some? ==> file == old(kernel.s.name)
    {
      hide Next, Inv, Unused, Free, Found;
      ghost var start := kernel.s;
      Reachable(kernel.trace);
      ok := Open(inode);
      FreeExactly(start, kernel.s, process, inode);
      if !ok {
        return;
      }
      LockedAlone(kernel.s, process);
      var _ := Step(Lock(process));
      if StageOf(kernel.s, process).Idle? {
        return false;
      }
      RecheckedAlone(kernel.s, process);
      var _ := Step(Recheck(process));
      if StageOf(kernel.s, process).Idle? {
        return false;
      }
      ok := Record(fault);
      if ok {
        Acquired();
      }
    }

    /** Truncate, write the pid, sync: this succeeds exactly if none of them fails. */
    method Record(fault: Fault) returns (ok: bool)
      requires kernel.Valid() && file.None? && StageOf(kernel.s, process).Owner?
      modifies this, kernel
      ensures Valid() && ok == file.Some? && (ok <==> fault.NoFault?)
      ensures ok ==> file == Some(old(StageOf(kernel.s, process)).inode)
    {
      hide Next, Inv;
      var inode := StageOf(kernel.s, process).inode;
      if fault.FailTruncate? {
        var _ := Step(Crash(process));
        return false;
      }
      var _ := Step(Truncate(process));
      if fault.FailWrite? {
        var _ := Step(Crash(process));
        return false;
      }
      var _ := Step(Action.Record(process));
      if fault.FailSync? {
        var _ := Step(Crash(process));
        return false;
      }
      file := Some(inode);
      return true;
    }

    lemma Acquired()
      requires Valid() && file.Some?
      ensures kernel.s.name == file
      ensures file.value in kernel.s.contents && kernel.s.contents[file.value] == process
      ensures file.value in kernel.s.holder && kernel.s.holder[file.value] == process
      ensures forall q | Owns(StageOf(kernel.s, q)) :: q == process
    {
      PathTellsOwner(kernel.trace, process);
      Exclusion(kernel.trace, process, process);
      forall q | Owns(StageOf(kernel.s, q))
        ensures q == process
      {
        Exclusion(kernel.trace, process, q);
      }
    }

    /**
      Close: a handle without a file is left alone.  Otherwise, whatever the others do meanwhile, this process unlinks
      its own file: afterwards the path does not name it and nobody holds its lock.  No unlink hit anybody else's file.
     */
    method Close()
      requires Valid()
      modifies this, kernel
      ensures Valid() && file.None?
      ensures old(file).None? ==> kernel.s == old(kernel.s) && kernel.trace == old(kernel.trace)
      ensures old(file).Some? ==> kernel.s.name != old(file) && old(file).value !in kernel.s.holder
      ensures old(file).Some? ==>
                exists k :: && |old(kernel.s.unlinks)| <= k < |kernel.s.unlinks|
                            && kernel.s.unlinks[k] == Unlink(process, old(file).value, old(file).value)
      ensures old(kernel.s.unlinks) <= kernel.s.unlinks
      ensures forall k | 0 <= k < |kernel.s.unlinks| :: kernel.s.unlinks[k].own == kernel.s.unlinks[k].removed
      ensures old(kernel.others) == [] && old(file).Some? ==> kernel.s.name.None?
    {
      hide Next, Inv;
      if file.Some? {
        ghost var seen := Step(StatPath(process));
        OwnSeen(seen, process);
        if StageOf(kernel.s, process).Removing? {
          ghost var found := Step(Remove(process));
          OwnRemoved(found, process);
        }
        ghost var k := |kernel.s.unlinks| - 1;
        ghost var last := Step(Release(process));
        OwnReleased(last, process);
        assert kernel.s.unlinks[k] == Unlink(process, file.value, file.value);
        file := None;
      }
      UnlinksOwnInode(kernel.trace);
    }
  }

  // What single calls find and do

  /** Nobody holds the lock of the file the path names, or there is no such file and one can be created. */
  predicate Free(s: State, inode: int) {
    if s.name.Some? then s.name.value !in s.holder else Unused(s, inode)
  }

  /** The process has opened and inspected the file the path named, or the one it created. */
  predicate Found(s: State, t: State, p: int, inode: int) {
    var i := if s.name.Some? then s.name.value else inode;
    t.name == Some(i) && StageOf(t, p) == Inspected(i) && Links(t, i) == 1 && t.holder == s.holder
  }

  /** The exclusive create has been made: the file is open, or it exists and has to be opened again. */
  predicate Coming(s: State, t: State, p: int, inode: int) {
    var i := if s.name.Some? then s.name.value else inode;
    t.name == Some(i) && t.holder == s.holder && (StageOf(t, p).Reopening? || StageOf(t, p) == Opened(i))
  }

  lemma Created(s: State, p: int, inode: int)
    requires Enabled(s, Create(p, inode))
    ensures var t := Next(s, Create(p, inode), true);
            Coming(s, t, p, inode) && (s.name.None? ==> StageOf(t, p).Opened?)
  {
  }

  lemma Reopened(s: State, p: int)
    requires StageOf(s, p).Reopening?
    ensures var t := Next(s, Reopen(p), true);
            && t.name == s.name && t.holder == s.holder
            && (s.name.Some? ==> StageOf(t, p) == Opened(s.name.value))
  {
  }

  lemma Looked(s: State, p: int)
    requires Inv(s) && StageOf(s, p).Opened?
    ensures var t := Next(s, Inspect(p), true);
            && t.name == s.name && t.holder == s.holder
            && (s.name == Some(StageOf(s, p).inode) ==>
                  StageOf(t, p) == Inspected(s.name.value) && Links(t, s.name.value) == 1)
  {
  }

  lemma FreeExactly(s: State, t: State, p: int, inode: int)
    requires Inv(s)
    ensures Free(s, inode) ==> s.name.Some? || Unused(s, inode)
    ensures (s.name.Some? || Unused(s, inode)) && Found(s, t, p, inode) ==>
              (Free(s, inode) <==> StageOf(t, p).inode !in t.holder)
    ensures Found(s, t, p, inode) ==>
              && StageOf(t, p).Inspected? && Links(t, StageOf(t, p).inode) == 1
              && (s.name.Some? ==> StageOf(t, p).inode == s.name.value)
  {
    if s.name.None? && Unused(s, inode) {
      UnusedUnlocked(s, inode);
    }
  }

  lemma LockedAlone(s: State, p: int)
    requires StageOf(s, p).Inspected?
    ensures var i, t := StageOf(s, p).inode, Next(s, Lock(p), true);
            (StageOf(t, p).Locked? <==> i !in s.holder) && Links(t, i) == Links(s, i)
  {
  }

  lemma RecheckedAlone(s: State, p: int)
    requires StageOf(s, p).Locked?
    ensures Links(s, StageOf(s, p).inode) == 1 ==> StageOf(Next(s, Recheck(p), true), p).Owner?
  {
  }

  /** Close always finds its own file under the path. */
  lemma OwnSeen(s: State, p: int)
    requires Inv(s) && StageOf(s, p).Recorded?
    ensures var t := Next(s, StatPath(p), true);
            StageOf(t, p) == Removing(StageOf(s, p).inode) && t.unlinks == s.unlinks
  {
  }

  lemma OwnRemoved(s: State, p: int)
    requires Inv(s) && StageOf(s, p).Removing?
    ensures var i, t := StageOf(s, p).inode, Next(s, Remove(p), true);
            t.name.None? && t.unlinks == s.unlinks + [Unlink(p, i, i)]
  {
  }

  lemma OwnReleased(s: State, p: int)
    requires Inv(s) && StageOf(s, p).Leaving?
    ensures var i, t := StageOf(s, p).inode, Next(s, Release(p), true);
            t.name == s.name && t.name != Some(i) && i !in t.holder && t.unlinks == s.unlinks
  {
  }
}
