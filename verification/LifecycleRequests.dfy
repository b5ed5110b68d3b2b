/**
  No restart request is lost: from the call to Hangup on, through the one-slot buffer, the coalescing while a worker
  drains and the requests that are folded into a restart already under way.
 */
module LifecycleRequests {
  import opened Basics
  import opened Lifecycle
  import opened LifecycleInvariants
  import opened LifecycleTheorems

  /** The counter has passed what each of the first n status files showed. */
  ghost predicate Newer(snapshots: seq<Snapshot>, n: nat, generation: int) {
    n <= |snapshots| && forall k | 0 <= k < n :: snapshots[k].generation < generation
  }

  /**
    A request made when n status files had been written is still in the slot, held back, or being carried out; or a
    worker that none of those files lists has come up since; or the run is shutting down.
   */
  ghost predicate Kept(s: State, n: nat) {
    || InStop(s.phase) || InStart(s.phase)
    || s.hangup || s.pending
    || Newer(s.snapshots, n, s.books.generation)
  }

  lemma KeptStart(s: State, a: Action, n: nat)
    requires Inv(s) && Enabled(s, a) && Starter(a) && n <= |s.snapshots|
    ensures Kept(ApplyStart(s, a), n) && ApplyStart(s, a).snapshots == s.snapshots
  {
    hide ApplyStart, Inv;
    StartFrame(s, a);
    if a.ProbePasses? || a.ProbeCancelled? {
      UnpublishedYet(s, n);
    } else {
      StartPhases(s, a);
    }
  }

  lemma StartPhases(s: State, a: Action)
    requires Enabled(s, a) && Starter(a) && !a.ProbePasses? && !a.ProbeCancelled?
    ensures InStart(ApplyStart(s, a).phase) || InStop(ApplyStart(s, a).phase)
  {
  }

  /** No status file has shown a worker that is just coming up. */
  lemma UnpublishedYet(s: State, n: nat)
    requires Inv(s) && (s.phase.Probing? || s.phase.Delaying?) && n <= |s.snapshots|
    ensures Newer(s.snapshots, n, s.books.generation)
  {
    assert Published(s);
  }

  lemma KeptSelect(s: State, a: Action, n: nat)
    requires Enabled(s, a) && Selects(a) && Kept(s, n)
    ensures var t := ApplySelect(s, a); Kept(t, n) && t.snapshots == s.snapshots
  {
    SelectFrame(s, a);
    SelectRequests(s, a);
  }

  /** Receiving a request begins a restart or holds it back, and the slot is emptied otherwise only by a restart. */
  lemma SelectRequests(s: State, a: Action)
    requires Enabled(s, a) && Selects(a)
    ensures var t := ApplySelect(s, a);
            && t.snapshots == s.snapshots
            && (InStart(t.phase) || InStop(t.phase) || (t.phase.Publishing? && s.phase.Selecting?))
            && (t.phase.Publishing? && (s.hangup || s.pending) ==> t.hangup || t.pending)
  {
    hide Books.Receive, Books.Retire;
  }

  lemma KeptRest(s: State, a: Action, n: nat)
    requires Inv(s) && Enabled(s, a) && !Environmental(a) && !Starter(a) && !Selects(a)
    requires n <= |s.snapshots| && Kept(s, n)
    ensures var t := ApplyRest(s, a); Kept(t, n) && s.snapshots <= t.snapshots
  {
    hide Inv, SnapshotOf;
    if a.DelayOver? {
      UnpublishedYet(s, n);
    }
  }

  lemma KeptStep(s: State, a: Action, n: nat)
    requires Inv(s) && n <= |s.snapshots| && Kept(s, n)
    ensures Kept(Next(s, a), n) && s.snapshots <= Next(s, a).snapshots
  {
    hide Inv, ApplyStart, ApplySelect, ApplyRest, Kept;
    if Enabled(s, a) {
      if Environmental(a) {
        KeptOutside(s, a, n);
      } else if Starter(a) {
        KeptStart(s, a, n);
      } else if Selects(a) {
        KeptSelect(s, a, n);
      } else {
        KeptRest(s, a, n);
      }
    }
  }

  lemma KeptOutside(s: State, a: Action, n: nat)
    requires Enabled(s, a) && Environmental(a) && Kept(s, n)
    ensures Kept(ApplyEnvironment(s, a), n) && ApplyEnvironment(s, a).snapshots == s.snapshots
  {
  }

  lemma {:induction false} KeptAfter(s: State, schedule: seq<Action>, n: nat)
    requires Inv(s) && n <= |s.snapshots| && Kept(s, n)
    ensures Kept(Run(s, schedule), n) && s.snapshots <= Run(s, schedule).snapshots
  {
    hide Inv, Next, Kept;
    if schedule != [] {
      var before, a := schedule[..|schedule| - 1], schedule[|schedule| - 1];
      KeptAfter(s, before, n);
      InvAfter(s, before);
      KeptStep(Run(s, before), a, n);
    }
  }

  /**
    No request is dropped unanswered: a step that empties a full slot receives the request in the select statement,
    or begins a restart, or leaves a current worker behind that no status file written so far lists.
   */
  lemma NothingDropped(auto: bool, checked: bool, schedule: seq<Action>, a: Action)
    ensures var s := After(auto, checked, schedule); var t := Next(s, a);
            s.hangup && !t.hangup ==>
              || a == ReceiveHangup
              || t.counts.restarts == s.counts.restarts + 1
              || (t.books.current.Some? && Newer(t.snapshots, |t.snapshots|, t.books.generation))
  {
    var s := After(auto, checked, schedule);
    Reachable(auto, checked, schedule);
    if s.hangup && !Next(s, a).hangup {
      SlotEmptied(s, a);
    }
  }

  lemma SlotEmptied(s: State, a: Action)
    requires Inv(s) && s.hangup && !Next(s, a).hangup
    ensures var t := Next(s, a);
            || a == ReceiveHangup
            || t.counts.restarts == s.counts.restarts + 1
            || (t.books.current.Some? && Newer(t.snapshots, |t.snapshots|, t.books.generation))
  {
    hide Inv, ApplyStart, ApplySelect;
    if Starter(a) {
      StartFrame(s, a);
      SlotInStart(s, a);
      UnpublishedYet(s, |s.snapshots|);
    } else if Selects(a) {
      SlotInSelect(s, a);
    } else if a.DelayOver? {
      UnpublishedYet(s, |s.snapshots|);
      DelayingCurrent(s);
    }
  }

  lemma SlotInStart(s: State, a: Action)
    requires Enabled(s, a) && Starter(a) && s.hangup && !ApplyStart(s, a).hangup
    ensures s.phase.Probing? && ApplyStart(s, a).books.current.Some?
    ensures ApplyStart(s, a).books.generation == s.books.generation
  {
  }

  lemma SlotInSelect(s: State, a: Action)
    requires Enabled(s, a) && Selects(a) && s.hangup && !ApplySelect(s, a).hangup
    ensures a == ReceiveHangup || ApplySelect(s, a).counts.restarts == s.counts.restarts + 1
  {
    hide Books.Receive, Books.Retire;
  }

  lemma DelayingCurrent(s: State)
    requires Inv(s) && s.phase.Delaying?
    ensures s.books.current.Some?
  {
    assert Shape(s);
  }

  lemma {:induction false} RunConcat(s: State, first: seq<Action>, rest: seq<Action>)
    ensures Run(s, first + rest) == Run(Run(s, first), rest)
    decreases |rest|
  {
    hide Next;
    if rest == [] {
      assert first + rest == first;
    } else {
      var n := |rest| - 1;
      assert (first + rest)[..|first| + n] == first + rest[..n];
      RunConcat(s, first, rest[..n]);
    }
  }

  /**
    From the call on: after any schedule whatever, a request made when n status files had been written has been kept,
    and those n files are still the first ones.
   */
  lemma RequestKept(auto: bool, checked: bool, before: seq<Action>, after: seq<Action>)
    ensures var s, u := After(auto, checked, before), After(auto, checked, before + [CallHangup] + after);
            Kept(u, |s.snapshots|) && s.snapshots <= u.snapshots
  {
    hide Inv, Kept;
    var s := After(auto, checked, before);
    var t := Next(s, CallHangup);
    Reachable(auto, checked, before);
    NextKept(s, CallHangup);
    JustCalled(s);
    KeptAfter(t, after, |s.snapshots|);
    RunSnoc(Init(auto, checked), before, CallHangup);
    RunConcat(Init(auto, checked), before + [CallHangup], after);
  }

  lemma JustCalled(s: State)
    ensures Kept(Next(s, CallHangup), |s.snapshots|) && Next(s, CallHangup).snapshots == s.snapshots
  {
  }
}
