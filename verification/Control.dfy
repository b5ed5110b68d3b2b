/**
  The external Restart command (internal/control/control.go).  It sees nothing of the supervisor but the
  status file; the theorems here say what it may conclude from two readings of that file.
 */
module Control {
  import opened Basics
  import opened Text
  import opened Status
  import Lifecycle
  import LifecycleInvariants
  import LifecycleTheorems
  import LifecycleRequests

  /** current has a generation that previous has not. */
  predicate GenerationAdvanced(previous: map<int, int>, current: map<int, int>) {
    exists g :: g in current && g !in previous
  }

  /** Indexing a Go map: the zero value for a missing key. */
  function At(m: map<int, int>, g: int): int {
    if g in m then m[g] else 0
  }

  predicate OldWorkersGone(previous: map<int, int>, current: map<int, int>) {
    forall g | g in previous :: At(current, g) != previous[g]
  }

  /** generationAdvanced, as the loop it is. */
  method CheckGenerationAdvanced(previous: map<int, int>, current: map<int, int>) returns (advanced: bool)
    ensures advanced == GenerationAdvanced(previous, current)
  {
    var rest := current.Keys;
    while rest != {}
      invariant rest <= current.Keys
      invariant forall g | g in current && g !in rest :: g in previous
      decreases rest
    {
      SomeMember(rest);
      var g :| g in rest;
      if g !in previous {
        return true;
      }
      rest := rest - {g};
    }
    return false;
  }

  /** oldWorkersGone, as the loop it is. */
  method CheckOldWorkersGone(previous: map<int, int>, current: map<int, int>) returns (gone: bool)
    ensures gone == OldWorkersGone(previous, current)
  {
    var rest := previous.Keys;
    while rest != {}
      invariant rest <= previous.Keys
      invariant forall g | g in previous && g !in rest :: At(current, g) != previous[g]
      decreases rest
    {
      SomeMember(rest);
      var g :| g in rest;
      if At(current, g) == previous[g] {
        return false;
      }
      rest := rest - {g};
    }
    return true;
  }

  /** What one turn of the poll loop meets: the context is done, or the file is read (None: it cannot be). */
  datatype Poll = ContextDone | Read(contents: Option<string>)

  datatype Outcome = Restarted(turn: nat) | TimedOut | ReadFailed | StillWaiting

  /** The file as ReadStatus reports it. */
  function Reading(contents: Option<string>): Option<map<int, int>> {
    match contents
    case None => None
    case Some(data) => StatusOf(data)
  }

  /** The turn reads a well-formed file. */
  predicate Reads(p: Poll) {
    p.Read? && Reading(p.contents).Some?
  }

  /** What the file of the turn says satisfies both conditions. */
  predicate Satisfied(previous: map<int, int>, p: Poll)
    requires Reads(p)
  {
    var current := Reading(p.contents).value;
    GenerationAdvanced(previous, current) && OldWorkersGone(previous, current)
  }

  /** The loop goes on through all turns before k: each reads a well-formed file that does not satisfy it. */
  predicate GoesOnTo(previous: map<int, int>, polls: seq<Poll>, k: int) {
    0 <= k <= |polls| && forall j | 0 <= j < k :: Reads(polls[j]) && !Satisfied(previous, polls[j])
  }

  /**
    How Restart ends: with success in the first turn that satisfies it, and with a timeout or an error in the first turn
    in which the context is done or the file cannot be read, if no turn before did; otherwise it is still waiting.
   */
  ghost predicate Ends(before: Option<string>, polls: seq<Poll>, r: Outcome) {
    if Reading(before).None? then r == ReadFailed
    else
      var previous := Reading(before).value;
      match r
      case Restarted(k) =>
        k < |polls| && GoesOnTo(previous, polls, k) && Reads(polls[k]) && Satisfied(previous, polls[k])
      case TimedOut => exists k :: GoesOnTo(previous, polls, k) && k < |polls| && polls[k].ContextDone?
      case ReadFailed => exists k :: GoesOnTo(previous, polls, k) && k < |polls| && polls[k].Read? && !Reads(polls[k])
      case StillWaiting => GoesOnTo(previous, polls, |polls|)
  }

  /** Restart after it has found the supervisor: the first reading, the signal, and the poll loop. */
  method Restart(before: Option<string>, polls: seq<Poll>) returns (r: Outcome)
    ensures Ends(before, polls, r)
  {
    hide GenerationAdvanced, OldWorkersGone, StatusOf;
    if before.None? {
      return ReadFailed;
    }
    var first := ReadStatus(before.value);
    if first.None? {
      return ReadFailed;
    }
    var previous := first.value;
    for k := 0 to |polls|
      invariant GoesOnTo(previous, polls, k)
    {
      if polls[k].ContextDone? {
        return TimedOut;
      }
      if polls[k].contents.None? {
        return ReadFailed;
      }
      var now := ReadStatus(polls[k].contents.value);
      if now.None? {
        return ReadFailed;
      }
      var advanced := CheckGenerationAdvanced(previous, now.value);
      var gone := CheckOldWorkersGone(previous, now.value);
      if advanced && gone {
        return Restarted(k);
      }
    }
    return StillWaiting;
  }

  /** The loop does not go past a turn that ends it. */
  lemma NotPast(previous: map<int, int>, polls: seq<Poll>, k: int, j: int)
    requires GoesOnTo(previous, polls, k) && 0 <= j
    ensures j < |polls| && (!Reads(polls[j]) || Satisfied(previous, polls[j])) ==> k <= j
    ensures j >= |polls| ==> k <= j
  {
  }

  /** Readings decide the outcome: Restart has no other. */
  lemma EndsOnce(before: Option<string>, polls: seq<Poll>, q: Outcome, r: Outcome)
    requires Ends(before, polls, q) && Ends(before, polls, r)
    ensures q == r
  {
    hide GenerationAdvanced, OldWorkersGone, StatusOf;
    if Reading(before).Some? {
      var previous := Reading(before).value;
      var j, k := LastTurn(before, polls, q), LastTurn(before, polls, r);
      NotPast(previous, polls, j, k);
      NotPast(previous, polls, k, j);
    }
  }

  /** The turn in which Restart ends; the number of turns when it has not. */
  ghost function LastTurn(before: Option<string>, polls: seq<Poll>, r: Outcome): (k: int)
    requires Ends(before, polls, r) && Reading(before).Some?
    ensures GoesOnTo(Reading(before).value, polls, k)
    ensures match r
            case Restarted(turn) => k == turn < |polls| && Reads(polls[k]) && Satisfied(Reading(before).value, polls[k])
            case TimedOut => k < |polls| && polls[k].ContextDone?
            case ReadFailed => k < |polls| && polls[k].Read? && !Reads(polls[k])
            case StillWaiting => k == |polls|
  {
    match r
    case Restarted(turn) => turn
    case TimedOut =>
      var k :| GoesOnTo(Reading(before).value, polls, k) && k < |polls| && polls[k].ContextDone?;
      k
    case ReadFailed =>
      var k :| GoesOnTo(Reading(before).value, polls, k) && k < |polls| && polls[k].Read? && !Reads(polls[k]);
      k
    case StillWaiting => |polls|
  }

  /** A turn that satisfies Restart ends it with success, then or earlier, if every turn so far reads a valid file. */
  lemma SucceedsBy(before: Option<string>, polls: seq<Poll>, turn: nat, r: Outcome)
    requires Ends(before, polls, r) && Reading(before).Some? && turn < |polls|
    requires forall j | 0 <= j <= turn :: Reads(polls[j])
    requires Satisfied(Reading(before).value, polls[turn])
    ensures r.Restarted? && r.turn <= turn
  {
    hide GenerationAdvanced, OldWorkersGone, StatusOf;
    NotPast(Reading(before).value, polls, LastTurn(before, polls, r), turn);
  }

  // What the readings mean

  /** `data` is what WriteStatus left in the file for the k-th snapshot of the run. */
  ghost predicate Shows(s: Lifecycle.State, k: int, data: string) {
    && 0 <= k < |s.snapshots|
    && exists order :: Enumerates(order, s.snapshots[k].status.Keys) && data == StatusText(s.snapshots[k].status, order)
  }

  /** The turn reads the file of the k-th snapshot. */
  ghost predicate Meets(p: Poll, s: Lifecycle.State, k: int) {
    p.Read? && p.contents.Some? && Shows(s, k, p.contents.value)
  }

  /** A status file written by a run always reads back as the map that was written. */
  lemma ShownReadsBack(auto: bool, checked: bool, schedule: seq<Lifecycle.Action>, k: int, data: string)
    requires |schedule| <= MAX_INT && Shows(Lifecycle.After(auto, checked, schedule), k, data)
    ensures StatusOf(data) == Some(Lifecycle.After(auto, checked, schedule).snapshots[k].status)
  {
    var s := Lifecycle.After(auto, checked, schedule);
    LifecycleInvariants.Reachable(auto, checked, schedule);
    LifecycleTheorems.GenerationBound(auto, checked, schedule);
    var m := s.snapshots[k].status;
    var order :| Enumerates(order, m.Keys) && data == StatusText(m, order);
    assert LifecycleInvariants.Faithful(s.books.workers, s.snapshots[k]);
    assert Int64Map(m);
    TextFits(m, order);
    StatusRoundTrip(m, order);
  }

  /**
    For any two status files of one run, in the order they were written: oldWorkersGone says exactly that the
    exit of every worker in the first was received before the second was written, and generationAdvanced says
    exactly that the second lists a worker started after the first was written.
   */
  lemma SnapshotsTell(s: Lifecycle.State, i: int, j: int)
    requires LifecycleInvariants.Inv(s) && 0 <= i <= j < |s.snapshots|
    ensures var p, c := s.snapshots[i], s.snapshots[j];
            && (OldWorkersGone(p.status, c.status) <==> p.status.Keys <= c.consumed)
            && (!OldWorkersGone(p.status, c.status) <==>
                  exists g :: g in p.status && g in c.status && c.status[g] == p.status[g])
            && (GenerationAdvanced(p.status, c.status) <==> exists g :: g in c.status && g > p.generation)
            && (forall g | g in p.status :: g <= p.generation)
  {
    var p, c := s.snapshots[i], s.snapshots[j];
    assert LifecycleInvariants.Faithful(s.books.workers, p) && LifecycleInvariants.Faithful(s.books.workers, c);
    assert p.generation <= c.generation && p.consumed <= c.consumed;
    forall g | g in p.status
      ensures At(c.status, g) != p.status[g] <==> g in c.consumed
    {
      assert g in LifecycleInvariants.ListedAt(s.books.workers, p);
      assert g in c.status <==> g in LifecycleInvariants.ListedAt(s.books.workers, c);
    }
    forall g | g in c.status
      ensures g !in p.status <==> g > p.generation
    {
      assert g in LifecycleInvariants.ListedAt(s.books.workers, c);
      assert g in p.status <==> g in LifecycleInvariants.ListedAt(s.books.workers, p);
    }
  }

  /**
    Restart read the file of snapshot i before it sent its signal, and its poll loop ended with success in a turn
    in which the file was that of snapshot j.
   */
  ghost predicate Succeeded(s: Lifecycle.State, i: int, j: int, before: string, polls: seq<Poll>, turn: nat) {
    && i <= j && Shows(s, i, before)
    && turn < |polls| && Meets(polls[turn], s, j)
    && Ends(Some(before), polls, Restarted(turn))
  }

  /**
    Restart tells the truth: if it reports success after reading the file of snapshot i first and that of
    snapshot j in the turn that ended it, then every worker listed at first has ended and its exit was
    received, and the last file lists a worker newer than all of them.
   */
  lemma RestartTellsTheTruth(
    auto: bool, checked: bool, schedule: seq<Lifecycle.Action>, i: int, j: int,
    before: string, polls: seq<Poll>, turn: nat)
    ensures var s := Lifecycle.After(auto, checked, schedule);
            |schedule| <= MAX_INT && Succeeded(s, i, j, before, polls, turn) ==>
              var first, last := s.snapshots[i].status, s.snapshots[j].status;
              && first.Keys <= s.books.consumed <= s.books.exited
              && exists g :: g in last && forall h | h in first :: h < g
  {
    var s := Lifecycle.After(auto, checked, schedule);
    if |schedule| <= MAX_INT && Succeeded(s, i, j, before, polls, turn) {
      LifecycleInvariants.Reachable(auto, checked, schedule);
      ShownReadsBack(auto, checked, schedule, i, before);
      ShownReadsBack(auto, checked, schedule, j, polls[turn].contents.value);
      SnapshotsTell(s, i, j);
    }
  }

  // The answer to a request

  /** The supervisor is about to write its status with no request outstanding and no old worker left. */
  predicate AtRest(s: Lifecycle.State) {
    s.phase.Publishing? && !s.hangup && !s.pending && |s.books.oldWorkers| == 0
  }

  /** A worker that no file before the request lists is then the only one. */
  lemma RestIsNewer(s: Lifecycle.State, n: nat)
    requires LifecycleInvariants.Inv(s) && AtRest(s) && LifecycleRequests.Kept(s, n) && n <= |s.snapshots|
    ensures s.books.current.Some? && LifecycleRequests.Newer(s.snapshots, n, s.books.generation)
    ensures Lifecycle.SnapshotOf(s.books, s.books.current).status.Keys == {s.books.generation}
  {
    assert LifecycleInvariants.Shape(s);
    assert s.books.oldWorkers == map[];
  }

  /**
    Every request is answered: let Restart read the file of snapshot i and then have its signal turned into a call to
    Hangup, however the request is buffered, held back or folded into other restarts.  The status file the supervisor
    writes when it next comes to rest makes both conditions of Restart true.
   */
  lemma RequestAnswered(
    auto: bool, checked: bool, before: seq<Lifecycle.Action>, after: seq<Lifecycle.Action>, i: int)
    ensures var s := Lifecycle.After(auto, checked, before);
            var u := Lifecycle.After(auto, checked, before + [Lifecycle.CallHangup] + after);
            0 <= i < |s.snapshots| && AtRest(u) ==>
              var written := Lifecycle.Next(u, Lifecycle.Publish(true)).snapshots;
              && |written| == |u.snapshots| + 1 && s.snapshots <= written
              && GenerationAdvanced(s.snapshots[i].status, written[|u.snapshots|].status)
              && OldWorkersGone(s.snapshots[i].status, written[|u.snapshots|].status)
  {
    hide LifecycleInvariants.Inv, LifecycleRequests.Kept;
    var s := Lifecycle.After(auto, checked, before);
    var u := Lifecycle.After(auto, checked, before + [Lifecycle.CallHangup] + after);
    if 0 <= i < |s.snapshots| && AtRest(u) {
      LifecycleRequests.RequestKept(auto, checked, before, after);
      LifecycleInvariants.Reachable(auto, checked, before + [Lifecycle.CallHangup] + after);
      RestIsNewer(u, |s.snapshots|);
      ListedBefore(u, i);
      WrittenNext(u);
      assert s.snapshots[i] == u.snapshots[i];
      assert u.books.generation !in s.snapshots[i].status;
    }
  }

  lemma WrittenNext(s: Lifecycle.State)
    requires s.phase.Publishing?
    ensures Lifecycle.Next(s, Lifecycle.Publish(true)).snapshots
            == s.snapshots + [Lifecycle.SnapshotOf(s.books, s.books.current)]
  {
  }

  /** A status file lists no generation above the counter it was written at, and no pid that is zero. */
  lemma ListedBefore(s: Lifecycle.State, i: int)
    requires LifecycleInvariants.Inv(s) && 0 <= i < |s.snapshots|
    ensures forall g | g in s.snapshots[i].status :: g <= s.snapshots[i].generation && s.snapshots[i].status[g] > 0
  {
    assert LifecycleInvariants.Faithful(s.books.workers, s.snapshots[i]);
  }

  /** And so Restart, if it gets to read that file, has reported success in that turn at the latest. */
  lemma RestartSucceeds(
    auto: bool, checked: bool, before: seq<Lifecycle.Action>, after: seq<Lifecycle.Action>, i: int,
    data: string, polls: seq<Poll>, turn: nat, r: Outcome)
    requires Ends(Some(data), polls, r) && turn < |polls|
    requires forall j | 0 <= j <= turn :: Reads(polls[j])
    ensures var schedule := before + [Lifecycle.CallHangup] + after;
            var s, u := Lifecycle.After(auto, checked, before), Lifecycle.After(auto, checked, schedule);
            var t := Lifecycle.Next(u, Lifecycle.Publish(true));
            && |schedule| < MAX_INT && Shows(s, i, data) && AtRest(u)
            && Meets(polls[turn], t, |u.snapshots|) ==>
              r.Restarted? && r.turn <= turn
  {
    hide Shows, AtRest, StatusOf, GenerationAdvanced, OldWorkersGone, Ends;
    var schedule := before + [Lifecycle.CallHangup] + after;
    var s, u := Lifecycle.After(auto, checked, before), Lifecycle.After(auto, checked, schedule);
    var longer := schedule + [Lifecycle.Publish(true)];
    var t := Lifecycle.After(auto, checked, longer);
    LifecycleTheorems.RunSnoc(Lifecycle.Init(auto, checked), schedule, Lifecycle.Publish(true));
    if && |schedule| < MAX_INT && Shows(s, i, data) && AtRest(u)
       && Meets(polls[turn], t, |u.snapshots|) {
      ShownIndex(s, i, data);
      RequestAnswered(auto, checked, before, after, i);
      ShownReadsBack(auto, checked, before, i, data);
      ShownReadsBack(auto, checked, longer, |u.snapshots|, polls[turn].contents.value);
      SucceedsBy(Some(data), polls, turn, r);
    }
  }

  lemma ShownIndex(s: Lifecycle.State, k: int, data: string)
    requires Shows(s, k, data)
    ensures 0 <= k < |s.snapshots|
  {
  }
}
