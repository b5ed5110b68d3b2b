/** The descriptor table startWorker builds for one spawn attempt (internal/supervisor/worker.go). */
module FileTable {
  import opened Basics
  import opened Descriptors

  /** Every file opened so far, in order, with the number of times it was closed. */
  class Ledger {
    var closed: seq<nat>

    constructor ()
      ensures closed == []
    {
      closed := [];
    }

    method Open() returns (f: int)
      modifies this
      ensures f == |old(closed)| && closed == old(closed) + [0]
    {
      f := |closed|;
      closed := closed + [0];
    }

    method Close(f: int)
      requires 0 <= f < |closed|
      modifies this
      ensures closed == old(closed)[f := old(closed)[f] + 1]
    {
      closed := closed[f := closed[f] + 1];
    }
  }

  /** From file `base` on, a file in the table has not been closed and a file that left it was closed once. */
  ghost predicate Accounted(files: seq<Option<int>>, closed: seq<nat>, base: nat) {
    && base <= |closed|
    && (forall k | 0 <= k < |files| && files[k].Some? :: base <= files[k].value < |closed|)
    && (forall j, k | 0 <= j < k < |files| && files[j].Some? :: files[j] != files[k])
    && (forall f | base <= f < |closed| :: closed[f] == if Some(f) in files then 0 else 1)
  }

  /** closeWorkerFiles. */
  method CloseWorkerFiles(ledger: Ledger, files: array<Option<int>>, ghost base: nat)
    requires Accounted(files[..], ledger.closed, base)
    modifies ledger, files
    ensures |ledger.closed| == |old(ledger.closed)| && ledger.closed[..base] == old(ledger.closed[..base])
    ensures forall f | base <= f < |ledger.closed| :: ledger.closed[f] == 1
    ensures forall k | 0 <= k < files.Length :: files[k].None?
  {
    for i := 0 to files.Length
      invariant |ledger.closed| == |old(ledger.closed)| && ledger.closed[..base] == old(ledger.closed[..base])
      invariant Accounted(files[..], ledger.closed, base)
      invariant forall k | 0 <= k < i :: files[k].None?
    {
      if files[i].Some? {
        ghost var before := files[..];
        ledger.Close(files[i].value);
        files[i] := None;
        Removed(before, files[..], i);
      }
    }
  }

  lemma Removed(before: seq<Option<int>>, after: seq<Option<int>>, i: nat)
    requires i < |before| && before[i].Some? && after == before[i := None]
    requires forall j, k | 0 <= j < k < |before| && before[j].Some? :: before[j] != before[k]
    ensures forall f :: Some(f) in after <==> Some(f) in before && f != before[i].value
  {
    forall f
      ensures Some(f) in after <==> Some(f) in before && f != before[i].value
    {
      if Some(f) in after {
        var k :| 0 <= k < |after| && after[k] == Some(f);
        assert before[k] == Some(f);
      }
      if Some(f) in before && f != before[i].value {
        var k :| 0 <= k < |before| && before[k] == Some(f);
        assert after[k] == Some(f);
      }
    }
  }

  lemma Replaced(before: seq<Option<int>>, after: seq<Option<int>>, i: nat, g: int)
    requires i < |before| && before[i].Some? && after == before[i := Some(g)] && Some(g) !in before
    requires forall j, k | 0 <= j < k < |before| && before[j].Some? :: before[j] != before[k]
    ensures forall f :: Some(f) in after <==> f == g || (Some(f) in before && f != before[i].value)
  {
    assert after[i] == Some(g);
    Removed(before, before[i := None], i);
    forall f
      ensures Some(f) in after <==> f == g || Some(f) in before[i := None]
    {
      if Some(f) in after {
        var k :| 0 <= k < |after| && after[k] == Some(f);
        assert k != i ==> before[i := None][k] == Some(f);
      }
      if Some(f) in before[i := None] {
        var k :| 0 <= k < |before| && before[i := None][k] == Some(f);
        assert after[k] == Some(f);
      }
    }
  }

  /** The first `i` listeners are in their slots, and every other slot still has its padding. */
  ghost predicate Placed(files: seq<Option<int>>, descriptors: seq<int>, base: nat, i: nat)
    requires i <= |descriptors|
  {
    && (forall k | 0 <= k < |descriptors| :: 0 <= descriptors[k] - 3 < |files|)
    && (forall k | 0 <= k < i :: files[descriptors[k] - 3] == Some(base + |files| + k))
    && (forall k | 0 <= k < |files| && k + 3 !in descriptors[..i] :: files[k] == Some(base + k))
  }

  /** What the child process must find: listener i's duplicate at its own descriptor, padding everywhere else. */
  ghost predicate HandsOver(table: seq<Option<int>>, descriptors: seq<int>, base: nat) {
    |table| == MaxFD(descriptors) - 2 && Placed(table, descriptors, base, |descriptors|)
  }

  /** Opening the padding; `failAt` is the slot whose open fails, if it is one. */
  method OpenPadding(ledger: Ledger, files: array<Option<int>>, failAt: int) returns (ok: bool)
    requires forall k | 0 <= k < files.Length :: files[k].None?
    modifies ledger, files
    ensures |ledger.closed| >= |old(ledger.closed)| && ledger.closed[..|old(ledger.closed)|] == old(ledger.closed)
    ensures Accounted(files[..], ledger.closed, |old(ledger.closed)|)
    ensures ok <==> !(0 <= failAt < files.Length)
    ensures ok ==> |ledger.closed| == |old(ledger.closed)| + files.Length
    ensures ok ==> forall k | 0 <= k < files.Length :: files[k] == Some(|old(ledger.closed)| + k)
  {
    ghost var base := |ledger.closed|;
    for slot := 0 to files.Length
      invariant |ledger.closed| == base + slot && ledger.closed[..base] == old(ledger.closed)
      invariant forall k | 0 <= k < files.Length :: files[k] == if k < slot then Some(base + k) else None
      invariant forall f | base <= f < |ledger.closed| :: ledger.closed[f] == 0
      invariant !(0 <= failAt < slot)
    {
      if slot == failAt {
        ListedPadding(files[..], base, slot);
        return false;
      }
      var f := ledger.Open();
      files[slot] := Some(f);
    }
    ListedPadding(files[..], base, files.Length);
    return true;
  }

  lemma ListedPadding(files: seq<Option<int>>, base: nat, slots: nat)
    requires slots <= |files| && forall k | 0 <= k < |files| :: files[k] == if k < slots then Some(base + k) else None
    ensures forall f | base <= f < base + slots :: Some(f) in files
  {
    forall f | base <= f < base + slots
      ensures Some(f) in files
    {
      assert files[f - base] == Some(f);
    }
  }

  lemma PlacedRange(files: seq<Option<int>>, descriptors: seq<int>, base: nat, i: nat)
    requires i <= |descriptors| && Placed(files, descriptors, base, i)
    ensures forall k | 0 <= k < |descriptors| :: 0 <= descriptors[k] - 3 < |files|
  {
  }

  lemma PlacedStart(files: seq<Option<int>>, descriptors: seq<int>, base: nat)
    requires |files| == MaxFD(descriptors) - 2 && forall k | 0 <= k < |descriptors| :: descriptors[k] >= 3
    requires forall k | 0 <= k < |files| :: files[k] == Some(base + k)
    ensures Placed(files, descriptors, base, 0)
  {
  }

  lemma PlacedNext(before: seq<Option<int>>, descriptors: seq<int>, base: nat, i: nat)
    requires i < |descriptors| && Placed(before, descriptors, base, i)
    requires forall j, k | 0 <= j < k < |descriptors| :: descriptors[j] != descriptors[k]
    ensures before[descriptors[i] - 3] == Some(base + descriptors[i] - 3)
    ensures Placed(before[descriptors[i] - 3 := Some(base + |before| + i)], descriptors, base, i + 1)
  {
    assert descriptors[..i + 1] == descriptors[..i] + [descriptors[i]];
    assert descriptors[i] !in descriptors[..i];
  }

  lemma AccountedNext(before: seq<Option<int>>, closed: seq<nat>, base: nat, slot: nat, f: int)
    requires Accounted(before, closed, base) && slot < |before| && before[slot].Some?
    requires f == |closed|
    ensures var out := before[slot].value;
            Accounted(before[slot := Some(f)], (closed + [0])[out := closed[out] + 1], base)
  {
    Replaced(before, before[slot := Some(f)], slot, f);
  }

  /** Placing the listeners' duplicates; `failAt` is the listener that cannot be duplicated, if it is one. */
  method PlaceListeners(ledger: Ledger, files: array<Option<int>>, descriptors: seq<int>, failAt: int, ghost base: nat)
    returns (ok: bool)
    requires |ledger.closed| == base + files.Length && Accounted(files[..], ledger.closed, base)
    requires Placed(files[..], descriptors, base, 0)
    requires forall i, j | 0 <= i < j < |descriptors| :: descriptors[i] != descriptors[j]
    modifies ledger, files
    ensures |ledger.closed| >= base && ledger.closed[..base] == old(ledger.closed[..base])
    ensures Accounted(files[..], ledger.closed, base)
    ensures ok <==> !(0 <= failAt < |descriptors|)
    ensures ok ==> Placed(files[..], descriptors, base, |descriptors|)
  {
    hide Accounted, Placed;
    PlacedRange(files[..], descriptors, base, 0);
    for i := 0 to |descriptors|
      invariant |ledger.closed| == base + files.Length + i && ledger.closed[..base] == old(ledger.closed[..base])
      invariant Accounted(files[..], ledger.closed, base)
      invariant Placed(files[..], descriptors, base, i)
      invariant !(0 <= failAt < i)
    {
      if i == failAt {
        return false;
      }
      ghost var before, closed := files[..], ledger.closed;
      PlacedNext(before, descriptors, base, i);
      var f := ledger.Open();
      var slot := descriptors[i] - 3;
      AccountedNext(before, closed, base, slot, f);
      ledger.Close(files[slot].value);
      files[slot] := Some(f);
      assert files[..] == before[slot := Some(f)];
    }
    return true;
  }

  /** Every file in the table is open. */
  ghost predicate AllOpen(files: seq<Option<int>>, closed: seq<nat>) {
    forall k | 0 <= k < |files| && files[k].Some? :: 0 <= files[k].value < |closed| && closed[files[k].value] == 0
  }

  lemma AccountedOpen(files: seq<Option<int>>, closed: seq<nat>, base: nat)
    requires Accounted(files, closed, base)
    ensures AllOpen(files, closed)
  {
    forall k | 0 <= k < |files| && files[k].Some?
      ensures closed[files[k].value] == 0
    {
      assert Some(files[k].value) in files;
    }
  }

  /**
    The files of one spawn attempt, up to and including cmd.Start: `failSlot` and `failListener` say where an
    open fails, `formatOk` whether the wire format could be printed.  When the launch is reached, `table` is
    what it is given, and all of it is open then; `atLaunch` is what was closed by that time.  On every way out each
    file of the attempt has been closed exactly once.
   */
  method Attempt(ledger: Ledger, descriptors: seq<int>, failSlot: int, failListener: int, formatOk: bool)
    returns (ghost table: Option<seq<Option<int>>>, ghost atLaunch: seq<nat>, launched: bool)
    requires forall k | 0 <= k < |descriptors| :: descriptors[k] >= 3
    requires forall i, j | 0 <= i < j < |descriptors| :: descriptors[i] != descriptors[j]
    modifies ledger
    ensures var base := |old(ledger.closed)|;
            && |ledger.closed| >= base && ledger.closed[..base] == old(ledger.closed)
            && (forall f | base <= f < |ledger.closed| :: ledger.closed[f] == 1)
    ensures launched <==> !(0 <= failSlot < MaxFD(descriptors) - 2) && !(0 <= failListener < |descriptors|) && formatOk
    ensures launched ==> table.Some? && HandsOver(table.value, descriptors, |old(ledger.closed)|)
    ensures launched ==> AllOpen(table.value, atLaunch)
  {
    hide Accounted, Placed;
    ghost var base := |ledger.closed|;
    table, atLaunch, launched := None, [], false;
    var files := new Option<int>[MaxFD(descriptors) - 2](_ => None);
    var ok := OpenPadding(ledger, files, failSlot);
    if ok {
      PlacedStart(files[..], descriptors, base);
      ok := PlaceListeners(ledger, files, descriptors, failListener, base);
    }
    if ok && formatOk {
      AccountedOpen(files[..], ledger.closed, base);
      table, atLaunch, launched := Some(files[..]), ledger.closed, true;
    }
    CloseWorkerFiles(ledger, files, base);
  }
}
