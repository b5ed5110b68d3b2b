/** Which inherited descriptor each listener gets (internal/supervisor/portspec.go). */
module Descriptors {
  import opened Basics

  const MAX_INHERITED_LISTENER_FD := 1024
  const MAX_SPARSE_LISTENER_FD_SLOTS := 256
  const AUTOMATIC := -1

  predicate ValidExplicit(fd: int) {
    3 <= fd <= MAX_INHERITED_LISTENER_FD
  }

  /** The descriptors asked for by number. */
  function Explicit(requested: seq<int>): set<int> {
    set k | 0 <= k < |requested| && requested[k] != AUTOMATIC :: requested[k]
  }

  /** The largest descriptor asked for by number; 2 when there is none. */
  function MaxExplicit(requested: seq<int>): (m: int)
    ensures m >= 2
    ensures forall fd | fd in Explicit(requested) :: fd <= m
    ensures m == 2 || m in Explicit(requested)
  {
    if requested == [] then 2
    else
      var n := |requested| - 1;
      var m := MaxExplicit(requested[..n]);
      assert forall fd | fd in Explicit(requested) :: fd == requested[n] || fd in Explicit(requested[..n]);
      if requested[n] != AUTOMATIC && requested[n] > m then requested[n] else m
  }

  ghost predicate DistinctExplicit(requested: seq<int>) {
    forall i, j | 0 <= i < j < |requested| && requested[i] != AUTOMATIC :: requested[i] != requested[j]
  }

  /** The requests that can be met. */
  ghost predicate Acceptable(requested: seq<int>) {
    && ValidUpTo(requested, |requested|)
    && DistinctExplicit(requested)
    && MaxExplicit(requested) - 2 - |requested| <= MAX_SPARSE_LISTENER_FD_SLOTS
  }

  /** What is taken when the automatic entry i is filled: every explicit request and the automatic ones before. */
  ghost function Taken(requested: seq<int>, d: seq<int>, i: nat): set<int>
    requires i <= |requested| && i <= |d|
  {
    Explicit(requested) + set k | 0 <= k < i && requested[k] == AUTOMATIC :: d[k]
  }

  /** Explicit requests are kept, and each automatic entry is the least descriptor from 3 up that is not taken. */
  ghost predicate FirstFit(requested: seq<int>, d: seq<int>) {
    && |d| == |requested|
    && (forall k | 0 <= k < |d| && requested[k] != AUTOMATIC :: d[k] == requested[k])
    && (forall k | 0 <= k < |d| && requested[k] == AUTOMATIC ::
          && d[k] >= 3 && d[k] !in Taken(requested, d, k)
          && forall fd | 3 <= fd < d[k] :: fd in Taken(requested, d, k))
  }

  /** The first `i` automatic entries are filled, first fit. */
  ghost predicate FilledUpTo(requested: seq<int>, d: seq<int>, i: nat)
    requires i <= |requested| == |d|
  {
    && (forall k | 0 <= k < |d| && requested[k] != AUTOMATIC :: d[k] == requested[k])
    && (forall k | i <= k < |d| && requested[k] == AUTOMATIC :: d[k] == 0)
    && (forall k | 0 <= k < i && requested[k] == AUTOMATIC ::
          && d[k] >= 3 && d[k] !in Taken(requested, d, k)
          && forall fd | 3 <= fd < d[k] :: fd in Taken(requested, d, k))
  }

  /** Every explicit request among the first i is in range. */
  ghost predicate ValidUpTo(requested: seq<int>, i: nat)
    requires i <= |requested|
  {
    forall k | 0 <= k < i && requested[k] != AUTOMATIC :: ValidExplicit(requested[k])
  }

  /** The explicit requests among the first i are entered, and nothing else. */
  ghost predicate EnteredUpTo(requested: seq<int>, d: seq<int>, i: nat)
    requires i <= |requested| == |d|
  {
    forall k | 0 <= k < |d| :: d[k] == if k < i && requested[k] != AUTOMATIC then requested[k] else 0
  }

  /** What one more request adds. */
  lemma EnterNext(requested: seq<int>, i: nat)
    requires i < |requested|
    ensures var fd, before, after := requested[i], requested[..i], requested[..i + 1];
            && Explicit(after) == (if fd == AUTOMATIC then Explicit(before) else Explicit(before) + {fd})
            && MaxExplicit(after) == (if fd != AUTOMATIC && fd > MaxExplicit(before) then fd else MaxExplicit(before))
            && (DistinctExplicit(after) <==> DistinctExplicit(before) && (fd == AUTOMATIC || fd !in Explicit(before)))
  {
    var fd, before, after := requested[i], requested[..i], requested[..i + 1];
    assert after == before + [fd] && after[..i] == before;
    ExplicitSnoc(before, fd);
    DistinctSnoc(before, fd);
  }

  lemma DistinctSnoc(requested: seq<int>, fd: int)
    ensures DistinctExplicit(requested + [fd]) <==>
              DistinctExplicit(requested) && (fd == AUTOMATIC || fd !in Explicit(requested))
  {
    var n, after := |requested|, requested + [fd];
    if DistinctExplicit(after) {
      forall i, j | 0 <= i < j < n && requested[i] != AUTOMATIC
        ensures requested[i] != requested[j]
      {
        assert after[i] == requested[i] && after[j] == requested[j];
      }
      forall i | 0 <= i < n && requested[i] != AUTOMATIC
        ensures requested[i] != fd
      {
        assert after[i] == requested[i] && after[n] == fd;
      }
    }
  }

  lemma DistinctPrefix(requested: seq<int>, i: nat)
    requires i <= |requested| && DistinctExplicit(requested)
    ensures DistinctExplicit(requested[..i])
  {
  }

  /** The first loop of assignListenerDescriptors: validate and enter the explicit requests. */
  method EnterExplicit(requested: seq<int>, descriptors: array<int>) returns (ok: bool, used: set<int>, maxFD: int)
    requires descriptors.Length == |requested| && EnteredUpTo(requested, descriptors[..], 0)
    modifies descriptors
    ensures ok <==> DistinctExplicit(requested) && ValidUpTo(requested, |requested|)
    ensures ok ==> used == Explicit(requested) && maxFD == MaxExplicit(requested)
    ensures ok ==> FilledUpTo(requested, descriptors[..], 0)
  {
    hide Explicit, MaxExplicit, DistinctExplicit;
    var n := |requested|;
    used, maxFD := {}, 2;
    NothingEntered(requested);
    for i := 0 to n
      invariant used == Explicit(requested[..i]) && maxFD == MaxExplicit(requested[..i])
      invariant ValidUpTo(requested, i) && DistinctExplicit(requested[..i])
      invariant EnteredUpTo(requested, descriptors[..], i)
    {
      var fd := requested[i];
      EnterNext(requested, i);
      if fd != AUTOMATIC {
        if !ValidExplicit(fd) {
          return false, used, maxFD;
        }
        if fd in used {
          if DistinctExplicit(requested) {
            DistinctPrefix(requested, i + 1);
          }
          return false, used, maxFD;
        }
        descriptors[i] := fd;
        used := used + {fd};
        if fd > maxFD {
          maxFD := fd;
        }
      }
    }
    assert requested[..n] == requested;
    return true, used, maxFD;
  }

  lemma NothingEntered(requested: seq<int>)
    ensures Explicit(requested[..0]) == {} && MaxExplicit(requested[..0]) == 2 && DistinctExplicit(requested[..0])
  {
  }

  /** The search for the next free descriptor; it ends because only finitely many are used. */
  method NextFree(used: set<int>, start: int) returns (next: int)
    ensures next >= start && next !in used && forall fd | start <= fd < next :: fd in used
  {
    next := start;
    ghost var ahead := used;
    while next in used
      invariant next >= start && forall fd | start <= fd < next :: fd in used
      invariant forall fd | fd in used && fd >= next :: fd in ahead
      decreases ahead
    {
      ahead := ahead - {next};
      next := next + 1;
    }
  }

  /** The second loop: fill the automatic entries from descriptor 3 upward. */
  method FillAutomatic(requested: seq<int>, descriptors: array<int>, explicit: set<int>)
    requires descriptors.Length == |requested| && FilledUpTo(requested, descriptors[..], 0)
    requires explicit == Explicit(requested) && 0 !in explicit
    modifies descriptors
    ensures FirstFit(requested, descriptors[..])
  {
    var used := explicit;
    var nextFD := 3;
    for i := 0 to |requested|
      invariant nextFD >= 3 && used == Taken(requested, descriptors[..], i)
      invariant forall fd | 3 <= fd < nextFD :: fd in used
      invariant FilledUpTo(requested, descriptors[..], i)
    {
      ghost var before := descriptors[..];
      if descriptors[i] == 0 {
        nextFD := NextFree(used, nextFD);
        descriptors[i] := nextFD;
        used := used + {nextFD};
        nextFD := nextFD + 1;
        FilledNext(requested, before, descriptors[..], i);
      }
      TakenSnoc(requested, descriptors[..], i);
    }
  }

  lemma FilledNext(requested: seq<int>, before: seq<int>, after: seq<int>, i: nat)
    requires i < |requested| == |before| == |after| && FilledUpTo(requested, before, i)
    requires after == before[i := after[i]] && requested[i] == AUTOMATIC
    requires after[i] >= 3 && after[i] !in Taken(requested, before, i)
    requires forall fd | 3 <= fd < after[i] :: fd in Taken(requested, before, i)
    ensures FilledUpTo(requested, after, i + 1) && Taken(requested, after, i) == Taken(requested, before, i)
  {
    forall k | 0 <= k <= i
      ensures Taken(requested, after, k) == Taken(requested, before, k)
    {
      TakenFrame(requested, before, after, k);
    }
  }

  /** assignListenerDescriptors: it succeeds exactly on the acceptable requests, and then assigns first fit. */
  method Assign(requested: seq<int>) returns (r: Option<seq<int>>)
    ensures r.Some? <==> Acceptable(requested)
    ensures r.Some? ==> FirstFit(requested, r.value)
  {
    var descriptors := new int[|requested|](_ => 0);
    var ok, used, maxFD := EnterExplicit(requested, descriptors);
    if !ok || maxFD - 2 - |requested| > MAX_SPARSE_LISTENER_FD_SLOTS {
      return None;
    }
    FillAutomatic(requested, descriptors, used);
    return Some(descriptors[..]);
  }

  lemma ExplicitSnoc(requested: seq<int>, fd: int)
    ensures Explicit(requested + [fd]) == if fd == AUTOMATIC then Explicit(requested) else Explicit(requested) + {fd}
  {
    var s := requested + [fd];
    assert s[|requested|] == fd;
    forall x | x in Explicit(requested)
      ensures x in Explicit(s)
    {
      var k :| 0 <= k < |requested| && requested[k] != AUTOMATIC && requested[k] == x;
      assert s[k] == x;
    }
  }

  lemma TakenFrame(requested: seq<int>, d: seq<int>, e: seq<int>, i: nat)
    requires i <= |requested| && |d| == |e| == |requested| && d[..i] == e[..i]
    ensures Taken(requested, d, i) == Taken(requested, e, i)
  {
    assert forall k | 0 <= k < i :: d[k] == d[..i][k] == e[..i][k] == e[k];
  }

  lemma TakenSnoc(requested: seq<int>, d: seq<int>, i: nat)
    requires i < |requested| == |d|
    ensures Taken(requested, d, i + 1) == Taken(requested, d, i) + if requested[i] == AUTOMATIC then {d[i]} else {}
  {
  }

  // What first fit means for the layout

  /** All descriptors in a layout. */
  ghost function All(d: seq<int>): set<int> {
    set k | 0 <= k < |d| :: d[k]
  }

  /** First fit leaves no choice: a request has one layout. */
  lemma FirstFitUnique(requested: seq<int>, d: seq<int>, e: seq<int>)
    requires FirstFit(requested, d) && FirstFit(requested, e)
    ensures d == e
  {
    FirstFitSame(requested, d, e, |requested|);
    assert d[..|d|] == d && e[..|e|] == e;
  }

  lemma {:induction false} FirstFitSame(requested: seq<int>, d: seq<int>, e: seq<int>, i: nat)
    requires FirstFit(requested, d) && FirstFit(requested, e) && i <= |requested|
    ensures d[..i] == e[..i]
  {
    if i > 0 {
      var k := i - 1;
      FirstFitSame(requested, d, e, k);
      TakenFrame(requested, d, e, k);
      if requested[k] == AUTOMATIC {
        LeastFree(Taken(requested, d, k), d[k], e[k]);
      }
      assert d[..i] == d[..k] + [d[k]] && e[..i] == e[..k] + [e[k]];
    }
  }

  lemma LeastFree(taken: set<int>, x: int, y: int)
    requires x >= 3 && x !in taken && forall fd | 3 <= fd < x :: fd in taken
    requires y >= 3 && y !in taken && forall fd | 3 <= fd < y :: fd in taken
    ensures x == y
  {
  }

  lemma FirstFitLength(requested: seq<int>, d: seq<int>)
    requires FirstFit(requested, d)
    ensures |d| == |requested|
  {
  }

  lemma FirstFitDistinct(requested: seq<int>, d: seq<int>)
    requires Acceptable(requested) && FirstFit(requested, d)
    ensures forall k | 0 <= k < |d| :: d[k] >= 3
    ensures forall i, j | 0 <= i < j < |d| :: d[i] != d[j]
  {
    forall i, j | 0 <= i < j < |d|
      ensures d[i] != d[j]
    {
      if requested[j] == AUTOMATIC {
        assert d[i] in Taken(requested, d, j);
      } else if requested[i] == AUTOMATIC {
        assert d[j] in Taken(requested, d, i);
      }
    }
  }

  lemma {:induction false} AllCount(d: seq<int>)
    requires forall i, j | 0 <= i < j < |d| :: d[i] != d[j]
    ensures |All(d)| == |d|
  {
    if d != [] {
      var n := |d| - 1;
      AllCount(d[..n]);
      assert All(d) == All(d[..n]) + {d[n]};
    }
  }

  /** The numbers from lo to hi. */
  ghost function Range(lo: int, hi: int): (r: set<int>)
    ensures forall x :: x in r <==> lo <= x <= hi
    decreases hi - lo
  {
    if lo > hi then {} else Range(lo, hi - 1) + {hi}
  }

  lemma {:induction false} RangeCount(lo: int, hi: int)
    requires lo <= hi + 1
    ensures |Range(lo, hi)| == hi - lo + 1
    decreases hi - lo
  {
    if lo <= hi {
      RangeCount(lo, hi - 1);
    }
  }

  /** The largest descriptor of a layout; 2 when it is empty. */
  function MaxFD(d: seq<int>): (m: int)
    ensures m >= 2 && forall k | 0 <= k < |d| :: d[k] <= m
    ensures m == 2 || m in d
  {
    if d == [] then 2
    else
      var m := MaxFD(d[..|d| - 1]);
      if d[|d| - 1] > m then d[|d| - 1] else m
  }

  /** The slots a worker's table must fill with padding. */
  ghost function Padding(d: seq<int>): set<int> {
    Range(3, MaxFD(d)) - All(d)
  }

  /** If an automatic descriptor lies above every explicit one, the layout has no gap. */
  lemma NoGapAbove(requested: seq<int>, d: seq<int>)
    requires Acceptable(requested) && FirstFit(requested, d) && MaxFD(d) > MaxExplicit(requested)
    ensures Range(3, MaxFD(d)) == All(d)
  {
    FirstFitDistinct(requested, d);
    forall j | 0 <= j < |d| && requested[j] != AUTOMATIC
      ensures d[j] <= MaxExplicit(requested)
    {
      assert requested[j] in Explicit(requested);
    }
    var k :| 0 <= k < |d| && d[k] == MaxFD(d);
    forall fd | 3 <= fd < MaxFD(d)
      ensures fd in All(d)
    {
      assert fd in Taken(requested, d, k);
      if fd in Explicit(requested) {
        var j :| 0 <= j < |requested| && requested[j] != AUTOMATIC && requested[j] == fd;
        assert d[j] == fd;
      }
    }
  }

  /**
    The padding check made before anything is filled is exact: the number of unfilled slots in the final
    layout is what it computed, or zero when that was negative, and never more than the limit.
   */
  lemma PaddingExact(requested: seq<int>, d: seq<int>)
    requires Acceptable(requested) && FirstFit(requested, d)
    ensures var p := MaxExplicit(requested) - 2 - |requested|;
            |Padding(d)| == (if p > 0 then p else 0) <= MAX_SPARSE_LISTENER_FD_SLOTS
  {
    FirstFitDistinct(requested, d);
    AllCount(d);
    RangeCount(3, MaxFD(d));
    assert All(d) <= Range(3, MaxFD(d));
    assert |Padding(d)| == |Range(3, MaxFD(d))| - |All(d)|;
    if MaxFD(d) > MaxExplicit(requested) {
      NoGapAbove(requested, d);
    } else {
      ExplicitReached(requested, d);
    }
  }

  lemma ExplicitReached(requested: seq<int>, d: seq<int>)
    requires FirstFit(requested, d)
    ensures MaxFD(d) >= MaxExplicit(requested)
  {
    if MaxExplicit(requested) > 2 {
      var j :| 0 <= j < |requested| && requested[j] != AUTOMATIC && requested[j] == MaxExplicit(requested);
      assert d[j] == MaxExplicit(requested);
    }
  }
}
