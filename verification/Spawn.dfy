/**
  From the listeners a run binds to the environment its workers read (internal/supervisor/supervisor.go `run`,
  portspec.go `starterListener` and `validateListenerWireFormat`, worker.go `startWorker`).
 */
module Spawn {
  import opened Basics
  import opened Text
  import opened Decimal
  import opened Wire
  import WireProofs
  import WireLoops
  import Descriptors

  /** A parsed --port argument: an empty host is the wildcard. */
  datatype PortTarget = PortTarget(udp: bool, host: string, port: int)

  predicate FitsFd(descriptors: seq<int>) {
    forall k | 0 <= k < |descriptors| :: 0 <= descriptors[k] <= MAX_UINT64
  }

  /** starterListener for a network target. */
  function TargetListener(t: PortTarget, fd: Fd): Listener {
    if t.udp then NewUDP(t.host, t.port, fd) else NewTCP(t.host, t.port, fd)
  }

  function TargetListeners(targets: seq<PortTarget>, descriptors: seq<int>): seq<Listener>
    requires |targets| <= |descriptors| && FitsFd(descriptors)
  {
    seq(|targets|, i requires 0 <= i < |targets| => TargetListener(targets[i], descriptors[i]))
  }

  /** Every path, empty or not. */
  function PathListeners(paths: seq<string>, descriptors: seq<int>): seq<Listener>
    requires |paths| == |descriptors| && FitsFd(descriptors)
  {
    seq(|paths|, i requires 0 <= i < |paths| => NewUnix(paths[i], descriptors[i]))
  }

  /** The paths that are known already; an empty one is bound to an address the kernel picks. */
  function KnownPathListeners(paths: seq<string>, descriptors: seq<int>): seq<Listener>
    requires |paths| == |descriptors| && FitsFd(descriptors)
  {
    if paths == [] then []
    else
      var n := |paths| - 1;
      KnownPathListeners(paths[..n], descriptors[..n])
      + (if paths[n] == [] then [] else [NewUnix(paths[n], descriptors[n])])
  }

  /** What validateListenerWireFormat formats. */
  function Validated(targets: seq<PortTarget>, paths: seq<string>, descriptors: seq<int>): seq<Listener>
    requires |descriptors| == |targets| + |paths| && FitsFd(descriptors)
  {
    TargetListeners(targets, descriptors) + KnownPathListeners(paths, descriptors[|targets|..])
  }

  /** validateListenerWireFormat. */
  method ValidateListenerWireFormat(targets: seq<PortTarget>, paths: seq<string>, descriptors: seq<int>)
    returns (ok: bool)
    requires |descriptors| == |targets| + |paths| && FitsFd(descriptors)
    ensures ok == FormatPorts(Validated(targets, paths, descriptors)).Some?
  {
    hide FormatPorts, NewUnix, TargetListener;
    var listeners := [];
    for i := 0 to |targets|
      invariant listeners == TargetListeners(targets, descriptors)[..i]
    {
      listeners := listeners + [TargetListener(targets[i], descriptors[i])];
    }
    var tail := descriptors[|targets|..];
    for i := 0 to |paths|
      invariant listeners == TargetListeners(targets, descriptors) + KnownPathListeners(paths[..i], tail[..i])
    {
      assert paths[..i + 1][..i] == paths[..i] && tail[..i + 1][..i] == tail[..i];
      if paths[i] != [] {
        listeners := listeners + [NewUnix(paths[i], descriptors[|targets| + i])];
      }
    }
    assert paths[..|paths|] == paths && tail[..|paths|] == tail;
    var spec := WireLoops.FormatPortsLoop(listeners);
    ok := spec.Some?;
  }

  /** The list startWorker formats on every spawn. */
  function WorkerList(targets: seq<PortTarget>, paths: seq<string>, descriptors: seq<int>): seq<Listener>
    requires |descriptors| == |targets| + |paths| && FitsFd(descriptors)
  {
    TargetListeners(targets, descriptors) + PathListeners(paths, descriptors[|targets|..])
  }

  lemma {:induction false} KnownPathsCover(paths: seq<string>, descriptors: seq<int>, i: nat)
    requires |paths| == |descriptors| && FitsFd(descriptors) && i < |paths| && paths[i] != []
    ensures NewUnix(paths[i], descriptors[i]) in KnownPathListeners(paths, descriptors)
    decreases |paths|
  {
    hide NewUnix;
    var n := |paths| - 1;
    if i < n {
      KnownPathsCover(paths[..n], descriptors[..n], i);
    }
  }

  lemma {:induction false} KnownPathsOnly(paths: seq<string>, descriptors: seq<int>, l: Listener)
    requires |paths| == |descriptors| && FitsFd(descriptors) && l in KnownPathListeners(paths, descriptors)
    ensures exists i :: 0 <= i < |paths| && paths[i] != [] && l == NewUnix(paths[i], descriptors[i])
    decreases |paths|
  {
    hide NewUnix;
    var n := |paths| - 1;
    if l in KnownPathListeners(paths[..n], descriptors[..n]) {
      KnownPathsOnly(paths[..n], descriptors[..n], l);
      var i :| 0 <= i < n && paths[..n][i] != [] && l == NewUnix(paths[..n][i], descriptors[..n][i]);
      assert paths[i] != [] && l == NewUnix(paths[i], descriptors[i]);
    } else {
      assert paths[n] != [] && l == NewUnix(paths[n], descriptors[n]);
    }
  }

  // What the wire format asks of each argument

  /** A port argument whose host, port and descriptor the wire format can carry. */
  ghost predicate TargetFits(t: PortTarget, fd: Fd) {
    WireProofs.WireSafe(TCP(if t.host == [] then "0.0.0.0" else t.host, t.port, fd))
  }

  /** A path the wire format can carry, or one that is not known yet. */
  ghost predicate PathFits(path: string, fd: Fd) {
    path == [] || WireProofs.WireSafe(Unix(CanonicalUnixPath(path), fd))
  }

  ghost predicate ArgumentsFit(targets: seq<PortTarget>, paths: seq<string>, d: seq<int>)
    requires |d| == |targets| + |paths| && FitsFd(d)
  {
    && (forall i | 0 <= i < |targets| :: TargetFits(targets[i], d[i]))
    && (forall i | 0 <= i < |paths| :: PathFits(paths[i], d[|targets|..][i]))
  }

  lemma ListenerFits(t: PortTarget, fd: Fd)
    ensures WireProofs.WireSafe(TargetListener(t, fd)) <==> TargetFits(t, fd)
  {
    hide IsSpace;
  }

  lemma UnixFits(path: string, fd: Fd)
    requires path != []
    ensures WireProofs.WireSafe(NewUnix(path, fd)) <==> PathFits(path, fd)
  {
    hide CanonicalUnixPath;
  }

  /** validateListenerWireFormat passes exactly if each argument fits on its own. */
  lemma ValidatedExact(targets: seq<PortTarget>, paths: seq<string>, d: seq<int>)
    requires |d| == |targets| + |paths| && FitsFd(d)
    ensures FormatPorts(Validated(targets, paths, d)).Some? <==> ArgumentsFit(targets, paths, d)
  {
    hide FormatPorts, TargetListener, NewUnix, TargetFits, PathFits, WireProofs.WireSafe, KnownPathListeners;
    var ls, tail := Validated(targets, paths, d), d[|targets|..];
    var known := KnownPathListeners(paths, tail);
    WireProofs.FormatPortsExact(ls);
    TargetsAlone(targets, d);
    PathsAlone(paths, tail);
    assert (forall l | l in ls :: WireProofs.WireSafe(l)) <==> forall i | 0 <= i < |ls| :: WireProofs.WireSafe(ls[i]);
    assert forall l :: l in ls <==> l in TargetListeners(targets, d) || l in known;
  }

  lemma TargetsAlone(targets: seq<PortTarget>, d: seq<int>)
    requires |targets| <= |d| && FitsFd(d)
    ensures (forall l | l in TargetListeners(targets, d) :: WireProofs.WireSafe(l)) <==>
              forall i | 0 <= i < |targets| :: TargetFits(targets[i], d[i])
  {
    hide TargetListener, TargetFits, WireProofs.WireSafe;
    var ls := TargetListeners(targets, d);
    forall i | 0 <= i < |targets|
      ensures ls[i] in ls && (WireProofs.WireSafe(ls[i]) <==> TargetFits(targets[i], d[i]))
    {
      ListenerFits(targets[i], d[i]);
    }
  }

  lemma PathsAlone(paths: seq<string>, tail: seq<int>)
    requires |paths| == |tail| && FitsFd(tail)
    ensures (forall l | l in KnownPathListeners(paths, tail) :: WireProofs.WireSafe(l)) <==>
              forall i | 0 <= i < |paths| :: PathFits(paths[i], tail[i])
  {
    hide NewUnix, WireProofs.WireSafe, KnownPathListeners;
    var known := KnownPathListeners(paths, tail);
    forall i | 0 <= i < |paths| && paths[i] != []
      ensures NewUnix(paths[i], tail[i]) in known
      ensures WireProofs.WireSafe(NewUnix(paths[i], tail[i])) <==> PathFits(paths[i], tail[i])
    {
      KnownPathsCover(paths, tail, i);
      UnixFits(paths[i], tail[i]);
    }
    forall l | l in known
      ensures exists i :: 0 <= i < |paths| && paths[i] != [] && l == NewUnix(paths[i], tail[i])
    {
      KnownPathsOnly(paths, tail, l);
    }
  }

  /** An empty path is never wire-safe. */
  lemma EmptyPathUnsafe(fd: Fd)
    ensures NewUnix([], fd) == Unix([], fd) && !WireProofs.WireSafe(NewUnix([], fd))
  {
    assert TrimSpace([]) == [];
  }

  /** Descriptors assigned to a run's listeners stay far below the largest uintptr. */
  lemma AssignedFit(requested: seq<int>, d: seq<int>)
    requires Descriptors.Acceptable(requested) && Descriptors.FirstFit(requested, d) && |requested| <= MAX_INT
    ensures FitsFd(d)
  {
    Descriptors.FirstFitDistinct(requested, d);
    Descriptors.PaddingExact(requested, d);
    Descriptors.AllCount(d);
    Descriptors.RangeCount(3, Descriptors.MaxFD(d));
    assert Descriptors.Range(3, Descriptors.MaxFD(d)) <= Descriptors.All(d) + Descriptors.Padding(d);
    SubsetCount(Descriptors.Range(3, Descriptors.MaxFD(d)), Descriptors.All(d), Descriptors.Padding(d));
  }

  lemma SubsetCount(a: set<int>, b: set<int>, c: set<int>)
    requires a <= b + c
    ensures |a| <= |b| + |c|
  {
    var rest := (b + c) - a;
    assert b + c == a + rest && |b + c| == |a| + |rest|;
    assert |b + c| == |b| + |c| - |b * c|;
  }

  lemma TargetsSafe(targets: seq<PortTarget>, paths: seq<string>, descriptors: seq<int>)
    requires |descriptors| == |targets| + |paths| && FitsFd(descriptors)
    ensures FormatPorts(Validated(targets, paths, descriptors)).Some? ==>
              forall i | 0 <= i < |targets| :: WireProofs.WireSafe(TargetListener(targets[i], descriptors[i]))
  {
    hide FormatPorts, KnownPathListeners, TargetListener, WireProofs.WireSafe;
    var ls := Validated(targets, paths, descriptors);
    WireProofs.FormatPortsExact(ls);
    assert forall i | 0 <= i < |targets| :: ls[i] == TargetListener(targets[i], descriptors[i]);
  }

  lemma PathsSafe(bound: seq<string>, tail: seq<int>)
    requires |tail| == |bound| && FitsFd(tail)
    ensures FormatPorts(Validated([], bound, tail)).Some? ==>
              forall i | 0 <= i < |bound| :: WireProofs.WireSafe(NewUnix(bound[i], tail[i])) <==> bound[i] != []
  {
    hide FormatPorts, NewUnix, WireProofs.WireSafe;
    WireProofs.FormatPortsExact(Validated([], bound, tail));
    assert tail[0..] == tail;
    assert Validated([], bound, tail) == KnownPathListeners(bound, tail);
    forall i | 0 <= i < |bound|
      ensures FormatPorts(Validated([], bound, tail)).Some? ==>
                (WireProofs.WireSafe(NewUnix(bound[i], tail[i])) <==> bound[i] != [])
    {
      if bound[i] == [] {
        EmptyPathUnsafe(tail[i]);
      } else {
        KnownPathsCover(bound, tail, i);
      }
    }
  }

  /** The validation before binding passed, and so did the one with the addresses that were bound. */
  ghost predicate Passed(targets: seq<PortTarget>, paths: seq<string>, bound: seq<string>, descriptors: seq<int>)
    requires |descriptors| == |targets| + |paths| && |bound| == |paths| && FitsFd(descriptors)
  {
    && FormatPorts(Validated(targets, paths, descriptors)).Some?
    && FormatPorts(Validated([], bound, descriptors[|targets|..])).Some?
  }

  /** The list in terms of its two parts. */
  lemma WorkerListParts(targets: seq<PortTarget>, bound: seq<string>, descriptors: seq<int>)
    requires |descriptors| == |targets| + |bound| && FitsFd(descriptors)
    ensures var ls := WorkerList(targets, bound, descriptors);
            && |ls| == |descriptors|
            && (forall i | 0 <= i < |targets| :: ls[i] == TargetListener(targets[i], descriptors[i]))
            && (forall i | 0 <= i < |bound| :: ls[|targets| + i] == NewUnix(bound[i], descriptors[|targets|..][i]))
            && (forall i | 0 <= i < |ls| :: ls[i].fd == descriptors[i] && !ls[i].Custom?)
  {
    hide CanonicalUnixPath;
  }

  lemma AllSafe(targets: seq<PortTarget>, bound: seq<string>, descriptors: seq<int>)
    requires |descriptors| == |targets| + |bound| && FitsFd(descriptors)
    requires forall i | 0 <= i < |targets| :: WireProofs.WireSafe(TargetListener(targets[i], descriptors[i]))
    ensures (forall l | l in WorkerList(targets, bound, descriptors) :: WireProofs.WireSafe(l)) <==>
              forall i | 0 <= i < |bound| :: WireProofs.WireSafe(NewUnix(bound[i], descriptors[|targets|..][i]))
  {
    hide NewUnix, TargetListener, WireProofs.WireSafe, WorkerList;
    var ls := WorkerList(targets, bound, descriptors);
    WorkerListParts(targets, bound, descriptors);
    forall i | 0 <= i < |bound|
      ensures NewUnix(bound[i], descriptors[|targets|..][i]) in ls
    {
      assert ls[|targets| + i] in ls;
    }
    forall l | l in ls
      ensures || WireProofs.WireSafe(l)
              || exists i :: 0 <= i < |bound| && l == NewUnix(bound[i], descriptors[|targets|..][i])
    {
      var k :| 0 <= k < |ls| && ls[k] == l;
      if k >= |targets| {
        assert l == ls[|targets| + (k - |targets|)];
      }
    }
  }

  lemma WorkerListExact(targets: seq<PortTarget>, paths: seq<string>, bound: seq<string>, descriptors: seq<int>)
    requires |descriptors| == |targets| + |paths| && |bound| == |paths| && FitsFd(descriptors)
    ensures Passed(targets, paths, bound, descriptors) ==>
              (FormatPorts(WorkerList(targets, bound, descriptors)).Some? <==>
                 forall i | 0 <= i < |bound| :: bound[i] != [])
  {
    hide FormatPorts, Validated, NewUnix, TargetListener, WireProofs.WireSafe, WorkerList;
    if Passed(targets, paths, bound, descriptors) {
      TargetsSafe(targets, paths, descriptors);
      PathsSafe(bound, descriptors[|targets|..]);
      AllSafe(targets, bound, descriptors);
      var ls := WorkerList(targets, bound, descriptors);
      WireProofs.FormatPortsExact(ls);
      assert (forall l | l in ls :: WireProofs.WireSafe(l)) <==> forall i | 0 <= i < |ls| :: WireProofs.WireSafe(ls[i]);
    }
  }

  /**
    What a worker must find: for each port argument a UDP or TCP listener as it was asked for, with that port, that host
    or the wildcard address, and then for each path a Unix listener with the bound path; each with its own descriptor.
   */
  ghost predicate Describes(targets: seq<PortTarget>, bound: seq<string>, d: seq<int>, ls: seq<Listener>)
    requires |d| == |targets| + |bound| && FitsFd(d)
  {
    && |ls| == |targets| + |bound|
    && (forall i | 0 <= i < |targets| ::
          && ls[i].fd == d[i]
          && (if targets[i].udp then ls[i].UDP? else ls[i].TCP?)
          && ls[i].port == targets[i].port
          && ls[i].addr == if targets[i].host == [] then "0.0.0.0" else targets[i].host)
    && (forall i | 0 <= i < |bound| ::
          ls[|targets| + i] == Unix(CanonicalUnixPath(bound[i]), d[|targets| + i]))
  }

  lemma WorkerListDescribes(targets: seq<PortTarget>, bound: seq<string>, d: seq<int>)
    requires |d| == |targets| + |bound| && FitsFd(d)
    ensures Describes(targets, bound, d, WorkerList(targets, bound, d))
  {
    hide CanonicalUnixPath;
  }

  /**
    The types variable can be printed, the ports variable can exactly if every bound Unix socket has a non-empty
    address, and a worker that reads both gets the list of what was asked for and bound.
   */
  ghost predicate Sendable(targets: seq<PortTarget>, bound: seq<string>, descriptors: seq<int>)
    requires |descriptors| == |targets| + |bound| && FitsFd(descriptors)
  {
    var ls := WorkerList(targets, bound, descriptors);
    && Describes(targets, bound, descriptors, ls)
    && FormatSocketTypes(ls).Some?
    && (FormatPorts(ls).Some? <==> forall i | 0 <= i < |bound| :: bound[i] != [])
    && (FormatPorts(ls).Some? && ls != [] ==> Ports(FormatPorts(ls).value, FormatSocketTypes(ls).value) == Some(ls))
  }

  /**
    Once the validation before binding and the validation after binding have passed, startWorker can format its
    listeners on every spawn exactly if every bound Unix socket has a non-empty address; and then the worker
    reads back exactly the supervisor's list.
   */
  lemma ValidatedOnce(
    requested: seq<int>, descriptors: seq<int>, targets: seq<PortTarget>, paths: seq<string>, bound: seq<string>)
    requires Descriptors.Acceptable(requested) && Descriptors.FirstFit(requested, descriptors)
    requires |requested| == |targets| + |paths| && |bound| == |paths| && FitsFd(descriptors)
    ensures Passed(targets, paths, bound, descriptors) ==> Sendable(targets, bound, descriptors)
  {
    hide FormatPorts, FormatSocketTypes, Ports, WorkerList, Passed, Describes;
    var ls := WorkerList(targets, bound, descriptors);
    WorkerListDescribes(targets, bound, descriptors);
    WorkerListExact(targets, paths, bound, descriptors);
    DistinctTypes(requested, descriptors, targets, bound);
    if FormatPorts(ls).Some? && ls != [] {
      WireProofs.RoundTrip(ls);
    }
  }

  lemma DistinctTypes(requested: seq<int>, descriptors: seq<int>, targets: seq<PortTarget>, bound: seq<string>)
    requires Descriptors.Acceptable(requested) && Descriptors.FirstFit(requested, descriptors)
    requires |descriptors| == |targets| + |bound| && FitsFd(descriptors)
    ensures FormatSocketTypes(WorkerList(targets, bound, descriptors)).Some?
  {
    hide WorkerList, FormatSocketTypes, Descriptors.Acceptable;
    var ls := WorkerList(targets, bound, descriptors);
    Descriptors.FirstFitDistinct(requested, descriptors);
    WorkerListParts(targets, bound, descriptors);
    WireProofs.FormatSocketTypesExact(ls);
  }

  /** The descriptors `run` asks for: those of the port arguments, and an automatic one for each path. */
  function Requests(fds: seq<int>, paths: seq<string>): (r: seq<int>)
    ensures |r| == |fds| + |paths|
  {
    fds + seq(|paths|, _ => Descriptors.AUTOMATIC)
  }

  /**
    `run` from its arguments to the start of the loop, when binding gives the addresses `bound`: assign descriptors,
    validate, bind, validate again.  If it gets that far, then startWorker can print both variables on every spawn
    exactly if every bound Unix socket has a non-empty address, and its worker reads back exactly its listeners.
   */
  method Prepare(targets: seq<PortTarget>, fds: seq<int>, paths: seq<string>, bound: seq<string>)
    returns (r: Option<seq<int>>)
    requires |fds| == |targets| && |bound| == |paths| && |fds| + |paths| <= MAX_INT
    ensures r.Some? ==> Descriptors.FirstFit(Requests(fds, paths), r.value) && FitsFd(r.value)
    ensures r.Some? ==> Sendable(targets, bound, r.value)
    ensures r.Some? ==> ArgumentsFit(targets, paths, r.value) && ArgumentsFit(targets, bound, r.value)
    ensures r.None? && Descriptors.Acceptable(Requests(fds, paths)) ==>
              forall d | Descriptors.FirstFit(Requests(fds, paths), d) && FitsFd(d) ::
                !ArgumentsFit(targets, paths, d) || !ArgumentsFit(targets, bound, d)
  {
    hide FormatPorts, Sendable, Requests, Descriptors.Acceptable, Descriptors.FirstFit, FitsFd, Validated, ArgumentsFit;
    var requested := Requests(fds, paths);
    r := Descriptors.Assign(requested);
    if r.Some? {
      var d := r.value;
      Descriptors.FirstFitLength(requested, d);
      AssignedFit(requested, d);
      FitsTail(d, |targets|);
      var early := ValidateListenerWireFormat(targets, paths, d);
      var late := ValidateListenerWireFormat([], bound, d[|targets|..]);
      ValidatedOnce(requested, d, targets, paths, bound);
      PassedExact(targets, paths, bound, d);
      if !early || !late {
        OnlyLayout(requested, d);
        r := None;
      }
    }
  }

  /** Both validations pass exactly if the arguments fit, with the paths as given and with those that were bound. */
  lemma PassedExact(targets: seq<PortTarget>, paths: seq<string>, bound: seq<string>, d: seq<int>)
    requires |d| == |targets| + |paths| && |bound| == |paths| && FitsFd(d)
    ensures Passed(targets, paths, bound, d) <==> ArgumentsFit(targets, paths, d) && ArgumentsFit(targets, bound, d)
  {
    hide FormatPorts, Validated, TargetFits, PathFits;
    var tail := d[|targets|..];
    ValidatedExact(targets, paths, d);
    ValidatedExact([], bound, tail);
    assert tail[0..] == tail;
  }

  lemma OnlyLayout(requested: seq<int>, d: seq<int>)
    requires Descriptors.FirstFit(requested, d)
    ensures forall e | Descriptors.FirstFit(requested, e) :: e == d
  {
    hide Descriptors.FirstFit;
    forall e | Descriptors.FirstFit(requested, e)
      ensures e == d
    {
      Descriptors.FirstFitUnique(requested, d, e);
    }
  }

  lemma FitsTail(descriptors: seq<int>, n: nat)
    requires FitsFd(descriptors) && n <= |descriptors|
    ensures FitsFd(descriptors[n..])
  {
  }
}
