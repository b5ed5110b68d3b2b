/**
  The two ways of opening the directory of a pid file without trusting it (internal/statefile/pidfile_unix.go):
  a stack of open directories, and path names resolved from one retained root descriptor.
 */
module Walk {
  import opened Basics
  import opened Text
  import FileTable

  // The file system

  datatype Kind = Directory(entries: map<string, int>, searchable: bool) | Symlink | Other

  /** `loose`: group or others may write. */
  datatype Node = Node(kind: Kind, uid: int, loose: bool, sticky: bool)

  datatype Tree = Tree(nodes: map<int, Node>, root: int, euid: int)

  datatype Failure = Missing | Untrusted | SymlinkComponent | NotADirectory | SystemError

  datatype Result<+T> = Ok(value: T) | Err(failure: Failure)

  predicate TrustedUid(t: Tree, uid: int) {
    uid == 0 || uid == t.euid
  }

  /** validatePIDControlPathEntryMetadata. */
  predicate EntrySafe(t: Tree, parent: Node, entryUid: int) {
    TrustedUid(t, parent.uid) && (!parent.loose || (parent.sticky && TrustedUid(t, entryUid)))
  }

  /** validatePIDControlDirectoryMetadata. */
  predicate ControlSafe(t: Tree, dir: Node) {
    TrustedUid(t, dir.uid) && !dir.loose
  }

  /** Looking one name up in a directory. */
  function Lookup(t: Tree, dir: int, name: string): Option<int> {
    if dir !in t.nodes then None
    else
      var kind := t.nodes[dir].kind;
      if kind.Directory? && kind.searchable && name in kind.entries then Some(kind.entries[name]) else None
  }

  /** What both walks demand of the next component, given its parent directory and itself. */
  function CheckEntry(t: Tree, parent: Node, entry: Node): Option<Failure> {
    if !EntrySafe(t, parent, entry.uid) then Some(Untrusted)
    else if entry.kind.Symlink? then Some(SymlinkComponent)
    else if !entry.kind.Directory? then Some(NotADirectory)
    else None
  }

  // Path components

  predicate Keep(part: string) {
    part != [] && part != "."
  }

  function Filter(parts: seq<string>): seq<string> {
    if parts == [] then []
    else
      var n := |parts| - 1;
      Filter(parts[..n]) + if Keep(parts[n]) then [parts[n]] else []
  }

  function PathComponents(path: string): seq<string> {
    Filter(Split(path, '/'))
  }

  /** The filter in pathComponents overwrites the slice it reads. */
  method FilterInPlace(parts: array<string>) returns (n: nat)
    modifies parts
    ensures n <= parts.Length && parts[..n] == Filter(old(parts[..]))
  {
    n := 0;
    for i := 0 to parts.Length
      invariant n <= i
      invariant parts[..n] == Filter(old(parts[..])[..i])
      invariant parts[i..] == old(parts[..])[i..]
    {
      assert old(parts[..])[..i + 1][..i] == old(parts[..])[..i];
      var part := parts[i];
      assert part == parts[i..][0];
      if Keep(part) {
        parts[n] := part;
        n := n + 1;
        assert parts[..n] == parts[..n - 1] + [part];
      }
      assert parts[i + 1..] == old(parts[..])[i + 1..];
    }
    assert old(parts[..])[..parts.Length] == old(parts[..]);
  }

  // The descriptor walk

  /** The loop of openDirectoryPath; the last element of the stack is the current directory. */
  function StackWalk(t: Tree, components: seq<string>, stack: seq<int>): Result<seq<int>>
    requires |stack| >= 1
  {
    if components == [] then Ok(stack)
    else if components[0] == ".." then
      StackWalk(t, components[1..], if |stack| > 1 then stack[..|stack| - 1] else stack)
    else
      var current := stack[|stack| - 1];
      var next := Lookup(t, current, components[0]);
      if next.None? || current !in t.nodes || next.value !in t.nodes then Err(Missing)
      else
        var failure := CheckEntry(t, t.nodes[current], t.nodes[next.value]);
        if failure.Some? then Err(failure.value) else StackWalk(t, components[1..], stack + [next.value])
  }

  /** openDirectoryPath: the directory it opens. */
  function OpenDirectory(t: Tree, path: string): Result<int> {
    var walked := StackWalk(t, PathComponents(path), [t.root]);
    if walked.Err? then Err(walked.failure)
    else
      var stack := walked.value;
      if stack == [] || stack[|stack| - 1] !in t.nodes then Err(Missing)
      else if !ControlSafe(t, t.nodes[stack[|stack| - 1]]) then Err(Untrusted)
      else Ok(stack[|stack| - 1])
  }

  // The root-anchored walk

  /** The kernel's resolution of names from the root, the last one not followed. */
  function Resolve(t: Tree, names: seq<string>): Option<int> {
    if names == [] then Some(t.root)
    else
      match Resolve(t, names[..|names| - 1])
      case None => None
      case Some(dir) => Lookup(t, dir, names[|names| - 1])
  }

  /** fstatat on the root descriptor with a path text. */
  function StatAt(t: Tree, path: string): Option<int> {
    Resolve(t, PathComponents(path))
  }

  /** "." for the root itself. */
  function EntryText(resolved: seq<string>): string {
    if resolved == [] then "." else Join(resolved, '/')
  }

  function RootedWalk(t: Tree, components: seq<string>, resolved: seq<string>): Result<seq<string>> {
    if components == [] then Ok(resolved)
    else if components[0] == ".." then
      RootedWalk(t, components[1..], if |resolved| > 0 then resolved[..|resolved| - 1] else resolved)
    else
      var parent, entry := StatAt(t, EntryText(resolved)), StatAt(t, EntryText(resolved + [components[0]]));
      if parent.None? || entry.None? || parent.value !in t.nodes || entry.value !in t.nodes then Err(Missing)
      else
        var failure := CheckEntry(t, t.nodes[parent.value], t.nodes[entry.value]);
        if failure.Some? then Err(failure.value) else RootedWalk(t, components[1..], resolved + [components[0]])
  }

  /** openRootAnchoredDirectoryPath: the path it returns, relative to the root. */
  function OpenRooted(t: Tree, path: string): Result<seq<string>> {
    var walked := RootedWalk(t, PathComponents(path), []);
    if walked.Err? then Err(walked.failure)
    else
      var dir := StatAt(t, EntryText(walked.value));
      if dir.None? || dir.value !in t.nodes then Err(Missing)
      else if !ControlSafe(t, t.nodes[dir.value]) then Err(Untrusted)
      else Ok(walked.value)
  }

  // The two walks agree

  /** Names that come from pathComponents and are not "..". */
  ghost predicate Plain(names: seq<string>) {
    forall k | 0 <= k < |names| :: Keep(names[k]) && '/' !in names[k]
  }

  lemma {:induction false} FilterPlain(parts: seq<string>)
    requires forall k | 0 <= k < |parts| :: '/' !in parts[k]
    ensures Plain(Filter(parts))
  {
    if parts != [] {
      FilterPlain(parts[..|parts| - 1]);
    }
  }

  lemma {:induction false} FilterKeepsPlain(parts: seq<string>)
    requires Plain(parts)
    ensures Filter(parts) == parts
  {
    if parts != [] {
      var n := |parts| - 1;
      FilterKeepsPlain(parts[..n]);
      assert parts == parts[..n] + [parts[n]];
    }
  }

  /** The text handed to fstatat resolves to the names it was joined from. */
  lemma StatAtNames(t: Tree, names: seq<string>)
    requires Plain(names)
    ensures StatAt(t, EntryText(names)) == Resolve(t, names)
  {
    if names == [] {
      SplitPiece(".", '/');
      assert Split(".", '/') == ["."];
      assert ["."][..0] == [];
      assert Filter(["."]) == [];
    } else {
      SplitJoin(names, '/');
      FilterKeepsPlain(names);
    }
  }

  /** The stack holds the directories that the prefixes of the resolved path denote. */
  ghost predicate Mirrors(t: Tree, stack: seq<int>, resolved: seq<string>) {
    && |stack| == |resolved| + 1
    && forall k | 0 <= k <= |resolved| :: Resolve(t, resolved[..k]) == Some(stack[k])
  }

  lemma MirrorsPush(t: Tree, stack: seq<int>, resolved: seq<string>, name: string, next: int)
    requires Mirrors(t, stack, resolved) && Lookup(t, stack[|stack| - 1], name) == Some(next)
    ensures Mirrors(t, stack + [next], resolved + [name])
  {
    var longer := resolved + [name];
    assert resolved[..|resolved|] == resolved;
    forall k | 0 <= k <= |longer|
      ensures Resolve(t, longer[..k]) == Some((stack + [next])[k])
    {
      if k <= |resolved| {
        assert longer[..k] == resolved[..k];
      } else {
        assert longer[..k] == longer && longer[..|longer| - 1] == resolved;
      }
    }
  }

  lemma MirrorsPop(t: Tree, stack: seq<int>, resolved: seq<string>)
    requires Mirrors(t, stack, resolved) && resolved != []
    ensures Mirrors(t, stack[..|stack| - 1], resolved[..|resolved| - 1])
  {
    forall k | 0 <= k < |resolved|
      ensures resolved[..|resolved| - 1][..k] == resolved[..k]
    {
    }
  }

  /** What the root-anchored walk learns about the next component is what the descriptor walk learns. */
  lemma StatsAgree(t: Tree, stack: seq<int>, resolved: seq<string>, name: string)
    requires Plain(resolved) && Keep(name) && '/' !in name && Mirrors(t, stack, resolved)
    ensures StatAt(t, EntryText(resolved)) == Some(stack[|stack| - 1])
    ensures StatAt(t, EntryText(resolved + [name])) == Lookup(t, stack[|stack| - 1], name)
  {
    hide StatAt, EntryText, Lookup;
    var longer := resolved + [name];
    StatAtNames(t, resolved);
    StatAtNames(t, longer);
    assert resolved[..|resolved|] == resolved && longer[..|longer| - 1] == resolved;
  }

  lemma {:induction false} WalksAgreeFrom(t: Tree, components: seq<string>, stack: seq<int>, resolved: seq<string>)
    requires Plain(components) && Plain(resolved) && Mirrors(t, stack, resolved)
    ensures var s, r := StackWalk(t, components, stack), RootedWalk(t, components, resolved);
            && (s.Ok? <==> r.Ok?)
            && (s.Ok? ==> Mirrors(t, s.value, r.value) && Plain(r.value))
            && (s.Err? ==> s.failure == r.failure)
  {
    hide CheckEntry, EntrySafe, StatAt, EntryText, Lookup, Resolve;
    if components == [] {
    } else if components[0] == ".." {
      if |resolved| > 0 {
        MirrorsPop(t, stack, resolved);
        WalksAgreeFrom(t, components[1..], stack[..|stack| - 1], resolved[..|resolved| - 1]);
      } else {
        WalksAgreeFrom(t, components[1..], stack, resolved);
      }
    } else {
      var name, current := components[0], stack[|stack| - 1];
      var longer := resolved + [name];
      StatsAgree(t, stack, resolved, name);
      var found := Lookup(t, current, name);
      if found.Some? {
        MirrorsPush(t, stack, resolved, name, found.value);
        WalksAgreeFrom(t, components[1..], stack + [found.value], longer);
      }
    }
  }

  /**
    On a fixed tree the two walks accept the same paths, whatever use is made of "..", reject the others for
    the same reason, and denote the same directory.
   */
  lemma WalksAgree(t: Tree, path: string)
    ensures var stacked, rooted := OpenDirectory(t, path), OpenRooted(t, path);
            && (stacked.Ok? <==> rooted.Ok?)
            && (stacked.Ok? ==> Resolve(t, rooted.value) == Some(stacked.value))
            && (stacked.Err? ==> stacked.failure == rooted.failure)
  {
    hide StackWalk, RootedWalk, StatAt, Split;
    FilterPlain(Split(path, '/'));
    assert Mirrors(t, [t.root], []);
    WalksAgreeFrom(t, PathComponents(path), [t.root], []);
    var s, r := StackWalk(t, PathComponents(path), [t.root]), RootedWalk(t, PathComponents(path), []);
    if s.Ok? && r.Ok? {
      StatAtNames(t, r.value);
      assert r.value[..|r.value|] == r.value;
    }
  }

  // What the walks accept, by the path and the tree alone

  /** The components are the pieces of the path, in order, without the empty ones and the dots. */
  lemma {:induction false} FilterExact(parts: seq<string>, part: string)
    ensures part in Filter(parts) <==> part in parts && part != "" && part != "."
  {
    if parts != [] {
      var n := |parts| - 1;
      FilterExact(parts[..n], part);
      assert parts == parts[..n] + [parts[n]];
    }
  }

  lemma {:induction false} FilterConcat(a: seq<string>, b: seq<string>)
    ensures Filter(a + b) == Filter(a) + Filter(b)
    decreases |b|
  {
    if b == [] {
      assert a + b == a;
    } else {
      var n := |b| - 1;
      hide Keep;
      assert (a + b)[..|a| + n] == a + b[..n] && (a + b)[|a| + n] == b[n];
      FilterConcat(a, b[..n]);
      var last := if Keep(b[n]) then [b[n]] else [];
      assert Filter(a) + (Filter(b[..n]) + last) == Filter(a) + Filter(b[..n]) + last;
    }
  }

  /** A path with each ".." and the name before it taken out; at the root ".." is nothing. */
  function Clean(components: seq<string>): seq<string> {
    if components == [] then []
    else
      var n := |components| - 1;
      var before := Clean(components[..n]);
      if components[n] != ".." then before + [components[n]]
      else if before == [] then [] else before[..|before| - 1]
  }

  /** Root or the effective user. */
  predicate Trusts(t: Tree, uid: int) {
    uid == 0 || uid == t.euid
  }

  /**
    The name leads from the directory to a real directory, and nobody else can put something in its place: the directory
    belongs to a trusted user, and if others may write to it then it is sticky and the entry belongs to one too.
   */
  ghost predicate SafeStep(t: Tree, dir: Option<int>, name: string) {
    && dir.Some? && dir.value in t.nodes
    && var parent := t.nodes[dir.value];
       && parent.kind.Directory? && parent.kind.searchable && name in parent.kind.entries
       && parent.kind.entries[name] in t.nodes
       && var entry := t.nodes[parent.kind.entries[name]];
          && Trusts(t, parent.uid)
          && (parent.loose ==> parent.sticky && Trusts(t, entry.uid))
          && entry.kind.Directory?
  }

  /** Every name on the way, also one that a later ".." takes back, is a safe step from where the path has got to. */
  ghost predicate SafeFrom(t: Tree, components: seq<string>, i: nat) {
    forall k | i <= k < |components| && components[k] != ".." ::
      SafeStep(t, Resolve(t, Clean(components[..k])), components[k])
  }

  lemma StepExact(t: Tree, dir: int, name: string)
    ensures var next := Lookup(t, dir, name);
            SafeStep(t, Some(dir), name) <==>
              && next.Some? && dir in t.nodes && next.value in t.nodes
              && CheckEntry(t, t.nodes[dir], t.nodes[next.value]).None?
  {
  }

  lemma CleanNext(components: seq<string>, i: nat)
    requires i < |components|
    ensures var before, after := Clean(components[..i]), Clean(components[..i + 1]);
            after == if components[i] != ".." then before + [components[i]]
                     else if before == [] then [] else before[..|before| - 1]
  {
    assert components[..i + 1][..i] == components[..i];
  }

  lemma {:induction false} StackWalkExact(t: Tree, components: seq<string>, i: nat, stack: seq<int>)
    requires i <= |components| && Mirrors(t, stack, Clean(components[..i]))
    ensures var r := StackWalk(t, components[i..], stack);
            && (r.Ok? <==> SafeFrom(t, components, i))
            && (r.Ok? ==> Mirrors(t, r.value, Clean(components)))
    decreases |components| - i
  {
    hide CheckEntry, SafeStep, Lookup, Resolve, Clean;
    if i == |components| {
      assert components[..i] == components;
    } else {
      var name, names := components[i], Clean(components[..i]);
      assert components[i..][0] == name && components[i..][1..] == components[i + 1..];
      CleanNext(components, i);
      assert names[..|names|] == names;
      if name == ".." {
        if |stack| > 1 {
          MirrorsPop(t, stack, names);
          StackWalkExact(t, components, i + 1, stack[..|stack| - 1]);
        } else {
          StackWalkExact(t, components, i + 1, stack);
        }
      } else {
        var current := stack[|stack| - 1];
        StepExact(t, current, name);
        assert Resolve(t, names) == Some(current);
        if SafeStep(t, Some(current), name) {
          var next := Lookup(t, current, name).value;
          MirrorsPush(t, stack, names, name, next);
          StackWalkExact(t, components, i + 1, stack + [next]);
        }
      }
    }
  }

  /**
    openDirectoryPath accepts a path exactly if every name on the way is a safe step and the directory it ends in
    belongs to a trusted user and nobody else may write to it; and what it opens is the directory of the cleaned path.
   */
  lemma OpenExact(t: Tree, path: string)
    ensures var names := Clean(PathComponents(path));
            var r, end := OpenDirectory(t, path), Resolve(t, names);
            && (r.Ok? <==>
                  && SafeFrom(t, PathComponents(path), 0)
                  && end.Some? && end.value in t.nodes
                  && Trusts(t, t.nodes[end.value].uid) && !t.nodes[end.value].loose)
            && (r.Ok? ==> end == Some(r.value))
  {
    hide StackWalk, SafeFrom, PathComponents;
    var components := PathComponents(path);
    assert components[..0] == [] && components[0..] == components;
    assert Mirrors(t, [t.root], []);
    StackWalkExact(t, components, 0, [t.root]);
    var names := Clean(components);
    assert names[..|names|] == names;
  }

  // Descriptors of the stack walk

  /** From file `base` on, the handles are open and everything else was closed once. */
  ghost predicate OpenExactly(handles: seq<int>, closed: seq<nat>, base: nat) {
    && base <= |closed|
    && (forall k | 0 <= k < |handles| :: base <= handles[k] < |closed|)
    && (forall j, k | 0 <= j < k < |handles| :: handles[j] != handles[k])
    && (forall f | base <= f < |closed| :: closed[f] == if f in handles then 0 else 1)
  }

  lemma Pushed(handles: seq<int>, closed: seq<nat>, base: nat)
    requires OpenExactly(handles, closed, base)
    ensures OpenExactly(handles + [|closed|], closed + [0], base)
  {
  }

  lemma Popped(handles: seq<int>, closed: seq<nat>, base: nat)
    requires OpenExactly(handles, closed, base) && handles != []
    ensures var f := handles[|handles| - 1];
            OpenExactly(handles[..|handles| - 1], closed[f := closed[f] + 1], base)
  {
    var n := |handles| - 1;
    assert handles == handles[..n] + [handles[n]];
    assert handles[n] !in handles[..n];
  }

  lemma Shifted(handles: seq<int>, closed: seq<nat>, base: nat)
    requires OpenExactly(handles, closed, base) && handles != []
    ensures OpenExactly(handles[1..], closed[handles[0] := closed[handles[0]] + 1], base)
  {
    assert handles == [handles[0]] + handles[1..];
    assert handles[0] !in handles[1..];
  }

  /** closeDirectories, or the final loop that keeps only the last one. */
  method CloseFirst(ledger: FileTable.Ledger, handles: seq<int>, count: nat, ghost base: nat)
    requires count <= |handles| && OpenExactly(handles, ledger.closed, base)
    modifies ledger
    ensures |ledger.closed| == |old(ledger.closed)| && ledger.closed[..base] == old(ledger.closed[..base])
    ensures OpenExactly(handles[count..], ledger.closed, base)
  {
    hide OpenExactly;
    HandleRange(handles, ledger.closed, base);
    var left := handles;
    assert handles[0..] == handles;
    for i := 0 to count
      invariant left == handles[i..]
      invariant |ledger.closed| == |old(ledger.closed)| && ledger.closed[..base] == old(ledger.closed[..base])
      invariant OpenExactly(left, ledger.closed, base)
    {
      HandleRange(left, ledger.closed, base);
      Shifted(left, ledger.closed, base);
      ledger.Close(left[0]);
      left := left[1..];
    }
  }

  lemma HandleRange(handles: seq<int>, closed: seq<nat>, base: nat)
    requires OpenExactly(handles, closed, base)
    ensures base <= |closed| && forall k | 0 <= k < |handles| :: base <= handles[k] < |closed|
  {
  }

  /**
    openDirectoryPath with its descriptors.  `failOpen` and `failStat` are the turns of the loop, if any, in
    which the system refuses to open or to inspect a directory that is there.  Every descriptor it opened has
    been closed exactly once on every way out, except the one it returns.
   */
  method OpenDirectoryPath(ledger: FileTable.Ledger, t: Tree, path: string, failOpen: int, failStat: int)
    returns (r: Result<int>, fd: int)
    modifies ledger
    ensures var n := |PathComponents(path)|;
            !(0 <= failOpen < n) && !(0 <= failStat < n) ==> r == OpenDirectory(t, path)
    ensures r.Ok? ==> r == OpenDirectory(t, path)
    ensures var base := |old(ledger.closed)|;
            && |ledger.closed| >= base && ledger.closed[..base] == old(ledger.closed)
            && OpenExactly(if r.Ok? then [fd] else [], ledger.closed, base)
  {
    hide OpenExactly, CheckEntry, Lookup, ControlSafe;
    ghost var base := |ledger.closed|;
    OpenNothing(ledger.closed);
    Pushed([], ledger.closed, base);
    fd := ledger.Open();
    var handles, stack := [fd], [t.root];
    assert [] + [fd] == handles;
    var components := PathComponents(path);
    var turn := 0;
    while |components| > 0
      invariant |stack| == |handles| >= 1 && turn == |PathComponents(path)| - |components|
      invariant StackWalk(t, PathComponents(path), [t.root]) == StackWalk(t, components, stack)
      invariant |ledger.closed| >= base && ledger.closed[..base] == old(ledger.closed)
      invariant OpenExactly(handles, ledger.closed, base)
      decreases |components|
    {
      var name := components[0];
      ghost var before := components;
      components := components[1..];
      HandleRange(handles, ledger.closed, base);
      if name == ".." {
        if |handles| > 1 {
          Popped(handles, ledger.closed, base);
          ledger.Close(handles[|handles| - 1]);
          handles, stack := handles[..|handles| - 1], stack[..|stack| - 1];
        }
      } else {
        var current := stack[|stack| - 1];
        var next := Lookup(t, current, name);
        var failure := if next.None? || current !in t.nodes || next.value !in t.nodes then Some(Missing)
                       else CheckEntry(t, t.nodes[current], t.nodes[next.value]);
        if failure.Some? || turn == failOpen {
          CloseFirst(ledger, handles, |handles|, base);
          assert handles[|handles|..] == [];
          return Err(if failure.Some? then failure.value else SystemError), -1;
        }
        Pushed(handles, ledger.closed, base);
        var f := ledger.Open();
        handles, stack := handles + [f], stack + [next.value];
        if turn == failStat {
          CloseFirst(ledger, handles, |handles|, base);
          assert handles[|handles|..] == [];
          return Err(SystemError), -1;
        }
      }
      turn := turn + 1;
    }
    var current := stack[|stack| - 1];
    if current !in t.nodes || !ControlSafe(t, t.nodes[current]) {
      CloseFirst(ledger, handles, |handles|, base);
      assert handles[|handles|..] == [];
      return Err(if current !in t.nodes then Missing else Untrusted), -1;
    }
    CloseFirst(ledger, handles, |handles| - 1, base);
    fd := handles[|handles| - 1];
    assert handles[|handles| - 1..] == [fd];
    return Ok(current), fd;
  }

  lemma OpenNothing(closed: seq<nat>)
    ensures OpenExactly([], closed, |closed|)
  {
  }
}
