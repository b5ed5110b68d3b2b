/** The loops of ports.go, proved equal to the functions that specify them. */
module WireLoops {
  import opened Basics
  import opened Text
  import opened Wire
  import Decimal

  /** The result of a loop so far, completed by what the rest of the input gives. */
  function Completed(done: seq<Listener>, rest: Option<seq<Listener>>): Option<seq<Listener>> {
    if rest.None? then None else Some(done + rest.value)
  }

  lemma CompletedEnds(xs: seq<Listener>)
    ensures Completed([], Some(xs)) == Some(xs) && Completed(xs, Some([])) == Some(xs) && Completed([], None) == None
  {
    assert [] + xs == xs && xs + [] == xs;
  }

  lemma CompletedStep(done: seq<Listener>, l: Listener, rest: Option<seq<Listener>>)
    ensures rest.Some? ==> Completed(done + [l], rest) == Completed(done, Some([l] + rest.value))
  {
    if rest.Some? {
      assert done + [l] + rest.value == done + ([l] + rest.value);
    }
  }

  method ParsePortsLoop(spec: string) returns (r: Option<seq<Listener>>)
    ensures r == ParsePorts(spec)
  {
    hide ParseEntry;
    if spec == [] {
      return Some([]);
    }
    var rawspec := Split(spec, ';');
    var ret := [];
    assert rawspec[0..] == rawspec;
    CompletedEnds(if ParseEntries(rawspec).Some? then ParseEntries(rawspec).value else []);
    for i := 0 to |rawspec|
      invariant ParseEntries(rawspec) == Completed(ret, ParseEntries(rawspec[i..]))
    {
      assert rawspec[i..][0] == rawspec[i] && rawspec[i..][1..] == rawspec[i + 1..];
      var l := ParseEntry(rawspec[i]);
      if l.None? {
        return None;
      }
      CompletedStep(ret, l.value, ParseEntries(rawspec[i + 1..]));
      ret := ret + [l.value];
    }
    CompletedEnds(ret);
    return Some(ret);
  }

  method FormatPortsLoop(ls: seq<Listener>) returns (r: Option<string>)
    ensures r == FormatPorts(ls)
  {
    hide Render, Printable, ParsePorts, Join;
    if ls == [] {
      return Some([]);
    }
    var specs := [];
    assert ls[0..] == ls;
    for i := 0 to |ls|
      invariant forall k | 0 <= k < i :: Printable(ls[k])
      invariant RenderAll(ls) == specs + RenderAll(ls[i..])
    {
      if !Printable(ls[i]) {
        return None;
      }
      assert ls[i..][1..] == ls[i + 1..];
      specs := specs + [Render(ls[i])];
    }
    assert specs + [] == specs;
    var spec := Join(specs, ';');
    var parsed := ParsePortsLoop(spec);
    if parsed.None? || |parsed.value| != |ls| {
      return None;
    }
    for i := 0 to |ls|
      invariant forall k | 0 <= k < i :: ReadsBackAs(ls[k], parsed.value[k])
    {
      if ls[i].UDP? && parsed.value[i] == NewTCP(ls[i].addr, ls[i].port, ls[i].fd) {
        continue;
      }
      if parsed.value[i] != ls[i] {
        return None;
      }
    }
    return Some(spec);
  }

  method FormatSocketTypesLoop(ls: seq<Listener>) returns (r: Option<string>)
    ensures r == FormatSocketTypes(ls)
  {
    hide TypeEntry, Join;
    var types := [];
    var seen: set<int> := {};
    assert ls[0..] == ls;
    for i := 0 to |ls|
      invariant seen == set k | 0 <= k < i :: ls[k].fd as int
      invariant DistinctFds(ls[..i]) && forall k | 0 <= k < i :: !ls[k].Custom?
      invariant (forall k | 0 <= k < |ls| :: !ls[k].Custom?) ==> TypeEntries(ls) == types + TypeEntries(ls[i..])
    {
      if ls[i].fd in seen {
        var k :| 0 <= k < i && ls[k].fd == ls[i].fd;
        return None;
      }
      if ls[i].Custom? {
        return None;
      }
      assert ls[i..][1..] == ls[i + 1..];
      seen := seen + {ls[i].fd};
      types := types + [TypeEntry(ls[i])];
      assert ls[..i + 1] == ls[..i] + [ls[i]];
    }
    assert ls[..|ls|] == ls && types + [] == types;
    return Some(Join(types, ';'));
  }

  method ApplySocketTypesLoop(list: seq<Listener>, spec: string) returns (r: Option<seq<Listener>>)
    ensures r == ApplySocketTypes(list, spec)
  {
    var entries := Split(spec, ';');
    var types: map<int, string> := map[];
    assert entries[0..] == entries;
    for i := 0 to |entries|
      invariant ParseTypes(entries, map[]) == ParseTypes(entries[i..], types)
    {
      assert entries[i..][1..] == entries[i + 1..];
      var eq := Index(entries[i], '=');
      if eq <= 0 || eq == |entries[i]| - 1 {
        return None;
      }
      var fd := Decimal.ParseUint(entries[i][..eq]);
      if fd.None? || fd.value in types {
        return None;
      }
      types := types[fd.value := entries[i][eq + 1..]];
    }
    ghost var all := types;
    var ret := [];
    assert list[0..] == list;
    CompletedEnds(if RetypeAll(list, all).Some? then RetypeAll(list, all).value else []);
    for i := 0 to |list|
      invariant RetypeAll(list, all) == Completed(ret, RetypeAll(list[i..], types))
    {
      assert list[i..][0] == list[i] && list[i..][1..] == list[i + 1..];
      if list[i].fd !in types {
        return None;
      }
      var typed := Retype(list[i], types[list[i].fd]);
      types := types - {list[i].fd};
      if typed.None? {
        return None;
      }
      CompletedStep(ret, typed.value, RetypeAll(list[i + 1..], types));
      ret := ret + [typed.value];
    }
    CompletedEnds(ret);
    if types != map[] {
      return None;
    }
    return Some(ret);
  }
}
