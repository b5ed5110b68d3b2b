/**
  How ParsePorts reads any text at all, not only what FormatPorts prints: the grammar it documents, said by the shape of
  the text.
 */
module WireGrammar {
  import opened Basics
  import opened Text
  import opened Decimal
  import opened Wire
  import WireProofs

  /** What stands before the last colon. */
  function Before(s: string): string {
    if LastIndex(s, ':') < 0 then [] else s[..LastIndex(s, ':')]
  }

  /** What stands after the last colon. */
  function Behind(s: string): string {
    if LastIndex(s, ':') < 0 then [] else s[LastIndex(s, ':') + 1..]
  }

  /** A host as net.SplitHostPort takes it: plain, or in brackets when it has a colon. */
  predicate Host(h: string) {
    if h != [] && h[0] == '['
    then |h| > 2 && h[|h| - 1] == ']' && '[' !in h[1..|h| - 1] && ']' !in h[1..|h| - 1]
    else h != [] && ':' !in h && '[' !in h && ']' !in h
  }

  /** "u8080" */
  predicate MarkedPort(s: string) {
    s != [] && s[0] == 'u' && LooksLikePort(s[1..])
  }

  /** "host:u8080" */
  predicate MarkedHost(s: string) {
    Host(Before(s)) && MarkedPort(Behind(s))
  }

  /** "host:8080", where anything but a newline may stand before the last colon. */
  predicate HostPort(s: string) {
    Before(s) != [] && '\n' !in Before(s) && LooksLikePort(Behind(s))
  }

  /** The spellings that are read as TCP or UDP. */
  predicate Network(s: string) {
    || LooksLikePort(s) || MarkedPort(s) || MarkedHost(s) || HostPort(s)
    || (Host(Before(s)) && LooksLikePort(Behind(s)))
  }

  lemma ColonFree(d: string)
    requires LooksLikePort(d)
    ensures ':' !in d && '[' !in d && ']' !in d && 'u' !in d && '/' !in d
  {
  }

  lemma Parts(s: string)
    requires LastIndex(s, ':') >= 0
    ensures s == Before(s) + [':'] + Behind(s) && ':' !in Behind(s)
  {
    hide LastIndex;
    var i := LastIndex(s, ':');
    assert s == s[..i] + [s[i]] + s[i + 1..];
  }

  /** The two parts of a text put together around its last colon. */
  lemma Around(a: string, b: string)
    requires ':' !in b
    ensures var s := a + [':'] + b; LastIndex(s, ':') == |a| && Before(s) == a && Behind(s) == b
  {
    hide LastIndex;
    var s := a + [':'] + b;
    LastIndexUnique(a, ':', b);
    assert s[..|a|] == a && s[|a| + 1..] == b;
  }

  /** net.SplitHostPort accepts "host:8080" exactly for a host. */
  lemma SplitExact(h: string, d: string)
    requires LooksLikePort(d)
    ensures var r := SplitHostPort(h + [':'] + d);
            (r.Some? && r.value.0 != [] <==> Host(h)) && (r.Some? ==> r.value.1 == d)
  {
    var s := h + [':'] + d;
    ColonFree(d);
    LastIndexUnique(h, ':', d);
    assert s[..|h|] == h && s[|h| + 1..] == d;
    if h != [] && h[0] == '[' {
      Bracketed(h, d);
    } else {
      assert '[' in s <==> '[' in h;
      assert ']' in s <==> ']' in h;
      if h == [] {
        assert s[0] == ':';
      }
    }
  }

  lemma Bracketed(h: string, d: string)
    requires h != [] && h[0] == '[' && LooksLikePort(d)
    ensures var r := SplitHostPort(h + [':'] + d);
            (r.Some? && r.value.0 != [] <==> Host(h)) && (r.Some? ==> r.value.1 == d)
  {
    hide SplitHostPort, LooksLikePort;
    if Host(h) {
      var inner := h[1..|h| - 1];
      assert h == ['['] + inner + [']'];
      BracketsAccepted(inner, d);
    }
    BracketsNeeded(h, d);
  }

  lemma BracketsAccepted(inner: string, d: string)
    requires '[' !in inner && ']' !in inner && LooksLikePort(d)
    ensures SplitHostPort(['['] + inner + [']'] + [':'] + d) == Some((inner, d))
  {
    hide LooksLikePort, LastIndex, Index;
    var front := ['['] + inner;
    var s := front + [']'] + [':'] + d;
    ColonFree(d);
    assert s == front + [']'] + ([':'] + d);
    IndexUnique(front, ']', [':'] + d);
    LastIndexUnique(front + [']'], ':', d);
    assert s[1..] == inner + [']', ':'] + d && s[1..|front|] == inner;
    assert s[|front| + 1..] == [':'] + d && s[|front| + 2..] == d;
  }

  lemma BracketsNeeded(h: string, d: string)
    requires h != [] && h[0] == '[' && LooksLikePort(d)
    ensures var r := SplitHostPort(h + [':'] + d);
            (r.Some? && r.value.0 != [] ==> Host(h)) && (r.Some? ==> r.value.1 == d)
  {
    hide LooksLikePort, Host;
    var s := h + [':'] + d;
    ColonFree(d);
    LastIndexUnique(h, ':', d);
    assert s[|h| + 1..] == d && s[0] == '[' && s[..|h|] == h;
    if SplitHostPort(s).Some? && SplitHostPort(s).value.0 != [] {
      BracketsInside(h, s);
    }
  }

  lemma BracketsInside(h: string, s: string)
    requires |h| > 2 && h <= s && h[0] == '[' && Index(s, ']') == |h| - 1 && '[' !in s[1..]
    ensures Host(h)
  {
    var inner := h[1..|h| - 1];
    assert s[..|h| - 1] == ['['] + inner;
    assert s[1..][..|inner|] == inner;
  }

  lemma GrammarExact(s: string)
    ensures LooksLikeTCPGrammar(s) <==> LooksLikePort(s) || (Host(Before(s)) && LooksLikePort(Behind(s)))
  {
    hide Host, LooksLikePort;
    if LastIndex(s, ':') >= 0 {
      Parts(s);
      if LooksLikePort(Behind(s)) {
        SplitExact(Before(s), Behind(s));
      } else {
        SplitPort(s);
      }
    } else {
      NoHost();
    }
  }

  lemma NoHost()
    ensures !Host([])
  {
  }

  lemma SplitPort(s: string)
    ensures SplitHostPort(s).Some? ==> LastIndex(s, ':') >= 0 && SplitHostPort(s).value.1 == Behind(s)
  {
  }

  // Classification

  lemma TrailingExact(s: string)
    ensures var r := StripTrailingUDPMarker(s);
            && (r.Some? <==> Behind(s) != [] && Behind(s)[0] == 'u')
            && (r.Some? ==> r.value == Before(s) + [':'] + Behind(s)[1..])
            && (r.Some? && LooksLikeTCPGrammar(r.value) <==> MarkedHost(s))
  {
    hide LooksLikeTCPGrammar, Host, LooksLikePort;
    var r := StripTrailingUDPMarker(s);
    if r.Some? {
      Parts(s);
      var rest := Behind(s)[1..];
      assert r.value == Before(s) + [':'] + rest;
      Around(Before(s), rest);
      GrammarExact(r.value);
      ColonInside(r.value, |Before(s)|);
    }
  }

  lemma ColonInside(s: string, i: nat)
    requires i < |s| && s[i] == ':'
    ensures !LooksLikePort(s)
  {
  }

  lemma LeadingExact(s: string)
    ensures var r := StripLeadingUDPMarker(s);
            (r.Some? <==> MarkedPort(s)) && (r.Some? ==> r.value == s[1..] && LooksLikeTCPGrammar(s[1..]))
  {
    hide SplitHostPort, AllDigits;
  }

  lemma RegexExact(s: string)
    ensures HostPortEnd(s, 0) == if HostPort(s) then LastIndex(s, ':') else -1
  {
    hide LooksLikePort;
    HostPortIsLastColon(s);
  }

  /** Classification by the shape of the text: the marker after the last colon, then the leading one, then none. */
  lemma ClassifyExact(s: string)
    ensures var c := ClassifyPortTarget(s);
            && c.udp == (MarkedHost(s) || MarkedPort(s))
            && c.target == (if MarkedHost(s) then Before(s) + [':'] + Behind(s)[1..]
                            else if MarkedPort(s) then s[1..] else s)
            && c.matched == Network(s)
  {
    hide LooksLikeTCPGrammar, HostPortEnd, StripTrailingUDPMarker, StripLeadingUDPMarker, Host, LooksLikePort;
    TrailingExact(s);
    LeadingExact(s);
    GrammarExact(s);
    RegexExact(s);
  }

  /** canonicalUnixPath puts "./" in front of exactly the paths that would be read as a network address. */
  lemma CanonicalExact(path: string)
    ensures var wire := TrimSpace(path);
            CanonicalUnixPath(path) == if '/' !in wire && Network(wire) then ['.', '/'] + path else path
  {
    hide TrimSpace, ClassifyPortTarget, Network;
    ClassifyExact(TrimSpace(path));
  }

  // Parsing

  /** A listener whose port must be in range. */
  function Ranged(l: Listener): Option<Listener>
    requires l.TCP? || l.UDP?
  {
    if l.port > MAX_PORT then None else Some(l)
  }

  /**
    The target of an entry, read by its shape.  A slash makes it a Unix path; then come "host:uPORT" and "uPORT", which
    are UDP, "host:PORT" and "PORT", which are TCP; anything else is a Unix path.
   */
  lemma ParseTargetExact(raw: string, fd: Fd)
    ensures var s := TrimSpace(raw);
            ParseTarget(raw, fd) ==
              if '/' in s then Some(Unix(CanonicalUnixPath(raw), fd))
              else if MarkedHost(s) && '\n' !in Before(s) then
                Ranged(UDP(TrimBrackets(Before(s)), DigitsValue(Behind(s)[1..]), fd))
              else if MarkedHost(s) then Some(Unix(CanonicalUnixPath(raw), fd))
              else if MarkedPort(s) then Ranged(UDP("0.0.0.0", DigitsValue(s[1..]), fd))
              else if HostPort(s) then Ranged(TCP(TrimBrackets(Before(s)), DigitsValue(Behind(s)), fd))
              else if LooksLikePort(s) then Ranged(TCP("0.0.0.0", DigitsValue(s), fd))
              else Some(Unix(CanonicalUnixPath(raw), fd))
  {
    hide TrimSpace, ClassifyPortTarget, HostPortEnd, TrimBrackets, CanonicalUnixPath, DigitsValue, Host, LooksLikePort,
         Network;
    var s := TrimSpace(raw);
    ClassifyExact(s);
    var target := ClassifyPortTarget(s).target;
    RegexExact(target);
    if MarkedHost(s) {
      MarkedTarget(s);
    } else if MarkedPort(s) {
      BareTarget(s[1..]);
    } else if LooksLikePort(s) {
      BareTarget(s);
    }
  }

  lemma MarkedTarget(s: string)
    requires MarkedHost(s)
    ensures Before(s) != []
    ensures var t := Before(s) + [':'] + Behind(s)[1..];
            && Before(t) == Before(s) && Behind(t) == Behind(s)[1..] && LastIndex(t, ':') == |Before(s)|
            && !LooksLikePort(t)
  {
    hide Host, LooksLikePort, LastIndex;
    NoHost();
    var rest := Behind(s)[1..];
    ColonFree(rest);
    Around(Before(s), rest);
    ColonInside(Before(s) + [':'] + rest, |Before(s)|);
  }

  lemma BareTarget(d: string)
    requires LooksLikePort(d)
    ensures LastIndex(d, ':') < 0 && !HostPort(d)
  {
    ColonFree(d);
  }

  // The UDP spellings

  /** An unmarked target is never read as UDP. */
  lemma UnmarkedIsNotUdp(raw: string, fd: Fd)
    requires !MarkedHost(TrimSpace(raw)) && !MarkedPort(TrimSpace(raw))
    ensures var r := ParseTarget(raw, fd); r.Some? ==> !r.value.UDP?
  {
    hide TrimSpace, ParseTarget, MarkedHost, MarkedPort, HostPort;
    ParseTargetExact(raw, fd);
  }

  /** The text of a port with its marker has no space to trim and no delimiter. */
  lemma MarkedNumber(port: int)
    requires port >= 0
    ensures var p := ['u'] + FormatInt(port);
            MarkedPort(p) && ':' !in p && '=' !in p && '/' !in p && !IsSpace(p[|p| - 1]) && DigitsValue(p[1..]) == port
  {
    hide FormatInt;
    WireProofs.NumberShape(port);
    WireProofs.NumberSolid(port);
    WireProofs.PortValue(port);
    var p := ['u'] + FormatInt(port);
    assert p[1..] == FormatInt(port);
  }

  /** "pre:uPORT" for a host without slash or newline. */
  lemma MarkedReads(pre: string, port: int, fd: Fd)
    requires pre != [] && Host(pre) && '/' !in pre && '\n' !in pre && !IsSpace(pre[0]) && 0 <= port <= MAX_PORT
    ensures ParseTarget(pre + [':', 'u'] + FormatInt(port), fd) == Some(UDP(TrimBrackets(pre), port, fd))
  {
    hide FormatInt, ParseTarget, Host, IsSpace, TrimBrackets, TrimLeft, TrimRight, LastIndex, DigitsValue, MarkedPort;
    var p := ['u'] + FormatInt(port);
    var s := pre + [':'] + p;
    assert pre + [':', 'u'] + FormatInt(port) == s;
    MarkedNumber(port);
    WireProofs.TrimBeforeColon(pre, p);
    WireProofs.LeftSolid(pre);
    Around(pre, p);
    ParseTargetExact(s, fd);
  }

  /**
    Every address the wire format carries can be spelt as UDP: "addr:uPORT=fd" is read as exactly that listener.
   */
  lemma UdpEntry(addr: string, port: int, fd: Fd)
    requires WireProofs.WireSafe(UDP(addr, port, fd)) && ':' !in addr && '[' !in addr && ']' !in addr
    ensures ParseEntry(addr + [':', 'u'] + FormatInt(port) + ['='] + FormatNat(fd)) == Some(UDP(addr, port, fd))
  {
    hide FormatInt, FormatNat, ParseTarget, ParseEntry, IsSpace, TrimBrackets;
    MarkedReads(addr, port, fd);
    WireProofs.TrimBracketsExact(addr);
    MarkedNumber(port);
    assert '=' !in FormatInt(port);
    WireProofs.EntryParses(addr + [':', 'u'] + FormatInt(port), fd);
  }

  /** So is "[addr]:uPORT=fd" for an address with a colon. */
  lemma UdpBracketEntry(addr: string, port: int, fd: Fd)
    requires WireProofs.WireSafe(UDP(addr, port, fd)) && '[' !in addr && ']' !in addr
    ensures ParseEntry(['['] + addr + [']', ':', 'u'] + FormatInt(port) + ['='] + FormatNat(fd))
            == Some(UDP(addr, port, fd))
  {
    hide FormatInt, FormatNat, ParseTarget, ParseEntry, IsSpace, TrimBrackets;
    var pre := ['['] + addr + [']'];
    assert pre[1..|pre| - 1] == addr;
    OpenBracketSolid();
    MarkedReads(pre, port, fd);
    WireProofs.TrimBracketsExact(addr);
    MarkedNumber(port);
    assert '=' !in FormatInt(port);
    var target := pre + [':', 'u'] + FormatInt(port);
    WireProofs.EntryParses(target, fd);
    assert ['['] + addr + [']', ':', 'u'] + FormatInt(port) == target;
  }

  lemma OpenBracketSolid()
    ensures !IsSpace('[') && !IsSpace('u')
  {
  }

  /** And "uPORT=fd" is read as UDP on the wildcard address. */
  lemma UdpPortEntry(port: int, fd: Fd)
    requires 0 <= port <= MAX_PORT && fd >= MIN_INHERITED_FD
    ensures ParseEntry(['u'] + FormatInt(port) + ['='] + FormatNat(fd)) == Some(UDP("0.0.0.0", port, fd))
  {
    hide FormatInt, FormatNat, ParseTarget, ParseEntry, IsSpace, LastIndex, MarkedPort;
    var p := ['u'] + FormatInt(port);
    MarkedNumber(port);
    OpenBracketSolid();
    assert TrimSpace(p) == p;
    assert LastIndex(p, ':') == -1;
    NoHost();
    ParseTargetExact(p, fd);
    WireProofs.EntryParses(p, fd);
  }

  // Entries and lists

  /** An entry is "target=fd" with a descriptor of at least 3; anything else is an error. */
  lemma ParseEntryExact(entry: string)
    ensures '=' !in entry ==> ParseEntry(entry).None?
    ensures '=' in entry ==>
              var eq := Index(entry, '=');
              var fd := ParseUint(TrimSpace(entry[eq + 1..]));
              if fd.Some? && fd.value >= 3 then ParseEntry(entry) == ParseTarget(entry[..eq], fd.value)
              else ParseEntry(entry).None?
  {
  }

  /** What is parsed is always a known kind of listener with a descriptor and a port in range. */
  lemma ParsedInRange(entry: string)
    ensures ParseEntry(entry).Some? ==>
              var l := ParseEntry(entry).value;
              !l.Custom? && l.fd >= 3 && (l.Unix? || 0 <= l.port <= 65535)
  {
    hide TrimBrackets, CanonicalUnixPath, TrimSpace, ParseTarget, ParseEntry, MarkedHost, MarkedPort, HostPort,
         DigitsValue, Index;
    ParseEntryExact(entry);
    if ParseEntry(entry).Some? {
      var eq := Index(entry, '=');
      ParseTargetExact(entry[..eq], ParseUint(TrimSpace(entry[eq + 1..])).value);
    }
  }

  /** A list is read entry by entry, and one bad entry spoils it. */
  lemma ParsePortsExact(spec: string)
    requires spec != []
    ensures var entries, r := Split(spec, ';'), ParsePorts(spec);
            && (r.Some? <==> forall i | 0 <= i < |entries| :: ParseEntry(entries[i]).Some?)
            && (r.Some? ==> |r.value| == |entries| && forall i | 0 <= i < |entries| ::
                              ParseEntry(entries[i]) == Some(r.value[i]))
  {
    hide ParseEntry, ParseEntries, Split;
    WireProofs.ParseEntriesAt(Split(spec, ';'));
    assert ParsePorts(spec) == ParseEntries(Split(spec, ';'));
  }

  // The types variable

  /** "fd=type", both parts non-empty: the descriptor. */
  function EntryFd(entry: string): Option<nat> {
    var eq := Index(entry, '=');
    if 0 < eq < |entry| - 1 then ParseUint(entry[..eq]) else None
  }

  /** What stands after the first equals sign. */
  function EntryType(entry: string): string {
    entry[Index(entry, '=') + 1..]
  }

  /** Every entry has a descriptor, and no descriptor comes twice. */
  predicate TypesWellFormed(entries: seq<string>) {
    && (forall i | 0 <= i < |entries| :: EntryFd(entries[i]).Some?)
    && (forall i, j | 0 <= i < j < |entries| :: EntryFd(entries[i]) != EntryFd(entries[j]))
  }

  /** Some entry is for the descriptor. */
  ghost predicate HasEntry(entries: seq<string>, fd: int) {
    exists k :: 0 <= k < |entries| && EntryFd(entries[k]) == Some(fd)
  }

  /** Some listener has the descriptor. */
  ghost predicate HasFd(list: seq<Listener>, fd: int) {
    exists i :: 0 <= i < |list| && list[i].fd == fd
  }

  lemma HasEntryNext(entries: seq<string>, fd: int)
    requires entries != []
    ensures HasEntry(entries, fd) <==> EntryFd(entries[0]) == Some(fd) || HasEntry(entries[1..], fd)
  {
    hide EntryFd;
    if HasEntry(entries[1..], fd) {
      var k :| 0 <= k < |entries[1..]| && EntryFd(entries[1..][k]) == Some(fd);
      assert EntryFd(entries[k + 1]) == Some(fd);
    }
    if HasEntry(entries, fd) && EntryFd(entries[0]) != Some(fd) {
      var k :| 0 <= k < |entries| && EntryFd(entries[k]) == Some(fd);
      assert EntryFd(entries[1..][k - 1]) == Some(fd);
    }
  }

  lemma HasFdNext(list: seq<Listener>, fd: int)
    requires list != []
    ensures HasFd(list, fd) <==> list[0].fd == fd || HasFd(list[1..], fd)
  {
    if HasFd(list[1..], fd) {
      var k :| 0 <= k < |list[1..]| && list[1..][k].fd == fd;
      assert list[k + 1].fd == fd;
    }
    if HasFd(list, fd) && list[0].fd != fd {
      var k :| 0 <= k < |list| && list[k].fd == fd;
      assert list[1..][k - 1].fd == fd;
    }
  }

  lemma {:induction false} ParseTypesExact(entries: seq<string>, types: map<int, string>)
    ensures ParseTypes(entries, types).Some? <==>
              TypesWellFormed(entries) && forall i | 0 <= i < |entries| :: EntryFd(entries[i]).value !in types
    ensures ParseTypes(entries, types).Some? ==>
              var m := ParseTypes(entries, types).value;
              && (forall fd | fd in types :: fd in m && m[fd] == types[fd])
              && (forall i | 0 <= i < |entries| ::
                    EntryFd(entries[i]).value in m && m[EntryFd(entries[i]).value] == EntryType(entries[i]))
              && (forall fd | fd in m ::
                    fd in types || HasEntry(entries, fd))
  {
    hide ParseUint, Index, EntryFd, EntryType;
    if entries != [] {
      var entry, rest := entries[0], entries[1..];
      TypesStep(entries, types);
      forall fd: int
        ensures HasEntry(entries, fd) <==> EntryFd(entry) == Some(fd) || HasEntry(rest, fd)
      {
        HasEntryNext(entries, fd);
      }
      if EntryFd(entry).Some? && EntryFd(entry).value !in types {
        ParseTypesExact(rest, types[EntryFd(entry).value := EntryType(entry)]);
      }
    }
  }

  lemma TypesStep(entries: seq<string>, types: map<int, string>)
    requires entries != []
    ensures var fd := EntryFd(entries[0]);
            ParseTypes(entries, types) ==
              if fd.Some? && fd.value !in types then ParseTypes(entries[1..], types[fd.value := EntryType(entries[0])])
              else None
  {
  }

  /** The types a listener read from SERVER_STARTER_PORT may have. */
  predicate Accepts(l: Listener, socketType: string) {
    (l.TCP? && (socketType == "tcp" || socketType == "udp")) || (l.Unix? && socketType == "unix")
  }

  /** The listener with its type: UDP only if the variable says so. */
  predicate Typed(l: Listener, socketType: string, r: Listener) {
    if socketType == "udp" && l.TCP? then r == UDP(if l.addr == [] then "0.0.0.0" else l.addr, l.port, l.fd) else r == l
  }

  lemma RetypeExact(l: Listener, socketType: string)
    ensures Retype(l, socketType).Some? <==> Accepts(l, socketType)
    ensures Retype(l, socketType).Some? ==> Typed(l, socketType, Retype(l, socketType).value)
  {
  }

  /** The descriptors of the list are distinct, the variable has exactly those, and each type fits. */
  ghost predicate TypesFit(list: seq<Listener>, types: map<int, string>) {
    && DistinctFds(list)
    && (forall i | 0 <= i < |list| :: list[i].fd in types && Accepts(list[i], types[list[i].fd]))
    && (forall fd | fd in types :: HasFd(list, fd))
  }

  lemma {:induction false} RetypeAllExact(list: seq<Listener>, types: map<int, string>)
    ensures RetypeAll(list, types).Some? <==> TypesFit(list, types)
    ensures RetypeAll(list, types).Some? ==>
              var r := RetypeAll(list, types).value;
              && |r| == |list|
              && (forall i | 0 <= i < |list| :: list[i].fd in types && Typed(list[i], types[list[i].fd], r[i]))
  {
    hide Retype, Accepts, Typed;
    if list == [] {
      assert forall fd :: !HasFd(list, fd);
      if forall fd :: fd !in types {
        assert types == map[];
      }
    } else {
      var fd, rest := list[0].fd, types - {list[0].fd};
      RetypeAllExact(list[1..], rest);
      FitStep(list, types);
      if fd in types {
        RetypeExact(list[0], types[fd]);
      }
    }
  }

  lemma FitStep(list: seq<Listener>, types: map<int, string>)
    requires list != []
    ensures TypesFit(list, types) <==>
              && list[0].fd in types && Accepts(list[0], types[list[0].fd])
              && TypesFit(list[1..], types - {list[0].fd})
  {
    hide Accepts;
    var fd, rest, tail := list[0].fd, types - {list[0].fd}, list[1..];
    forall f: int
      ensures HasFd(list, f) <==> f == fd || HasFd(tail, f)
    {
      HasFdNext(list, f);
    }
    forall i | 0 < i < |list|
      ensures list[i] == tail[i - 1]
    {
    }
    if TypesFit(list, types) {
      FitTail(list, types);
    }
    if fd in types && Accepts(list[0], types[fd]) && TypesFit(tail, rest) {
      DistinctStep(list);
    }
  }

  lemma FitTail(list: seq<Listener>, types: map<int, string>)
    requires list != [] && TypesFit(list, types)
    ensures TypesFit(list[1..], types - {list[0].fd})
  {
    hide Accepts;
    forall f: int
      ensures HasFd(list, f) <==> f == list[0].fd || HasFd(list[1..], f)
    {
      HasFdNext(list, f);
    }
  }

  lemma DistinctStep(list: seq<Listener>)
    requires list != [] && DistinctFds(list[1..]) && forall i | 0 < i < |list| :: list[i].fd != list[0].fd
    ensures DistinctFds(list)
  {
    forall i, j | 0 <= i < j < |list|
      ensures list[i].fd != list[j].fd
    {
      if i > 0 {
        assert list[1..][i - 1] == list[i] && list[1..][j - 1] == list[j];
      }
    }
  }

  /** The entry is for this listener. */
  predicate For(entry: string, l: Listener) {
    EntryFd(entry) == Some(l.fd)
  }

  /** Some entry gives the listener a type that fits it. */
  ghost predicate Given(l: Listener, entries: seq<string>) {
    exists k :: 0 <= k < |entries| && For(entries[k], l) && Accepts(l, EntryType(entries[k]))
  }

  /** The same as TypesFit, said of the entries themselves. */
  ghost predicate EntriesFit(list: seq<Listener>, entries: seq<string>) {
    && DistinctFds(list)
    && (forall i | 0 <= i < |list| :: Given(list[i], entries))
    && (forall k | 0 <= k < |entries| :: EntryFd(entries[k]).Some? && HasFd(list, EntryFd(entries[k]).value))
  }

  lemma FitsEntries(list: seq<Listener>, entries: seq<string>, m: map<int, string>)
    requires ParseTypes(entries, map[]) == Some(m)
    ensures TypesFit(list, m) <==> EntriesFit(list, entries)
  {
    hide ParseTypes, EntryFd, EntryType, Accepts, DistinctFds;
    ParseTypesExact(entries, map[]);
    if TypesFit(list, m) {
      FitsEntriesFrom(list, entries, m);
    }
    if EntriesFit(list, entries) {
      FitsEntriesTo(list, entries, m);
    }
  }

  lemma FitsEntriesFrom(list: seq<Listener>, entries: seq<string>, m: map<int, string>)
    requires TypesFit(list, m)
    requires forall fd | fd in m :: HasEntry(entries, fd)
    requires forall k | 0 <= k < |entries| ::
               && EntryFd(entries[k]).Some? && EntryFd(entries[k]).value in m
               && m[EntryFd(entries[k]).value] == EntryType(entries[k])
    ensures EntriesFit(list, entries)
  {
    hide EntryFd, EntryType, Accepts, DistinctFds, HasFd;
    forall i | 0 <= i < |list|
      ensures Given(list[i], entries)
    {
      assert HasEntry(entries, list[i].fd);
      var k :| 0 <= k < |entries| && EntryFd(entries[k]) == Some(list[i].fd as int);
      assert For(entries[k], list[i]) && Accepts(list[i], EntryType(entries[k]));
    }
  }

  lemma FitsEntriesTo(list: seq<Listener>, entries: seq<string>, m: map<int, string>)
    requires EntriesFit(list, entries)
    requires forall fd | fd in m :: HasEntry(entries, fd)
    requires forall k | 0 <= k < |entries| ::
               && EntryFd(entries[k]).Some? && EntryFd(entries[k]).value in m
               && m[EntryFd(entries[k]).value] == EntryType(entries[k])
    ensures TypesFit(list, m)
  {
    hide EntryFd, EntryType, Accepts, DistinctFds, HasFd;
    forall i | 0 <= i < |list|
      ensures list[i].fd in m && Accepts(list[i], m[list[i].fd])
    {
      assert Given(list[i], entries);
      var k :| 0 <= k < |entries| && For(entries[k], list[i]) && Accepts(list[i], EntryType(entries[k]));
      assert EntryFd(entries[k]).value == list[i].fd;
    }
    forall fd | fd in m
      ensures HasFd(list, fd)
    {
      var k :| 0 <= k < |entries| && EntryFd(entries[k]) == Some(fd);
    }
  }

  /**
    applySocketTypes, by the text: it succeeds exactly if the variable is a list of "fd=type" entries with distinct
    descriptors, those are exactly the descriptors of the list, and each type fits its listener.  Then a listener is UDP
    exactly if its entry says so, and every other one is as it was.
   */
  lemma ApplyExact(list: seq<Listener>, spec: string)
    ensures var entries, r := Split(spec, ';'), ApplySocketTypes(list, spec);
            && (r.Some? <==> TypesWellFormed(entries) && EntriesFit(list, entries))
            && (r.Some? ==>
                  && |r.value| == |list|
                  && forall i, k | 0 <= i < |list| && 0 <= k < |entries| && For(entries[k], list[i]) ::
                       Typed(list[i], EntryType(entries[k]), r.value[i]))
  {
    hide ParseTypes, RetypeAll, TypesWellFormed, TypesFit, EntriesFit, EntryFd, EntryType, Typed, Split;
    var entries := Split(spec, ';');
    ParseTypesExact(entries, map[]);
    if ParseTypes(entries, map[]).Some? {
      var m := ParseTypes(entries, map[]).value;
      FitsEntries(list, entries, m);
      RetypeAllExact(list, m);
      forall i, k | 0 <= i < |list| && 0 <= k < |entries| && For(entries[k], list[i])
        ensures list[i].fd in m && m[list[i].fd] == EntryType(entries[k])
      {
        assert EntryFd(entries[k]).value == list[i].fd;
      }
    }
  }

  /** Without listeners there is no list, and without the types variable every address is TCP as it was read. */
  lemma PortsCases(ports: string, types: string)
    ensures ports == [] ==> Ports(ports, types).None?
    ensures ports != [] && types == [] ==> Ports(ports, types) == ParsePorts(ports)
    ensures ports != [] && types != [] && ParsePorts(ports).Some? ==>
              Ports(ports, types) == ApplySocketTypes(ParsePorts(ports).value, types)
    ensures ports != [] && ParsePorts(ports).None? ==> Ports(ports, types).None?
  {
    hide ParsePorts, ApplySocketTypes;
  }

  // The two variables as text

  /** How an entry of SERVER_STARTER_PORT is spelt. */
  predicate Spelt(l: Listener, entry: string) {
    var fd := FormatNat(l.fd);
    match l
    case Unix(path, _) => entry == path + "=" + fd
    case Custom(_, _) => false
    case _ =>
      var port := FormatInt(l.port);
      if l.addr == "0.0.0.0" then entry == port + "=" + fd
      else if ':' in l.addr then entry == "[" + l.addr + "]:" + port + "=" + fd
      else entry == l.addr + ":" + port + "=" + fd
  }

  /** How an entry of LSS2_SOCKET_TYPES is spelt. */
  predicate TypeSpelt(l: Listener, entry: string) {
    match l
    case TCP(_, _, fd) => entry == FormatNat(fd) + "=tcp"
    case UDP(_, _, fd) => entry == FormatNat(fd) + "=udp"
    case Unix(_, fd) => entry == FormatNat(fd) + "=unix"
    case Custom(_, _) => false
  }

  lemma RenderSpelt(l: Listener)
    requires WireProofs.WireSafe(l)
    ensures Spelt(l, Render(l))
  {
    hide FormatInt, FormatNat, CanonicalUnixPath, IsSpace;
  }

  /** What is printed is the entries in order, separated by semicolons and spelt as documented. */
  lemma PrintedEntries(ls: seq<Listener>)
    ensures ls != [] && FormatPorts(ls).Some? ==>
              var entries := Split(FormatPorts(ls).value, ';');
              |entries| == |ls| && forall i | 0 <= i < |ls| :: Spelt(ls[i], entries[i])
  {
    hide Render, ParsePorts, WireProofs.WireSafe, Spelt, Join, Printable, ReadsBackAs;
    if ls != [] && FormatPorts(ls).Some? {
      WireProofs.FormatPortsExact(ls);
      WireProofs.RenderAllAt(ls);
      forall i | 0 <= i < |ls|
        ensures Spelt(ls[i], RenderAll(ls)[i]) && ';' !in RenderAll(ls)[i]
      {
        RenderSpelt(ls[i]);
        WireProofs.WireSafePrintable(ls[i]);
        WireProofs.RenderClean(ls[i]);
      }
      SplitJoin(RenderAll(ls), ';');
    }
  }

  lemma TypeEntrySpelt(l: Listener)
    requires !l.Custom?
    ensures TypeSpelt(l, TypeEntry(l))
  {
    hide FormatNat;
    var fd := FormatNat(l.fd);
    assert fd + ['='] + "tcp" == fd + "=tcp" && fd + ['='] + "udp" == fd + "=udp";
    assert fd + ['='] + "unix" == fd + "=unix";
  }

  lemma {:induction false} TypeEntriesSpelt(ls: seq<Listener>)
    requires forall i | 0 <= i < |ls| :: !ls[i].Custom?
    ensures |TypeEntries(ls)| == |ls| && forall i | 0 <= i < |ls| :: TypeSpelt(ls[i], TypeEntries(ls)[i])
  {
    hide TypeEntry, TypeSpelt;
    if ls != [] {
      TypeEntrySpelt(ls[0]);
      TypeEntriesSpelt(ls[1..]);
    }
  }

  lemma PrintedTypes(ls: seq<Listener>)
    ensures ls != [] && FormatSocketTypes(ls).Some? ==>
              var entries := Split(FormatSocketTypes(ls).value, ';');
              |entries| == |ls| && forall i | 0 <= i < |ls| :: TypeSpelt(ls[i], entries[i])
  {
    hide TypeEntry, TypeSpelt, Join, Split;
    if ls != [] && FormatSocketTypes(ls).Some? {
      TypeEntriesSpelt(ls);
      WireProofs.TypeEntriesAt(ls);
      SplitJoin(TypeEntries(ls), ';');
    }
  }
}
