/** What the wire format promises: exactly which listeners it accepts, and that they come back unchanged. */
module WireProofs {
  import opened Basics
  import opened Text
  import opened Decimal
  import opened Wire

  /** canonicalUnixPath is idempotent. */
  lemma CanonicalIdempotent(path: string)
    ensures CanonicalUnixPath(CanonicalUnixPath(path)) == CanonicalUnixPath(path)
  {
    hide ClassifyPortTarget, TrimSpace, IsSpace;
    var c := CanonicalUnixPath(path);
    if c != path {
      assert c[1] == '/' && '/' in c;
      SlashSurvives(c);
    }
  }

  lemma SlashSurvives(s: string)
    ensures '/' in s <==> '/' in TrimSpace(s)
  {
    TrimKeeps(s, '/');
  }

  // Listeners that survive the trip

  /** The listeners FormatPorts accepts, said without mentioning the parser. */
  predicate WireSafe(l: Listener) {
    && Printable(l)
    && l.fd >= MIN_INHERITED_FD
    && if l.Unix? then CanonicalUnixPath(l.path) == l.path
       else
         && 0 <= l.port <= MAX_PORT
         && '/' !in l.addr && '\n' !in l.addr
         && !IsBracket(l.addr[0]) && !IsBracket(l.addr[|l.addr| - 1])
         && (':' in l.addr || !IsSpace(l.addr[0]))
  }

  /** SERVER_STARTER_PORT alone cannot tell UDP from TCP. */
  function Erase(l: Listener): Listener {
    if l.UDP? then TCP(l.addr, l.port, l.fd) else l
  }

  // Trimming brackets

  lemma {:induction false} TrimBracketsLeftEnds(s: string)
    ensures TrimBracketsLeft(s) != [] ==> !IsBracket(TrimBracketsLeft(s)[0])
    ensures |TrimBracketsLeft(s)| <= |s|
    ensures TrimBracketsLeft(s) == s[|s| - |TrimBracketsLeft(s)|..]
  {
    if s != [] && IsBracket(s[0]) {
      TrimBracketsLeftEnds(s[1..]);
    }
  }

  lemma {:induction false} TrimBracketsRightEnds(s: string)
    ensures TrimBracketsRight(s) != [] ==> !IsBracket(TrimBracketsRight(s)[|TrimBracketsRight(s)| - 1])
    ensures |TrimBracketsRight(s)| <= |s| && TrimBracketsRight(s) == s[..|TrimBracketsRight(s)|]
  {
    if s != [] && IsBracket(s[|s| - 1]) {
      TrimBracketsRightEnds(s[..|s| - 1]);
    }
  }

  lemma TrimBracketsEnds(s: string)
    ensures |TrimBrackets(s)| <= |s|
    ensures var t := TrimBrackets(s); t != [] ==> !IsBracket(t[0]) && !IsBracket(t[|t| - 1])
  {
    TrimBracketsLeftEnds(s);
    TrimBracketsRightEnds(TrimBracketsLeft(s));
  }

  /** Trimming brackets gives back an address exactly when the address has none at its ends. */
  lemma TrimBracketsExact(addr: string)
    requires addr != []
    ensures TrimBrackets(addr) == addr <==> !IsBracket(addr[0]) && !IsBracket(addr[|addr| - 1])
    ensures TrimBrackets(['['] + addr + [']']) == addr <==> !IsBracket(addr[0]) && !IsBracket(addr[|addr| - 1])
  {
    TrimBracketsEnds(addr);
    var wrapped := ['['] + addr + [']'];
    TrimBracketsEnds(wrapped);
    if !IsBracket(addr[0]) && !IsBracket(addr[|addr| - 1]) {
      assert wrapped[1..] == addr + [']'];
      assert TrimBracketsLeft(addr + [']']) == addr + [']'];
      assert (addr + [']'])[..|addr|] == addr;
      assert TrimBracketsRight(addr + [']']) == TrimBracketsRight(addr) == addr;
    }
  }

  // Network targets

  /** The host:port expression on "prefix:suffix" with no colon in the suffix. */
  lemma HostPortOf(pre: string, p: string)
    requires ':' !in p
    ensures var s := pre + [':'] + p;
            HostPortEnd(s, 0) == if pre != [] && '\n' !in pre && LooksLikePort(p) then |pre| else -1
  {
    hide LooksLikePort;
    var s := pre + [':'] + p;
    LastIndexUnique(pre, ':', p);
    HostPortIsLastColon(s);
    assert s[|pre|] == ':' && s[..|pre|] == pre && s[|pre| + 1..] == p;
  }

  /** A "prefix:number" target carries no UDP marker and is no bare port. */
  lemma ClassifyHostPort(pre: string, p: string)
    requires ':' !in p && p != [] && p[0] != 'u'
    ensures var s := pre + [':'] + p;
            !ClassifyPortTarget(s).udp && ClassifyPortTarget(s).target == s && !LooksLikePort(s)
  {
    hide LooksLikeTCPGrammar, HostPortEnd;
    var s := pre + [':'] + p;
    LastIndexUnique(pre, ':', p);
    assert s[|pre|] == ':' && s[|pre| + 1] == p[0];
    if s[0] == 'u' {
      assert s[1..][|pre| - 1] == ':';
    }
  }

  /** ParseTarget once the UDP marker has been ruled out. */
  lemma ParseUnmarked(raw: string, s: string, fd: Fd)
    requires TrimSpace(raw) == s && !LooksLikePort(s)
    requires !ClassifyPortTarget(s).udp && ClassifyPortTarget(s).target == s
    ensures var k := HostPortEnd(s, 0);
            ParseTarget(raw, fd) ==
              if '/' !in s && k >= 0 then NetworkListener(false, TrimBrackets(s[..k]), s[k + 1..], fd)
              else Some(NewUnix(raw, fd))
  {
    hide TrimSpace, ClassifyPortTarget, TrimBrackets, CanonicalUnixPath, DigitsValue, AllDigits;
  }

  lemma SlashBeforePort(pre: string, port: int)
    ensures '/' in pre + [':'] + FormatInt(port) <==> '/' in pre
  {
    hide FormatInt;
    assert '/' !in FormatInt(port);
  }

  /** A printed port is read as a port exactly when it is one. */
  lemma PortAccepted(udp: bool, addr: string, port: int, fd: Fd)
    requires LooksLikePort(FormatInt(port))
    ensures port >= 0
    ensures NetworkListener(udp, addr, FormatInt(port), fd)
            == if port > MAX_PORT then None else Some(if udp then UDP(addr, port, fd) else TCP(addr, port, fd))
  {
    hide DigitsValue;
    PortValue(port);
  }

  /** What ParseTarget makes of "prefix:number". */
  lemma ParseHostPort(raw: string, pre: string, port: int, fd: Fd)
    requires TrimSpace(raw) == pre + [':'] + FormatInt(port)
    ensures var r := ParseTarget(raw, fd);
            && (r.Some? ==> !r.value.UDP?)
            && (if '/' !in pre && pre != [] && '\n' !in pre && 0 <= port <= MAX_PORT
                then r == Some(TCP(TrimBrackets(pre), port, fd))
                else r.None? || !r.value.TCP?)
  {
    hide FormatInt, ClassifyPortTarget, HostPortEnd, TrimBrackets, CanonicalUnixPath, TrimSpace, ParseTarget,
         NetworkListener, LooksLikePort;
    var p := FormatInt(port);
    var s := pre + [':'] + p;
    assert s[|pre| + 1..] == p && s[..|pre|] == pre;
    var k := HostPortEnd(s, 0);
    NumberShape(port);
    ClassifyHostPort(pre, p);
    HostPortOf(pre, p);
    ParseUnmarked(raw, s, fd);
    assert '/' in s <==> '/' in pre by { SlashBeforePort(pre, port); }
    if '/' !in pre && pre != [] && '\n' !in pre && LooksLikePort(p) {
      assert k == |pre|;
      PortAccepted(false, TrimBrackets(pre), port, fd);
    } else {
      assert '/' in s || k == -1;
    }
  }

  /** A printed number is all digits exactly when it is not negative. */
  lemma NumberShape(n: int)
    ensures FormatInt(n) != [] && FormatInt(n)[0] != 'u' && ':' !in FormatInt(n)
    ensures LooksLikePort(FormatInt(n)) <==> n >= 0
  {
  }

  lemma PortValue(port: nat)
    ensures DigitsValue(FormatInt(port)) == port
  {
    FormatNatValue(port);
  }

  /** What ParseTarget makes of a bare number. */
  lemma ParseBarePort(port: int, fd: Fd)
    ensures var r := ParseTarget(FormatInt(port), fd);
            && (r.Some? ==> !r.value.UDP?)
            && (if 0 <= port <= MAX_PORT then r == Some(TCP(WILDCARD, port, fd)) else r.None? || !r.value.TCP?)
  {
    var p := FormatInt(port);
    NumberSolid(port);
    assert '/' !in p && ':' !in p && 'u' !in p;
    HostPortIsLastColon(p);
    if port >= 0 {
      PortValue(port);
    }
  }

  /** A printed number has no space to trim. */
  lemma NumberSolid(n: int)
    ensures TrimSpace(FormatInt(n)) == FormatInt(n)
    ensures !IsSpace(FormatInt(n)[|FormatInt(n)| - 1])
  {
  }

  lemma TrimHostPort(pre: string, port: int)
    ensures TrimSpace(pre + [':'] + FormatInt(port)) == TrimLeft(pre) + [':'] + FormatInt(port)
  {
    hide FormatInt, IsSpace, TrimLeft;
    var p := FormatInt(port);
    NumberSolid(port);
    TrimBeforeColon(pre, p);
  }

  lemma ColonSolid()
    ensures !IsSpace(':')
  {
  }

  lemma TrimBeforeColon(pre: string, p: string)
    requires p != [] && !IsSpace(p[|p| - 1])
    ensures TrimSpace(pre + [':'] + p) == TrimLeft(pre) + [':'] + p
  {
    hide IsSpace, TrimLeft;
    ColonSolid();
    var tail := [':'] + p;
    TrimLeftStops(pre, tail);
    assert pre + [':'] + p == pre + tail;
    var t := TrimLeft(pre) + tail;
    assert t == TrimLeft(pre) + [':'] + p;
    assert t[|t| - 1] == p[|p| - 1];
    assert TrimRight(t) == t;
  }

  /** A network target comes back as the same TCP address exactly when the listener is wire-safe; never as UDP. */
  lemma NetworkTargetExact(l: Listener)
    requires (l.TCP? || l.UDP?) && Printable(l) && l.fd >= MIN_INHERITED_FD
    ensures var r := ParseTarget(NetworkTarget(l.addr, l.port), l.fd);
            && (r.Some? ==> !r.value.UDP?)
            && (r == Some(TCP(l.addr, l.port, l.fd)) <==> WireSafe(l))
  {
    hide FormatInt, ParseTarget, TrimBrackets, TrimSpace, IsSpace;
    var addr := l.addr;
    if addr == WILDCARD {
      ParseBarePort(l.port, l.fd);
      WildcardSafe();
    } else if ':' in addr {
      var pre := ['['] + addr + [']'];
      TrimHostPort(pre, l.port);
      BracketSolid(pre);
      assert JoinHostPort(addr, FormatInt(l.port)) == pre + [':'] + FormatInt(l.port);
      ParseHostPort(NetworkTarget(addr, l.port), pre, l.port, l.fd);
      TrimBracketsExact(addr);
    } else {
      var pre := TrimLeft(addr);
      TrimHostPort(addr, l.port);
      ParseHostPort(NetworkTarget(addr, l.port), pre, l.port, l.fd);
      TrimBracketsEnds(pre);
      TrimLeftShrinks(addr);
      if !IsSpace(addr[0]) {
        LeftSolid(addr);
        TrimBracketsExact(addr);
      }
    }
  }

  lemma WildcardSafe()
    ensures !IsSpace(WILDCARD[0]) && '/' !in WILDCARD && '\n' !in WILDCARD && ':' !in WILDCARD
  {
  }

  lemma BracketSolid(s: string)
    requires s != [] && s[0] == '['
    ensures TrimLeft(s) == s
  {
  }

  lemma LeftSolid(s: string)
    requires s != [] && !IsSpace(s[0])
    ensures TrimLeft(s) == s
  {
  }

  /** A Unix path comes back as its canonical form. */
  lemma UnixTargetExact(path: string, fd: Fd)
    ensures ParseTarget(CanonicalUnixPath(path), fd) == Some(Unix(CanonicalUnixPath(path), fd))
  {
    hide ClassifyPortTarget, TrimSpace, IsSpace, HostPortEnd, LooksLikePort;
    var c := CanonicalUnixPath(path);
    CanonicalIdempotent(path);
    if '/' !in TrimSpace(c) {
      assert c == path by {
        if c != path {
          assert c[1] == '/';
          SlashSurvives(c);
        }
      }
      Unmatched(TrimSpace(path));
    }
  }

  lemma PortIsGrammar(s: string)
    requires LooksLikePort(s)
    ensures LooksLikeTCPGrammar(s)
  {
    hide SplitHostPort;
  }

  lemma Unmatched(s: string)
    requires !ClassifyPortTarget(s).matched
    ensures ClassifyPortTarget(s).target == s && HostPortEnd(s, 0) < 0 && !LooksLikePort(s)
  {
    hide LooksLikeTCPGrammar, HostPortEnd, StripTrailingUDPMarker, StripLeadingUDPMarker, LooksLikePort;
    if LooksLikePort(s) {
      PortIsGrammar(s);
    }
  }

  // Entries

  /** The part of an entry before "=". */
  function Target(l: Listener): string
    requires !l.Custom?
  {
    if l.Unix? then CanonicalUnixPath(l.path) else NetworkTarget(l.addr, l.port)
  }

  /** Printing introduces neither delimiter. */
  lemma TargetClean(l: Listener, c: char)
    requires Printable(l) && (c == ';' || c == '=')
    ensures c !in Target(l) && c !in FormatNat(l.fd)
  {
    hide FormatInt, FormatNat, ClassifyPortTarget, TrimSpace;
  }

  lemma EntryParses(target: string, fd: Fd)
    requires '=' !in target
    ensures ParseEntry(target + ['='] + FormatNat(fd))
            == if fd >= MIN_INHERITED_FD then ParseTarget(target, fd) else None
  {
    hide FormatNat, ParseTarget, IsSpace;
    var digits := FormatNat(fd);
    var entry := target + ['='] + digits;
    IndexUnique(target, '=', digits);
    assert entry[..|target|] == target && entry[|target| + 1..] == digits;
    DigitsSolid(digits);
    ParseFormatUint(fd);
  }

  lemma DigitsSolid(s: string)
    requires LooksLikePort(s)
    ensures TrimSpace(s) == s
  {
  }

  /** One entry comes back as the erased listener exactly when the listener is wire-safe, and never as UDP. */
  lemma EntryExact(l: Listener)
    requires Printable(l)
    ensures var r := ParseEntry(Render(l));
            && (r == Some(Erase(l)) <==> WireSafe(l))
            && (l.UDP? ==> r != Some(l))
  {
    hide FormatNat, ParseTarget, ParseEntry, NetworkTarget, CanonicalUnixPath, IsSpace;
    TargetClean(l, '=');
    assert Render(l) == Target(l) + ['='] + FormatNat(l.fd);
    EntryParses(Target(l), l.fd);
    if l.Unix? {
      UnixTargetExact(l.path, l.fd);
    } else if l.fd >= MIN_INHERITED_FD {
      NetworkTargetExact(l);
    }
  }

  // Lists

  function EraseAll(ls: seq<Listener>): (r: seq<Listener>)
    ensures |r| == |ls| && forall i | 0 <= i < |ls| :: r[i] == Erase(ls[i])
  {
    if ls == [] then [] else [Erase(ls[0])] + EraseAll(ls[1..])
  }

  lemma {:induction false} RenderAllAt(ls: seq<Listener>)
    ensures |RenderAll(ls)| == |ls| && forall i | 0 <= i < |ls| :: RenderAll(ls)[i] == Render(ls[i])
  {
    hide Render;
    if ls != [] {
      RenderAllAt(ls[1..]);
    }
  }

  lemma {:induction false} ParseEntriesAt(entries: seq<string>)
    ensures ParseEntries(entries).Some? <==> forall i | 0 <= i < |entries| :: ParseEntry(entries[i]).Some?
    ensures ParseEntries(entries).Some? ==>
              && |ParseEntries(entries).value| == |entries|
              && forall i | 0 <= i < |entries| :: ParseEntry(entries[i]) == Some(ParseEntries(entries).value[i])
  {
    hide ParseEntry;
    if entries != [] {
      ParseEntriesAt(entries[1..]);
      assert entries == [entries[0]] + entries[1..];
    }
  }

  /** Joining printed entries and parsing the result looks at each entry on its own. */
  lemma JoinedEntries(ls: seq<Listener>)
    requires ls != [] && forall i | 0 <= i < |ls| :: Printable(ls[i])
    ensures ParsePorts(Join(RenderAll(ls), ';')) == ParseEntries(RenderAll(ls))
  {
    hide Render, ParseEntries, Printable;
    RenderAllAt(ls);
    forall i | 0 <= i < |ls|
      ensures ';' !in RenderAll(ls)[i] && '=' in RenderAll(ls)[i]
    {
      RenderClean(ls[i]);
    }
    SplitJoin(RenderAll(ls), ';');
    assert Join(RenderAll(ls), ';') != [] by {
      assert RenderAll(ls)[0] != [];
    }
  }

  lemma RenderClean(l: Listener)
    requires Printable(l)
    ensures ';' !in Render(l) && '=' in Render(l)
  {
    TargetClean(l, ';');
    assert Render(l) == Target(l) + ['='] + FormatNat(l.fd);
    assert Render(l)[|Target(l)|] == '=';
  }

  /**
    FormatPorts accepts a list exactly when each of its listeners is wire-safe, and then SERVER_STARTER_PORT
    parses back to the list with UDP erased to TCP.  In particular a list is accepted exactly when each
    listener alone is.
   */
  lemma FormatPortsExact(ls: seq<Listener>)
    ensures FormatPorts(ls).Some? <==> forall i | 0 <= i < |ls| :: WireSafe(ls[i])
    ensures FormatPorts(ls).Some? ==> ParsePorts(FormatPorts(ls).value) == Some(EraseAll(ls))
    ensures FormatPorts(ls).Some? && ls != [] ==> FormatPorts(ls).value != []
  {
    hide Render, ParseEntry, ParseEntries, ParsePorts, WireSafe, Erase, Join;
    if ls == [] {
      assert ParsePorts([]) == Some([]) by { EmptyPorts(); }
    } else if forall i | 0 <= i < |ls| :: Printable(ls[i]) {
      FormatPrintable(ls);
    } else {
      var i :| 0 <= i < |ls| && !Printable(ls[i]);
      WireSafePrintable(ls[i]);
    }
  }

  lemma EmptyPorts()
    ensures ParsePorts([]) == Some([])
  {
  }

  lemma WireSafePrintable(l: Listener)
    ensures WireSafe(l) ==> Printable(l)
  {
  }

  /** FormatPorts' final comparison passes exactly for wire-safe listeners; the parse is then the erased list. */
  lemma EntriesReadBack(ls: seq<Listener>)
    requires forall i | 0 <= i < |ls| :: Printable(ls[i])
    ensures var p := ParseEntries(RenderAll(ls));
            && (p.Some? ==> |p.value| == |ls|)
            && (p.Some? && (forall i | 0 <= i < |ls| :: ReadsBackAs(ls[i], p.value[i])) <==>
                  forall i | 0 <= i < |ls| :: WireSafe(ls[i]))
            && ((forall i | 0 <= i < |ls| :: WireSafe(ls[i])) ==> p == Some(EraseAll(ls)))
  {
    hide Render, ParseEntry, ParseEntries, WireSafe, Printable, ReadsBackAs, Erase;
    var entries := RenderAll(ls);
    RenderAllAt(ls);
    ParseEntriesAt(entries);
    forall i | 0 <= i < |ls|
      ensures ParseEntry(entries[i]) == Some(Erase(ls[i])) <==> WireSafe(ls[i])
      ensures forall parsed | ParseEntry(entries[i]) == Some(parsed) :: ReadsBackAs(ls[i], parsed) <==> WireSafe(ls[i])
    {
      EntryReadsBack(ls[i]);
    }
    if forall i | 0 <= i < |ls| :: WireSafe(ls[i]) {
      assert ParseEntries(entries).value == EraseAll(ls);
    }
  }

  lemma EntryReadsBack(l: Listener)
    requires Printable(l)
    ensures ParseEntry(Render(l)) == Some(Erase(l)) <==> WireSafe(l)
    ensures forall parsed | ParseEntry(Render(l)) == Some(parsed) :: ReadsBackAs(l, parsed) <==> WireSafe(l)
  {
    hide Render, ParseEntry, WireSafe;
    EntryExact(l);
  }

  lemma FormatPrintable(ls: seq<Listener>)
    requires ls != [] && forall i | 0 <= i < |ls| :: Printable(ls[i])
    ensures FormatPorts(ls).Some? <==> forall i | 0 <= i < |ls| :: WireSafe(ls[i])
    ensures FormatPorts(ls).Some? ==>
              ParsePorts(FormatPorts(ls).value) == Some(EraseAll(ls)) && FormatPorts(ls).value != []
  {
    hide RenderAll, ParseEntries, ParsePorts, WireSafe, Join, ReadsBackAs, EraseAll;
    JoinedEntries(ls);
    EntriesReadBack(ls);
    NonEmptySpec(ls);
  }

  lemma NonEmptySpec(ls: seq<Listener>)
    requires ls != [] && Printable(ls[0])
    ensures Join(RenderAll(ls), ';') != []
  {
    RenderClean(ls[0]);
    RenderAllAt(ls);
  }

  // Socket types

  /** FormatSocketTypes accepts exactly the lists of known listeners with distinct descriptors. */
  lemma FormatSocketTypesExact(ls: seq<Listener>)
    ensures FormatSocketTypes(ls).Some? <==> DistinctFds(ls) && forall i | 0 <= i < |ls| :: !ls[i].Custom?
    ensures FormatSocketTypes(ls).Some? && ls != [] ==> FormatSocketTypes(ls).value != []
  {
  }

  /** The map that the types variable stands for. */
  ghost function TypesOf(ls: seq<Listener>): map<int, string>
    requires forall i | 0 <= i < |ls| :: !ls[i].Custom?
  {
    if ls == [] then map[] else TypesOf(ls[1..])[ls[0].fd := SocketType(ls[0])]
  }

  lemma {:induction false} TypesOfKeys(ls: seq<Listener>, fd: int)
    requires forall i | 0 <= i < |ls| :: !ls[i].Custom?
    ensures fd in TypesOf(ls) <==> exists i :: 0 <= i < |ls| && ls[i].fd == fd
  {
    if ls != [] {
      TypesOfKeys(ls[1..], fd);
      if exists i :: 0 <= i < |ls| && ls[i].fd == fd {
        var i :| 0 <= i < |ls| && ls[i].fd == fd;
        assert i > 0 ==> ls[1..][i - 1].fd == fd;
      }
    }
  }

  lemma TypeEntryParses(l: Listener)
    requires !l.Custom?
    ensures ';' !in TypeEntry(l)
    ensures var e := TypeEntry(l); var eq := Index(e, '=');
            && 0 < eq < |e| - 1 && ParseUint(e[..eq]) == Some(l.fd) && e[eq + 1..] == SocketType(l)
  {
    hide FormatNat;
    var digits := FormatNat(l.fd);
    var e := digits + ['='] + SocketType(l);
    IndexUnique(digits, '=', SocketType(l));
    assert e[..|digits|] == digits && e[|digits| + 1..] == SocketType(l);
    ParseFormatUint(l.fd);
  }

  lemma {:induction false} TypeEntriesAt(ls: seq<Listener>)
    requires forall i | 0 <= i < |ls| :: !ls[i].Custom?
    ensures |TypeEntries(ls)| == |ls| && forall i | 0 <= i < |ls| :: ';' !in TypeEntries(ls)[i]
  {
    hide TypeEntry;
    if ls != [] {
      TypeEntryParses(ls[0]);
      TypeEntriesAt(ls[1..]);
    }
  }

  lemma {:induction false} TypesParse(ls: seq<Listener>, types: map<int, string>)
    requires DistinctFds(ls) && forall i | 0 <= i < |ls| :: !ls[i].Custom? && ls[i].fd !in types
    ensures ParseTypes(TypeEntries(ls), types) == Some(types + TypesOf(ls))
  {
    hide TypeEntry, SocketType, ParseUint, Index;
    if ls == [] {
      assert types + map[] == types;
    } else {
      TypeEntryParses(ls[0]);
      var next := types[ls[0].fd := SocketType(ls[0])];
      TypesParse(ls[1..], next);
      TypesOfKeys(ls[1..], ls[0].fd);
      assert next + TypesOf(ls[1..]) == types + TypesOf(ls);
    }
  }

  lemma RetypeOne(l: Listener)
    requires !l.Custom? && Name(l) != []
    ensures Retype(Erase(l), SocketType(l)) == Some(l)
  {
  }

  lemma {:induction false} RetypeRestores(ls: seq<Listener>)
    requires DistinctFds(ls) && forall i | 0 <= i < |ls| :: !ls[i].Custom? && Name(ls[i]) != []
    ensures RetypeAll(EraseAll(ls), TypesOf(ls)) == Some(ls)
  {
    if ls != [] {
      var fd := ls[0].fd;
      TypesOfKeys(ls[1..], fd);
      assert TypesOf(ls) - {fd} == TypesOf(ls[1..]);
      RetypeRestores(ls[1..]);
      assert EraseAll(ls)[0] == Erase(ls[0]) && EraseAll(ls)[1..] == EraseAll(ls[1..]);
      RetypeOne(ls[0]);
      assert ls == [ls[0]] + ls[1..];
    }
  }

  /**
    The round trip: whenever both variables can be printed for a non-empty list, a worker that reads both gets
    exactly that list back, UDP listeners included.
   */
  lemma RoundTrip(ls: seq<Listener>)
    ensures ls != [] && FormatPorts(ls).Some? && FormatSocketTypes(ls).Some? ==>
              Ports(FormatPorts(ls).value, FormatSocketTypes(ls).value) == Some(ls)
  {
    hide FormatPorts, ParsePorts, RetypeAll, ParseTypes, Join, Split, TypeEntries;
    if ls != [] && FormatPorts(ls).Some? && FormatSocketTypes(ls).Some? {
      FormatPortsExact(ls);
      FormatSocketTypesExact(ls);
      forall i | 0 <= i < |ls|
        ensures Printable(ls[i])
      {
        WireSafePrintable(ls[i]);
      }
      TypeEntriesAt(ls);
      SplitJoin(TypeEntries(ls), ';');
      TypesParse(ls, map[]);
      assert map[] + TypesOf(ls) == TypesOf(ls);
      RetypeRestores(ls);
    }
  }
}
