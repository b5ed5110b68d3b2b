/**
  The two environment variables that carry inherited listeners: SERVER_STARTER_PORT and LSS2_SOCKET_TYPES
  (ports.go, listener.go, internal/portwire/validation.go).  None stands for an error return.
 */
module Wire {
  import opened Basics
  import opened Text
  import opened Decimal

  /** A uintptr on a 64-bit platform. */
  type Fd = n: nat | n <= MAX_UINT64

  datatype Listener =
    | TCP(addr: string, port: int, fd: Fd)
    | UDP(addr: string, port: int, fd: Fd)
    | Unix(path: string, fd: Fd)
    | Custom(rendering: string, fd: Fd)     // a Listener implementation this package does not know

  const WILDCARD := "0.0.0.0"
  const MAX_PORT := 65535
  const MIN_INHERITED_FD := 3

  // Go's net and regexp packages

  /** The regular expression ^(.+?):(\d+)$ matches with its group ending at k. */
  predicate HostPortMatch(s: string, k: int) {
    1 <= k < |s| && s[k] == ':' && '\n' !in s[..k] && LooksLikePort(s[k + 1..])
  }

  /** The lazy group takes the first end that works; -1 when there is none. */
  function HostPortEnd(s: string, from: nat): (k: int)
    requires from <= |s|
    decreases |s| - from
    ensures k == -1 || (from <= k && HostPortMatch(s, k))
    ensures k == -1 ==> forall j | from <= j :: !HostPortMatch(s, j)
  {
    if from == |s| then -1 else if HostPortMatch(s, from) then from else HostPortEnd(s, from + 1)
  }

  /** The lazy match is the split at the last colon. */
  lemma HostPortIsLastColon(s: string)
    ensures HostPortEnd(s, 0) == if HostPortMatch(s, LastIndex(s, ':')) then LastIndex(s, ':') else -1
  {
    var k := HostPortEnd(s, 0);
    if k >= 0 {
      assert s == s[..k] + [':'] + s[k + 1..];
      LastIndexUnique(s[..k], ':', s[k + 1..]);
    }
  }

  /** net.SplitHostPort. */
  function SplitHostPort(s: string): Option<(string, string)> {
    var i := LastIndex(s, ':');
    if i < 0 then None
    else if s[0] == '[' then
      var end := Index(s, ']');
      if end < 0 || end + 1 != i then None
      else if '[' in s[1..] || ']' in s[end + 1..] then None
      else Some((s[1..end], s[i + 1..]))
    else if ':' in s[..i] || '[' in s || ']' in s then None
    else Some((s[..i], s[i + 1..]))
  }

  /** net.JoinHostPort. */
  function JoinHostPort(host: string, port: string): string {
    if ':' in host then ['['] + host + [']', ':'] + port else host + [':'] + port
  }

  // Classification

  predicate LooksLikeTCPGrammar(s: string) {
    || LooksLikePort(s)
    || match SplitHostPort(s)
       case None => false
       case Some((host, port)) => host != [] && LooksLikePort(port)
  }

  /** A leading "u" before a bare port. */
  function StripLeadingUDPMarker(s: string): Option<string> {
    if s != [] && s[0] == 'u' && LooksLikePort(s[1..]) then Some(s[1..]) else None
  }

  /** A "u" right after the last colon. */
  function StripTrailingUDPMarker(s: string): Option<string> {
    var i := LastIndex(s, ':');
    if i >= 0 && i + 1 < |s| && s[i + 1] == 'u' then Some(s[..i + 1] + s[i + 2..]) else None
  }

  datatype Classified = Classified(udp: bool, target: string, matched: bool)

  /** The candidates in order: trailing marker, leading marker, no marker; then the host:port fallback. */
  function ClassifyPortTarget(s: string): Classified {
    var trailing := StripTrailingUDPMarker(s);
    var leading := StripLeadingUDPMarker(s);
    if trailing.Some? && LooksLikeTCPGrammar(trailing.value) then Classified(true, trailing.value, true)
    else if leading.Some? && LooksLikeTCPGrammar(leading.value) then Classified(true, leading.value, true)
    else Classified(false, s, LooksLikeTCPGrammar(s) || HostPortEnd(s, 0) >= 0)
  }

  function CanonicalUnixPath(path: string): string {
    var wire := TrimSpace(path);
    if '/' in wire then path
    else if ClassifyPortTarget(wire).matched then "./" + path
    else path
  }

  function NewUnix(path: string, fd: Fd): Listener {
    Unix(CanonicalUnixPath(path), fd)
  }

  function NewTCP(addr: string, port: int, fd: Fd): Listener {
    TCP(if addr == [] then WILDCARD else addr, port, fd)
  }

  function NewUDP(addr: string, port: int, fd: Fd): Listener {
    UDP(if addr == [] then WILDCARD else addr, port, fd)
  }

  // Parsing

  predicate IsBracket(c: char) {
    c == '[' || c == ']'
  }

  function TrimBracketsLeft(s: string): string {
    if s != [] && IsBracket(s[0]) then TrimBracketsLeft(s[1..]) else s
  }

  function TrimBracketsRight(s: string): string {
    if s != [] && IsBracket(s[|s| - 1]) then TrimBracketsRight(s[..|s| - 1]) else s
  }

  /** strings.Trim(s, "[]"). */
  function TrimBrackets(s: string): string {
    TrimBracketsRight(TrimBracketsLeft(s))
  }

  function NetworkListener(udp: bool, addr: string, digits: string, fd: Fd): Option<Listener>
    requires LooksLikePort(digits)
  {
    var port := DigitsValue(digits);
    if port > MAX_PORT then None else Some(if udp then UDP(addr, port, fd) else TCP(addr, port, fd))
  }

  /** The part of an entry before "=". */
  function ParseTarget(raw: string, fd: Fd): Option<Listener> {
    var hostPort := TrimSpace(raw);
    if '/' in hostPort then Some(NewUnix(raw, fd))
    else
      var c := ClassifyPortTarget(hostPort);
      var k := HostPortEnd(c.target, 0);
      if k >= 0 then NetworkListener(c.udp, TrimBrackets(c.target[..k]), c.target[k + 1..], fd)
      else if LooksLikePort(c.target) then NetworkListener(c.udp, WILDCARD, c.target, fd)
      else Some(NewUnix(raw, fd))
  }

  /** One "spec=fd" entry. */
  function ParseEntry(entry: string): Option<Listener> {
    var eq := Index(entry, '=');
    if eq < 0 then None
    else
      match ParseUint(TrimSpace(entry[eq + 1..]))
      case None => None
      case Some(fd) => if fd < MIN_INHERITED_FD then None else ParseTarget(entry[..eq], fd)
  }

  function ParseEntries(entries: seq<string>): Option<seq<Listener>> {
    if entries == [] then Some([])
    else
      match (ParseEntry(entries[0]), ParseEntries(entries[1..]))
      case (Some(l), Some(rest)) => Some([l] + rest)
      case _ => None
  }

  function ParsePorts(spec: string): Option<seq<Listener>> {
    if spec == [] then Some([]) else ParseEntries(Split(spec, ';'))
  }

  // Formatting

  /** What TCPListener and UDPListener print before "=". */
  function NetworkTarget(addr: string, port: int): string {
    if addr == WILDCARD then FormatInt(port) else JoinHostPort(addr, FormatInt(port))
  }

  /** The String method. */
  function Render(l: Listener): string {
    match l
    case TCP(addr, port, fd) => NetworkTarget(addr, port) + ['='] + FormatNat(fd)
    case UDP(addr, port, fd) => NetworkTarget(addr, port) + ['='] + FormatNat(fd)
    case Unix(path, fd) => CanonicalUnixPath(path) + ['='] + FormatNat(fd)
    case Custom(rendering, _) => rendering
  }

  /** The name part of a listener. */
  function Name(l: Listener): string
    requires !l.Custom?
  {
    if l.Unix? then l.path else l.addr
  }

  /** The checks FormatPorts makes before it prints anything. */
  predicate Printable(l: Listener) {
    !l.Custom? && Name(l) != [] && '\0' !in Name(l) && ';' !in Name(l) && '=' !in Name(l)
  }

  function RenderAll(ls: seq<Listener>): seq<string> {
    if ls == [] then [] else [Render(ls[0])] + RenderAll(ls[1..])
  }

  /** The final comparison: a UDP listener may come back as the TCP listener of the same address. */
  predicate ReadsBackAs(l: Listener, parsed: Listener) {
    parsed == l || (l.UDP? && parsed == NewTCP(l.addr, l.port, l.fd))
  }

  function FormatPorts(ls: seq<Listener>): Option<string> {
    if ls == [] then Some([])
    else if exists i :: 0 <= i < |ls| && !Printable(ls[i]) then None
    else
      var spec := Join(RenderAll(ls), ';');
      match ParsePorts(spec)
      case None => None
      case Some(parsed) =>
        if |parsed| == |ls| && forall i | 0 <= i < |ls| :: ReadsBackAs(ls[i], parsed[i]) then Some(spec) else None
  }

  // Socket types

  function SocketType(l: Listener): string
    requires !l.Custom?
  {
    match l
    case TCP(_, _, _) => "tcp"
    case UDP(_, _, _) => "udp"
    case Unix(_, _) => "unix"
  }

  function TypeEntry(l: Listener): string
    requires !l.Custom?
  {
    FormatNat(l.fd) + ['='] + SocketType(l)
  }

  function TypeEntries(ls: seq<Listener>): seq<string>
    requires forall i | 0 <= i < |ls| :: !ls[i].Custom?
  {
    if ls == [] then [] else [TypeEntry(ls[0])] + TypeEntries(ls[1..])
  }

  predicate DistinctFds(ls: seq<Listener>) {
    forall i, j | 0 <= i < j < |ls| :: ls[i].fd != ls[j].fd
  }

  function FormatSocketTypes(ls: seq<Listener>): Option<string> {
    if !DistinctFds(ls) || exists i :: 0 <= i < |ls| && ls[i].Custom? then None
    else Some(Join(TypeEntries(ls), ';'))
  }

  /** The "fd=type" entries as a map. */
  function ParseTypes(entries: seq<string>, types: map<int, string>): Option<map<int, string>> {
    if entries == [] then Some(types)
    else
      var eq := Index(entries[0], '=');
      if eq <= 0 || eq == |entries[0]| - 1 then None
      else
        match ParseUint(entries[0][..eq])
        case None => None
        case Some(fd) => if fd in types then None else ParseTypes(entries[1..], types[fd := entries[0][eq + 1..]])
  }

  function Retype(l: Listener, socketType: string): Option<Listener> {
    match l
    case TCP(addr, port, fd) =>
      if socketType == "tcp" then Some(l) else if socketType == "udp" then Some(NewUDP(addr, port, fd)) else None
    case Unix(_, _) => if socketType == "unix" then Some(l) else None
    case _ => None
  }

  function RetypeAll(list: seq<Listener>, types: map<int, string>): Option<seq<Listener>> {
    if list == [] then if types == map[] then Some([]) else None
    else if list[0].fd !in types then None
    else
      match (Retype(list[0], types[list[0].fd]), RetypeAll(list[1..], types - {list[0].fd}))
      case (Some(l), Some(rest)) => Some([l] + rest)
      case _ => None
  }

  function ApplySocketTypes(list: seq<Listener>, spec: string): Option<seq<Listener>> {
    match ParseTypes(Split(spec, ';'), map[])
    case None => None
    case Some(types) => RetypeAll(list, types)
  }

  /** Ports, given the values of the two variables; an unset types variable reads as empty. */
  function Ports(ports: string, types: string): Option<seq<Listener>> {
    if ports == [] then None
    else
      match ParsePorts(ports)
      case None => None
      case Some(list) => if types == [] then Some(list) else ApplySocketTypes(list, types)
  }
}
