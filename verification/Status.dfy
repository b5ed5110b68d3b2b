/** The status file: one "generation:pid" line per worker (internal/statefile/status.go). */
module Status {
  import opened Basics
  import opened Text
  import opened Decimal

  const MAX_STATUS_FILE_SIZE := 64 * 1024

  // Writing

  function Insert(x: int, s: seq<int>): seq<int> {
    if s == [] || x <= s[0] then [x] + s else [s[0]] + Insert(x, s[1..])
  }

  /** sort.Ints. */
  function Sort(s: seq<int>): seq<int> {
    if s == [] then [] else Insert(s[0], Sort(s[1..]))
  }

  ghost predicate StrictlySorted(s: seq<int>) {
    forall i, j | 0 <= i < j < |s| :: s[i] < s[j]
  }

  lemma {:induction false} InsertMembers(x: int, s: seq<int>, y: int)
    ensures y in Insert(x, s) <==> y == x || y in s
    ensures |Insert(x, s)| == |s| + 1
  {
    if s != [] && x > s[0] {
      InsertMembers(x, s[1..], y);
      assert s == [s[0]] + s[1..];
    }
  }

  lemma SortedCons(x: int, s: seq<int>)
    requires StrictlySorted(s) && forall y | y in s :: x < y
    ensures StrictlySorted([x] + s)
  {
    var t := [x] + s;
    forall i, j | 0 <= i < j < |t|
      ensures t[i] < t[j]
    {
      assert t[j] == s[j - 1] && s[j - 1] in s;
      if i > 0 {
        assert t[i] == s[i - 1];
      }
    }
  }

  lemma SortedTail(s: seq<int>)
    requires StrictlySorted(s) && s != []
    ensures StrictlySorted(s[1..]) && forall y | y in s[1..] :: s[0] < y
  {
  }

  lemma {:induction false} InsertSorted(x: int, s: seq<int>)
    requires StrictlySorted(s) && x !in s
    ensures StrictlySorted(Insert(x, s))
  {
    hide StrictlySorted;
    if s == [] {
      SortedCons(x, s);
    } else {
      SortedTail(s);
      if x < s[0] {
        assert s == [s[0]] + s[1..];
        SortedCons(x, s);
      } else {
        InsertSorted(x, s[1..]);
        forall y | y in Insert(x, s[1..])
          ensures s[0] < y
        {
          InsertMembers(x, s[1..], y);
        }
        SortedCons(s[0], Insert(x, s[1..]));
      }
    }
  }

  lemma {:induction false} SortMembers(s: seq<int>, y: int)
    ensures y in Sort(s) <==> y in s
    ensures |Sort(s)| == |s|
  {
    if s != [] {
      SortMembers(s[1..], y);
      InsertMembers(s[0], Sort(s[1..]), y);
      assert s == [s[0]] + s[1..];
    }
  }

  lemma {:induction false} SortSorted(s: seq<int>)
    requires forall i, j | 0 <= i < j < |s| :: s[i] != s[j]
    ensures StrictlySorted(Sort(s))
  {
    if s != [] {
      SortSorted(s[1..]);
      SortMembers(s[1..], s[0]);
      InsertSorted(s[0], Sort(s[1..]));
    }
  }

  lemma HeadMember(s: seq<int>)
    ensures s == [] || s[0] in s
  {
  }

  lemma {:induction false} SortedUnique(a: seq<int>, b: seq<int>)
    requires StrictlySorted(a) && StrictlySorted(b) && forall k :: k in a <==> k in b
    ensures a == b
    decreases |a|
  {
    if a == [] {
      HeadMember(b);
    } else {
      assert a[0] in a && a[0] in b;
      assert b[0] in b && b[0] in a;
      assert a[0] == b[0];
      forall k
        ensures k in a[1..] <==> k in b[1..]
      {
        assert k in a <==> k == a[0] || k in a[1..];
        assert k in b <==> k == b[0] || k in b[1..];
      }
      SortedUnique(a[1..], b[1..]);
    }
  }

  /** An order in which Go may range over the keys of a map. */
  ghost predicate Enumerates(order: seq<int>, keys: set<int>) {
    && (forall i, j | 0 <= i < j < |order| :: order[i] != order[j])
    && (forall k :: k in order <==> k in keys)
  }

  function Line(m: map<int, int>, k: int): string
    requires k in m
  {
    FormatInt(k) + [':'] + FormatInt(m[k])
  }

  function Lines(m: map<int, int>, keys: seq<int>): seq<string>
    requires forall k | k in keys :: k in m
  {
    if keys == [] then [] else [Line(m, keys[0])] + Lines(m, keys[1..])
  }

  /** The text for the keys in the given order. */
  function TextOf(m: map<int, int>, keys: seq<int>): string
    requires forall k | k in keys :: k in m
  {
    if keys == [] then [] else Line(m, keys[0]) + ['\n'] + TextOf(m, keys[1..])
  }

  lemma SortKeepsKeys(order: seq<int>)
    ensures forall k :: k in Sort(order) <==> k in order
  {
    forall k
      ensures k in Sort(order) <==> k in order
    {
      SortMembers(order, k);
    }
  }

  /** What WriteStatus writes when the map is ranged over in `order`. */
  function StatusText(m: map<int, int>, order: seq<int>): string
    requires forall k | k in order :: k in m
  {
    SortKeepsKeys(order);
    TextOf(m, Sort(order))
  }

  /** WriteStatus, as the loop it is. */
  method WriteStatus(m: map<int, int>, order: seq<int>) returns (text: string)
    requires Enumerates(order, m.Keys)
    ensures text == StatusText(m, order)
  {
    hide FormatInt, Sort, TextOf;
    SortKeepsKeys(order);
    var gens := Sort(order);
    text := [];
    TextEnds(m, gens);
    for i := 0 to |gens|
      invariant TextOf(m, gens) == text + TextOf(m, gens[i..])
    {
      TextFrom(m, gens, i);
      text := text + (FormatInt(gens[i]) + [':'] + FormatInt(m[gens[i]]) + ['\n']);
    }
  }

  lemma TextEnds(m: map<int, int>, keys: seq<int>)
    requires forall k | k in keys :: k in m
    ensures keys[0..] == keys && TextOf(m, keys[|keys|..]) == []
  {
  }

  lemma TextFrom(m: map<int, int>, keys: seq<int>, i: nat)
    requires i < |keys| && forall k | k in keys :: k in m
    ensures TextOf(m, keys[i..])
            == FormatInt(keys[i]) + [':'] + FormatInt(m[keys[i]]) + ['\n'] + TextOf(m, keys[i + 1..])
  {
    hide FormatInt;
    assert keys[i..][0] == keys[i] && keys[i..][1..] == keys[i + 1..];
  }

  /** The text depends on the map alone, not on the order in which it is ranged over. */
  lemma TextDeterminedByMap(m: map<int, int>, order: seq<int>, other: seq<int>)
    requires Enumerates(order, m.Keys) && Enumerates(other, m.Keys)
    ensures StatusText(m, order) == StatusText(m, other)
  {
    SortSorted(order);
    SortSorted(other);
    SortKeepsKeys(order);
    SortKeepsKeys(other);
    SortedUnique(Sort(order), Sort(other));
  }

  // Reading

  function ParseLine(line: string): Option<(int, int)> {
    var parts := Split(line, ':');
    if |parts| != 2 then None
    else
      match (Atoi(parts[0]), Atoi(parts[1]))
      case (Some(generation), Some(pid)) => Some((generation, pid))
      case _ => None
  }

  function ParseLines(lines: seq<string>, status: map<int, int>): Option<map<int, int>> {
    if lines == [] then Some(status)
    else if lines[0] == [] then ParseLines(lines[1..], status)
    else
      match ParseLine(lines[0])
      case None => None
      case Some((generation, pid)) => ParseLines(lines[1..], status[generation := pid])
  }

  /** What ReadStatus makes of a file's contents; None is an error. */
  function StatusOf(data: string): Option<map<int, int>> {
    if |data| > MAX_STATUS_FILE_SIZE then None
    else ParseLines(Split(TrimSpace(data), '\n'), map[])
  }

  /** ReadStatus, as the loop it is. */
  method ReadStatus(data: string) returns (r: Option<map<int, int>>)
    ensures r == StatusOf(data)
  {
    if |data| > MAX_STATUS_FILE_SIZE {
      return None;
    }
    var status := map[];
    var lines := Split(TrimSpace(data), '\n');
    for i := 0 to |lines|
      invariant ParseLines(lines, map[]) == ParseLines(lines[i..], status)
    {
      assert lines[i..][1..] == lines[i + 1..];
      if lines[i] == [] {
        continue;
      }
      var parts := Split(lines[i], ':');
      if |parts| != 2 {
        return None;
      }
      var generation, pid := Atoi(parts[0]), Atoi(parts[1]);
      if generation.None? || pid.None? {
        return None;
      }
      status := status[generation.value := pid.value];
    }
    return Some(status);
  }

  // Round trip

  /** Every entry is a Go int. */
  ghost predicate Int64Map(m: map<int, int>) {
    forall k | k in m :: MIN_INT <= k <= MAX_INT && MIN_INT <= m[k] <= MAX_INT
  }

  lemma NumberHasNoSpace(c: char)
    requires IsDigit(c) || c == '-'
    ensures !IsSpace(c)
  {
  }

  lemma TrimFinalNewline(s: string)
    requires s != [] && !IsSpace(s[0]) && !IsSpace(s[|s| - 1])
    ensures TrimSpace(s + ['\n']) == s
  {
    var t := s + ['\n'];
    assert t[0] == s[0] && TrimLeft(t) == t;
    assert IsSpace(t[|t| - 1]) && t[..|t| - 1] == s;
    assert TrimRight(t) == TrimRight(s) == s;
  }

  lemma LineShape(m: map<int, int>, k: int)
    requires k in m
    ensures Line(m, k) != [] && '\n' !in Line(m, k)
    ensures !IsSpace(Line(m, k)[0]) && !IsSpace(Line(m, k)[|Line(m, k)| - 1])
  {
    hide IsSpace, FormatInt;
    var a, b := FormatInt(k), FormatInt(m[k]);
    NumberHasNoSpace(a[0]);
    NumberHasNoSpace(b[|b| - 1]);
  }

  lemma LineParses(m: map<int, int>, k: int)
    requires k in m && Int64Map(m)
    ensures ParseLine(Line(m, k)) == Some((k, m[k]))
  {
    hide FormatInt, Atoi, Split;
    SplitFirst(FormatInt(k), ':', FormatInt(m[k]));
    SplitPiece(FormatInt(m[k]), ':');
    AtoiFormat(k);
    AtoiFormat(m[k]);
  }

  /** The entries of the given keys. */
  ghost function Listed(m: map<int, int>, keys: seq<int>): map<int, int> {
    map k | k in keys && k in m :: m[k]
  }

  /** Entering the keys from the front. */
  lemma ListedNext(m: map<int, int>, keys: seq<int>, status: map<int, int>)
    ensures keys == [] ==> status + Listed(m, keys) == status
    ensures keys != [] && keys[0] in m ==>
              status[keys[0] := m[keys[0]]] + Listed(m, keys[1..]) == status + Listed(m, keys)
  {
    if keys != [] {
      assert keys == [keys[0]] + keys[1..];
    }
  }

  lemma {:induction false} LinesParse(m: map<int, int>, keys: seq<int>, status: map<int, int>)
    requires Int64Map(m) && forall k | k in keys :: k in m
    ensures ParseLines(Lines(m, keys), status) == Some(status + Listed(m, keys))
  {
    hide Line, ParseLine, Listed;
    ListedNext(m, keys, status);
    if keys != [] {
      LineShape(m, keys[0]);
      LineParses(m, keys[0]);
      LinesParse(m, keys[1..], status[keys[0] := m[keys[0]]]);
    }
  }

  lemma {:induction false} TextJoins(m: map<int, int>, keys: seq<int>)
    requires Int64Map(m) && keys != [] && forall k | k in keys :: k in m
    ensures |Lines(m, keys)| == |keys| && forall i | 0 <= i < |keys| :: '\n' !in Lines(m, keys)[i]
    ensures TextOf(m, keys) == Join(Lines(m, keys), '\n') + ['\n']
    ensures var j := Join(Lines(m, keys), '\n'); j != [] && !IsSpace(j[0]) && !IsSpace(j[|j| - 1])
  {
    hide IsSpace, Line;
    LineShape(m, keys[0]);
    if |keys| > 1 {
      TextJoins(m, keys[1..]);
    }
  }

  lemma TextParses(m: map<int, int>, keys: seq<int>)
    requires Int64Map(m) && forall k | k in keys :: k in m
    ensures ParseLines(Split(TrimSpace(TextOf(m, keys)), '\n'), map[]) == Some(map[] + Listed(m, keys))
  {
    hide IsSpace, Line, ParseLine, Listed;
    LinesParse(m, keys, map[]);
    if keys != [] {
      TextJoins(m, keys);
      TrimFinalNewline(Join(Lines(m, keys), '\n'));
      SplitJoin(Lines(m, keys), '\n');
    }
  }

  /** Reading back what WriteStatus wrote gives the map, whatever order it was ranged over in. */
  lemma StatusRoundTrip(m: map<int, int>, order: seq<int>)
    requires Int64Map(m) && Enumerates(order, m.Keys)
    requires |StatusText(m, order)| <= MAX_STATUS_FILE_SIZE
    ensures StatusOf(StatusText(m, order)) == Some(m)
  {
    hide Sort, TextOf, ParseLines, Split, TrimSpace;
    SortKeepsKeys(order);
    TextParses(m, Sort(order));
    forall k | k in m
      ensures k in Sort(order)
    {
      assert k in m.Keys && k in order;
    }
    assert map[] + Listed(m, Sort(order)) == m;
  }

  lemma {:induction false} TextLength(m: map<int, int>, keys: seq<int>)
    requires Int64Map(m) && forall k | k in keys :: k in m
    ensures |TextOf(m, keys)| <= 42 * |keys|
  {
    if keys != [] {
      assert keys[0] in keys;
      FormatIntLength(keys[0]);
      FormatIntLength(m[keys[0]]);
      TextLength(m, keys[1..]);
    }
  }

  lemma {:induction false} EnumerationLength(order: seq<int>, keys: set<int>)
    requires Enumerates(order, keys)
    ensures |order| == |keys|
  {
    if order == [] {
      forall k
        ensures k !in keys
      {
        assert k !in order;
      }
      assert keys == {};
    } else {
      assert order[0] in order;
      forall k
        ensures k in order[1..] <==> k in keys - {order[0]}
      {
        assert order == [order[0]] + order[1..];
        assert k in order <==> k in keys;
      }
      assert Enumerates(order[1..], keys - {order[0]});
      EnumerationLength(order[1..], keys - {order[0]});
    }
  }

  /** A status map of up to 1560 workers always fits the reader's limit. */
  lemma TextFits(m: map<int, int>, order: seq<int>)
    requires Int64Map(m) && Enumerates(order, m.Keys) && |m| <= 1560
    ensures |StatusText(m, order)| <= MAX_STATUS_FILE_SIZE
  {
    SortKeepsKeys(order);
    SortMembers(order, 0);
    EnumerationLength(order, m.Keys);
    TextLength(m, Sort(order));
  }

  // What is written and what is read, by the text

  /** The lines of the file: one per worker, in ascending order of generation, each ended by a newline. */
  lemma WrittenLines(m: map<int, int>, order: seq<int>)
    requires Enumerates(order, m.Keys)
    ensures exists keys: seq<int> ::
              && StrictlySorted(keys) && (forall k :: k in keys <==> k in m)
              && LinesOf(Split(StatusText(m, order), '\n'), keys, m)
  {
    hide Sort, Split, TextOf, LinesOf;
    SortKeepsKeys(order);
    SortSorted(order);
    var keys := Sort(order);
    forall k
      ensures k in keys <==> k in m
    {
      assert k in order <==> k in m.Keys;
    }
    SplitText(m, keys);
  }

  /** Line i is "generation:pid" for the i-th key, and after the last newline there is nothing. */
  ghost predicate LinesOf(lines: seq<string>, keys: seq<int>, m: map<int, int>) {
    && |lines| == |keys| + 1 && lines[|keys|] == []
    && forall i | 0 <= i < |keys| :: keys[i] in m && lines[i] == FormatInt(keys[i]) + ":" + FormatInt(m[keys[i]])
  }

  lemma {:induction false} SplitText(m: map<int, int>, keys: seq<int>)
    requires forall k | k in keys :: k in m
    ensures LinesOf(Split(TextOf(m, keys), '\n'), keys, m)
  {
    hide FormatInt, Split;
    if keys == [] {
      SplitPiece([], '\n');
    } else {
      LineShape(m, keys[0]);
      SplitText(m, keys[1..]);
      SplitFirst(Line(m, keys[0]), '\n', TextOf(m, keys[1..]));
      assert Line(m, keys[0]) + ['\n'] + TextOf(m, keys[1..]) == TextOf(m, keys);
    }
  }

  /** A line is two integers around one colon. */
  lemma LineExact(a: string, b: string)
    requires ':' !in a && ':' !in b
    ensures ParseLine(a + [':'] + b) ==
              if Atoi(a).Some? && Atoi(b).Some? then Some((Atoi(a).value, Atoi(b).value)) else None
  {
    hide Atoi;
    SplitFirst(a, ':', b);
    SplitPiece(b, ':');
  }

  lemma LineNeedsColon(line: string)
    requires ParseLine(line).Some?
    ensures exists a, b :: ':' !in a && ':' !in b && line == a + [':'] + b
  {
    var parts := Split(line, ':');
    JoinSplit(line, ':');
    assert Join(parts[1..], ':') == parts[1];
    assert line == parts[0] + [':'] + parts[1];
  }

  /** Every line that is not empty is well formed. */
  ghost predicate WellFormed(lines: seq<string>) {
    forall i | 0 <= i < |lines| :: lines[i] == [] || ParseLine(lines[i]).Some?
  }

  /** Line i is for generation g. */
  predicate Names(line: string, g: int) {
    line != [] && ParseLine(line).Some? && ParseLine(line).value.0 == g
  }

  /** The map has the generations that lines name, each with the pid of the last line that names it. */
  ghost predicate Collects(m: map<int, int>, lines: seq<string>, from: map<int, int>) {
    && (forall g | g in m :: g in from || Named(lines, g))
    && (forall g | g in from && !Named(lines, g) :: g in m && m[g] == from[g])
    && TakesLast(m, lines)
  }

  ghost predicate TakesLast(m: map<int, int>, lines: seq<string>) {
    forall i, g | 0 <= i < |lines| && Names(lines[i], g) && !Named(lines[i + 1..], g) ::
      g in m && m[g] == ParseLine(lines[i]).value.1
  }

  ghost predicate Named(lines: seq<string>, g: int) {
    exists i :: 0 <= i < |lines| && Names(lines[i], g)
  }

  lemma NamedNext(lines: seq<string>, g: int)
    requires lines != []
    ensures Named(lines, g) <==> Names(lines[0], g) || Named(lines[1..], g)
  {
    hide Names;
    if Named(lines[1..], g) {
      var i :| 0 <= i < |lines[1..]| && Names(lines[1..][i], g);
      assert Names(lines[i + 1], g);
    }
    if Named(lines, g) && !Names(lines[0], g) {
      var i :| 0 <= i < |lines| && Names(lines[i], g);
      assert Names(lines[1..][i - 1], g);
    }
  }

  lemma {:induction false} ParseLinesExact(lines: seq<string>, from: map<int, int>)
    ensures ParseLines(lines, from).Some? <==> WellFormed(lines)
    ensures ParseLines(lines, from).Some? ==> Collects(ParseLines(lines, from).value, lines, from)
  {
    hide ParseLine;
    if lines != [] {
      var line, rest := lines[0], lines[1..];
      var next := if line != [] && ParseLine(line).Some?
                  then from[ParseLine(line).value.0 := ParseLine(line).value.1] else from;
      ParseLinesExact(rest, next);
      WellFormedNext(lines);
      if ParseLines(lines, from).Some? {
        CollectsNext(ParseLines(lines, from).value, lines, from, next);
      }
    }
  }

  lemma WellFormedNext(lines: seq<string>)
    requires lines != []
    ensures WellFormed(lines) <==> (lines[0] == [] || ParseLine(lines[0]).Some?) && WellFormed(lines[1..])
  {
    hide ParseLine;
    assert lines == [lines[0]] + lines[1..];
  }

  lemma CollectsNext(m: map<int, int>, lines: seq<string>, from: map<int, int>, next: map<int, int>)
    requires lines != [] && (lines[0] == [] || ParseLine(lines[0]).Some?)
    requires next == if lines[0] == [] then from
                     else from[ParseLine(lines[0]).value.0 := ParseLine(lines[0]).value.1]
    requires Collects(m, lines[1..], next)
    ensures Collects(m, lines, from)
  {
    hide ParseLine, Named, TakesLast;
    forall g: int
      ensures Named(lines, g) <==> Names(lines[0], g) || Named(lines[1..], g)
    {
      NamedNext(lines, g);
    }
    TakesNext(m, lines);
  }

  lemma TakesNext(m: map<int, int>, lines: seq<string>)
    requires lines != [] && TakesLast(m, lines[1..])
    requires forall g | Names(lines[0], g) && !Named(lines[1..], g) :: g in m && m[g] == ParseLine(lines[0]).value.1
    ensures TakesLast(m, lines)
  {
    hide ParseLine, Named;
    var rest := lines[1..];
    forall i, g | 0 <= i < |lines| && Names(lines[i], g) && !Named(lines[i + 1..], g)
      ensures g in m && m[g] == ParseLine(lines[i]).value.1
    {
      if i > 0 {
        assert rest[i - 1] == lines[i] && rest[i..] == lines[i + 1..];
      }
    }
  }

  /**
    ReadStatus by the text: it fails exactly if the file is too large or a line that is not empty is malformed;
    otherwise the map has exactly the generations named, each with the pid of the last line that names it.
   */
  lemma StatusOfExact(data: string)
    ensures var lines, r := Split(TrimSpace(data), '\n'), StatusOf(data);
            && (r.Some? <==> |data| <= 64 * 1024 && WellFormed(lines))
            && (r.Some? ==> Collects(r.value, lines, map[]))
  {
    hide Split, TrimSpace, ParseLines, WellFormed, Collects;
    ParseLinesExact(Split(TrimSpace(data), '\n'), map[]);
  }
}
