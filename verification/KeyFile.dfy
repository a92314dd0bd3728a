/**
 Key files: an ordered list of groups of entries, its parser and its printer, and
 the map with a name index that the program keeps.
 */
module KeyFiles {
  import opened Bytes
  import opened Order
  import opened Escapes

  // --- Text -------------------------------------------------------------------

  function TrimStart(s: string): string {
    if s != [] && IsWs(s[0]) then TrimStart(s[1..]) else s
  }

  function TrimEnd(s: string): string {
    if s != [] && IsWs(s[|s| - 1]) then TrimEnd(s[..|s| - 1]) else s
  }

  function Trim(s: string): string { TrimEnd(TrimStart(s)) }

  /** One carriage return at the end goes. */
  function DropCr(s: string): string {
    if s != [] && s[|s| - 1] == '\r' then s[..|s| - 1] else s
  }

  function Find(s: string, c: char): (r: Option<nat>)
    ensures r.Some? ==> r.value < |s| && s[r.value] == c && c !in s[..r.value]
    ensures r.None? ==> c !in s
  {
    if s == [] then None
    else if s[0] == c then Some(0)
    else
      match Find(s[1..], c)
      case None => None
      case Some(i) =>
        assert s[..i + 1] == [s[0]] + s[1..][..i];
        Some(i + 1)
  }

  /** The parts of the text between line feeds. */
  function SplitLines(s: string): (r: seq<string>)
    ensures r != []
    decreases |s|
  {
    match Find(s, '\n')
    case None => [s]
    case Some(i) => [s[..i]] + SplitLines(s[i + 1..])
  }

  /** The lines of a text: a line feed at the end starts no line. */
  function Lines(s: string): seq<string> {
    SplitLines(if s != [] && s[|s| - 1] == '\n' then s[..|s| - 1] else s)
  }

  // --- Lines ------------------------------------------------------------------

  datatype Reason = NotClosed | TrailingText | EmptyGroup | BadGroup | NoPair | EmptyKey | NoGroup

  datatype Line = Skip | Header(name: string) | Entry(key: string, value: string) | Wrong(reason: Reason)

  function ReadHeader(rest: string): Line {
    match Find(rest, ']')
    case None => Wrong(NotClosed)
    case Some(close) =>
      if Trim(rest[close + 1..]) != [] then Wrong(TrailingText)
      else if close == 0 then Wrong(EmptyGroup)
      else if '[' in rest[..close] then Wrong(BadGroup)
      else Header(rest[..close])
  }

  function ReadLine(raw: string): Line {
    var line := DropCr(raw);
    var trimmed := Trim(line);
    if trimmed == [] || trimmed[0] == '#' then Skip
    else if trimmed[0] == '[' then ReadHeader(trimmed[1..])
    else
      match Find(line, '=')
      case None => Wrong(NoPair)
      case Some(eq) =>
        var key := Trim(line[..eq]);
        if key == [] then Wrong(EmptyKey) else Entry(key, TrimStart(line[eq + 1..]))
  }

  // --- Files ------------------------------------------------------------------

  type Entries = seq<(string, string)>

  datatype Group = Group(name: string, entries: Entries)

  type File = seq<Group>

  function GroupPos(f: File, name: string): (r: Option<nat>)
    ensures r.Some? ==> r.value < |f| && f[r.value].name == name
    ensures r.None? <==> forall i :: 0 <= i < |f| ==> f[i].name != name
  {
    if f == [] then None
    else if f[|f| - 1].name == name then Some(|f| - 1)
    else GroupPos(f[..|f| - 1], name)
  }

  function KeyPos(es: Entries, key: string): (r: Option<nat>)
    ensures r.Some? ==> r.value < |es| && es[r.value].0 == key
    ensures r.None? <==> forall i :: 0 <= i < |es| ==> es[i].0 != key
  {
    if es == [] then None
    else if es[|es| - 1].0 == key then Some(|es| - 1)
    else KeyPos(es[..|es| - 1], key)
  }

  predicate DistinctNames(f: File) {
    forall i, j :: 0 <= i < j < |f| ==> f[i].name != f[j].name
  }

  predicate DistinctKeys(es: Entries) {
    forall i, j :: 0 <= i < j < |es| ==> es[i].0 != es[j].0
  }

  /** No group name twice, and no key twice in a group. */
  predicate Distinct(f: File) {
    DistinctNames(f) && forall i :: 0 <= i < |f| ==> DistinctKeys(f[i].entries)
  }

  function WithGroup(f: File, name: string): File {
    if GroupPos(f, name).Some? then f else f + [Group(name, [])]
  }

  /** A present key keeps its position, a new one comes last. */
  function PutEntry(es: Entries, key: string, value: string): Entries {
    match KeyPos(es, key)
    case Some(i) => es[i := (key, value)]
    case None => es + [(key, value)]
  }

  function PutAt(f: File, i: nat, key: string, value: string): File
    requires i < |f|
  {
    f[i := f[i].(entries := PutEntry(f[i].entries, key, value))]
  }

  function Put(f: File, group: string, key: string, value: string): File {
    var g := WithGroup(f, group);
    PutAt(g, GroupPos(g, group).value, key, value)
  }

  function Lookup(f: File, group: string, key: string): Option<string> {
    match GroupPos(f, group)
    case None => None
    case Some(i) =>
      match KeyPos(f[i].entries, key)
      case None => None
      case Some(j) => Some(f[i].entries[j].1)
  }

  function DropKey(f: File, group: string, key: string): File {
    match GroupPos(f, group)
    case None => f
    case Some(i) =>
      match KeyPos(f[i].entries, key)
      case None => f
      case Some(j) => f[i := f[i].(entries := Without(f[i].entries, j))]
  }

  function DropGroup(f: File, group: string): File {
    match GroupPos(f, group)
    case None => f
    case Some(i) => f[..i] + f[i + 1..]
  }

  // --- The parser -------------------------------------------------------------

  datatype Scan = Bad(line: nat, reason: Reason) | Good(file: File, current: Option<nat>, lines: nat)

  function StepLine(st: Scan, raw: string): Scan {
    match st
    case Bad(_, _) => st
    case Good(f, current, n) =>
      match ReadLine(raw)
      case Skip => Good(f, current, n + 1)
      case Wrong(reason) => Bad(n + 1, reason)
      case Header(name) => Good(WithGroup(f, name), GroupPos(WithGroup(f, name), name), n + 1)
      case Entry(key, value) =>
        match current
        case None => Bad(n + 1, NoGroup)
        case Some(i) => if i < |f| then Good(PutAt(f, i, key, value), current, n + 1) else st
  }

  const START: Scan := Good([], None, 0)

  function ScanLines(st: Scan, lines: seq<string>): Scan { Fold(StepLine, st, lines) }

  function ParseText(input: string): Scan { ScanLines(START, Lines(input)) }

  // --- The printer ------------------------------------------------------------

  function EntryLine(e: (string, string)): string { e.0 + ['='] + e.1 }

  function EntryLines(es: Entries): seq<string> {
    if es == [] then [] else EntryLines(es[..|es| - 1]) + [EntryLine(es[|es| - 1])]
  }

  function HeaderLine(name: string): string { ['['] + name + [']'] }

  /** The lines of a file: a blank line between two groups. */
  function PrintLines(f: File): seq<string> {
    if f == [] then []
    else
      PrintLines(f[..|f| - 1]) + (if |f| > 1 then [[]] else [])
      + [HeaderLine(f[|f| - 1].name)] + EntryLines(f[|f| - 1].entries)
  }

  function Unlines(lines: seq<string>): string {
    if lines == [] then [] else Unlines(lines[..|lines| - 1]) + lines[|lines| - 1] + ['\n']
  }

  function Print(f: File): string { Unlines(PrintLines(f)) }

  // --- What every file keeps ---------------------------------------------------

  predicate NameFine(name: string) {
    name != [] && '[' !in name && ']' !in name && '\n' !in name
  }

  predicate KeyFine(key: string) {
    && key != [] && !IsWs(key[0]) && !IsWs(key[|key| - 1]) && key[0] != '#' && key[0] != '['
    && '=' !in key && '\n' !in key
  }

  predicate ValueFine(v: string) {
    '\n' !in v && (v != [] ==> !IsWs(v[0]))
  }

  predicate EntriesFine(es: Entries) {
    forall i :: 0 <= i < |es| ==> KeyFine(es[i].0) && ValueFine(es[i].1)
  }

  /** Every file that the parser and the setters make. */
  predicate WellFormed(f: File) {
    Distinct(f) && forall i :: 0 <= i < |f| ==> NameFine(f[i].name) && EntriesFine(f[i].entries)
  }

  /** No value ends in a carriage return. */
  predicate NoCr(f: File) {
    forall i, j :: 0 <= i < |f| && 0 <= j < |f[i].entries| ==> DropCr(f[i].entries[j].1) == f[i].entries[j].1
  }

  function StripEntries(es: Entries): (r: Entries)
    ensures |r| == |es| && forall i :: 0 <= i < |es| ==> r[i] == (es[i].0, DropCr(es[i].1))
  {
    seq(|es|, i requires 0 <= i < |es| => (es[i].0, DropCr(es[i].1)))
  }

  /** Each value without one carriage return at its end. */
  function StripAll(f: File): (r: File)
    ensures |r| == |f| && forall i :: 0 <= i < |f| ==> r[i] == Group(f[i].name, StripEntries(f[i].entries))
  {
    seq(|f|, i requires 0 <= i < |f| => Group(f[i].name, StripEntries(f[i].entries)))
  }

  lemma {:induction false} StripIsEqual(f: File)
    ensures StripAll(f) == f <==> NoCr(f)
  {
    if NoCr(f) {
      forall i | 0 <= i < |f|
        ensures StripAll(f)[i] == f[i]
      {
        forall j | 0 <= j < |f[i].entries|
          ensures StripEntries(f[i].entries)[j] == f[i].entries[j]
        {
        }
      }
    }
    if StripAll(f) == f {
      forall i, j | 0 <= i < |f| && 0 <= j < |f[i].entries|
        ensures DropCr(f[i].entries[j].1) == f[i].entries[j].1
      {
        assert StripAll(f)[i] == f[i];
        assert StripEntries(f[i].entries)[j] == f[i].entries[j];
      }
    }
  }

  // --- One printed line reads back ---------------------------------------------

  lemma {:induction false} FindAt(s: string, c: char, i: nat)
    requires i < |s| && s[i] == c && c !in s[..i]
    ensures Find(s, c) == Some(i)
  {
    assert s[i] in s;
  }

  lemma {:induction false} TrimStartKeeps(s: string)
    requires s != [] ==> !IsWs(s[0])
    ensures TrimStart(s) == s
  {
  }

  lemma {:induction false} TrimKeeps(s: string)
    requires s != [] ==> !IsWs(s[0]) && !IsWs(s[|s| - 1])
    ensures Trim(s) == s
  {
  }

  /** Text that starts with no white space keeps its start. */
  lemma {:induction false} TrimEndKeepsStart(s: string)
    requires s != [] && !IsWs(s[0])
    ensures TrimEnd(s) != [] && TrimEnd(s)[0] == s[0]
  {
    if IsWs(s[|s| - 1]) {
      TrimEndKeepsStart(s[..|s| - 1]);
    }
  }

  lemma {:induction false} HeaderReads(name: string)
    requires NameFine(name)
    ensures ReadLine(HeaderLine(name)) == Header(name)
  {
    var line, rest := HeaderLine(name), name + [']'];
    TrimKeeps(line);
    assert line == ['['] + rest;
    assert line[1..] == rest && rest[..|name|] == name;
    FindAt(rest, ']', |name|);
    assert rest[|name| + 1..] == [];
  }

  lemma {:induction false} LineParts(key: string, v: string, line: string)
    requires KeyFine(key) && line == key + ['='] + v
    ensures Find(line, '=') == Some(|key|) && line[..|key|] == key && line[|key| + 1..] == v
    ensures Trim(line) != [] && Trim(line)[0] == key[0]
  {
    assert line[..|key|] == key;
    FindAt(line, '=', |key|);
    TrimStartKeeps(line);
    TrimEndKeepsStart(line);
  }

  lemma {:induction false} LineWithoutCr(key: string, v: string)
    requires KeyFine(key)
    ensures DropCr(EntryLine((key, v))) == key + ['='] + DropCr(v)
  {
    var line := EntryLine((key, v));
    if v != [] && v[|v| - 1] == '\r' {
      assert line[..|line| - 1] == key + ['='] + v[..|v| - 1];
    }
  }

  lemma {:induction false} EntryReads(key: string, v: string)
    requires KeyFine(key) && ValueFine(v)
    ensures ReadLine(EntryLine((key, v))) == Entry(key, DropCr(v))
  {
    LineWithoutCr(key, v);
    LineParts(key, DropCr(v), DropCr(EntryLine((key, v))));
    TrimKeeps(key);
    TrimStartKeeps(DropCr(v));
  }

  // --- The lines of a printed text ---------------------------------------------

  predicate PlainLines(lines: seq<string>) {
    forall i :: 0 <= i < |lines| ==> '\n' !in lines[i]
  }

  /** The text of some lines without the last line feed. */
  function Joined(lines: seq<string>): string
    requires lines != []
  {
    Unlines(lines[..|lines| - 1]) + lines[|lines| - 1]
  }

  lemma {:induction false} UnlinesFirst(lines: seq<string>)
    requires lines != []
    ensures Unlines(lines) == lines[0] + ['\n'] + Unlines(lines[1..])
    decreases |lines|
  {
    if |lines| == 1 {
      assert lines[1..] == [] && lines[..0] == [];
      assert [] + lines[0] + ['\n'] == lines[0] + ['\n'] + [];
    } else {
      var init, last := lines[..|lines| - 1], lines[|lines| - 1];
      UnlinesFirst(init);
      assert lines[1..][..|lines| - 2] == init[1..] && lines[1..][|lines| - 2] == last;
      var head, mid, tail := lines[0] + ['\n'], Unlines(init[1..]), last + ['\n'];
      assert (head + mid) + last + ['\n'] == head + (mid + last + ['\n']);
    }
  }

  lemma {:induction false} JoinedFirst(lines: seq<string>)
    requires |lines| >= 2
    ensures Joined(lines) == lines[0] + ['\n'] + Joined(lines[1..])
  {
    var init, last := lines[..|lines| - 1], lines[|lines| - 1];
    UnlinesFirst(init);
    assert lines[1..][..|lines| - 2] == init[1..] && lines[1..][|lines| - 2] == last;
    var head, mid := lines[0] + ['\n'], Unlines(init[1..]);
    assert (head + mid) + last == head + (mid + last);
  }

  lemma {:induction false} FirstLine(a: string, b: string, t: string)
    requires '\n' !in a && t == a + ['\n'] + b
    ensures SplitLines(t) == [a] + SplitLines(b)
  {
    assert t[..|a|] == a && t[|a| + 1..] == b;
    FindAt(t, '\n', |a|);
  }

  lemma {:induction false} SplitJoined(lines: seq<string>)
    requires lines != [] && PlainLines(lines)
    ensures SplitLines(Joined(lines)) == lines
    decreases |lines|
  {
    if |lines| == 1 {
      assert Joined(lines) == lines[0];
      assert lines == [lines[0]];
    } else {
      JoinedFirst(lines);
      SplitJoined(lines[1..]);
      FirstLine(lines[0], Joined(lines[1..]), Joined(lines));
      assert lines == [lines[0]] + lines[1..];
    }
  }

  lemma {:induction false} LinesOfUnlines(lines: seq<string>)
    requires PlainLines(lines)
    ensures Lines(Unlines(lines)) == if lines == [] then [[]] else lines
  {
    if lines != [] {
      var text := Unlines(lines);
      assert text[..|text| - 1] == Joined(lines);
      SplitJoined(lines);
    }
  }

  // --- Parsing what was printed ------------------------------------------------

  lemma {:induction false} ScanSnoc(st: Scan, lines: seq<string>, raw: string)
    ensures ScanLines(st, lines + [raw]) == StepLine(ScanLines(st, lines), raw)
  {
    assert (lines + [raw])[..|lines|] == lines;
  }

  lemma {:induction false} ScanConcat(st: Scan, a: seq<string>, b: seq<string>)
    ensures ScanLines(st, a + b) == ScanLines(ScanLines(st, a), b)
  {
    FoldConcat(StepLine, st, a, b);
  }

  lemma {:induction false} AppendsNew(es: Entries, key: string, value: string)
    requires forall i :: 0 <= i < |es| ==> es[i].0 != key
    ensures PutEntry(es, key, value) == es + [(key, value)]
  {
  }

  /** The state in the middle of the entries of the last group. */
  ghost predicate InGroup(st: Scan, f: File, name: string, es: Entries) {
    st.Good? && st.file == f + [Group(name, es)] && st.current == Some(|f|)
  }

  lemma {:induction false} EntryStep(st: Scan, f: File, name: string, es: Entries, key: string, value: string)
    requires InGroup(st, f, name, es)
    requires KeyFine(key) && ValueFine(value) && forall i :: 0 <= i < |es| ==> es[i].0 != key
    ensures InGroup(StepLine(st, EntryLine((key, value))), f, name, es + [(key, DropCr(value))])
  {
    EntryReads(key, value);
    AppendsNew(es, key, DropCr(value));
    assert PutAt(st.file, |f|, key, DropCr(value)) == f + [Group(name, es + [(key, DropCr(value))])];
  }

  lemma {:induction false} StripSnoc(es: Entries, e: (string, string))
    ensures StripEntries(es + [e]) == StripEntries(es) + [(e.0, DropCr(e.1))]
  {
  }

  lemma {:induction false} EntriesScan(st: Scan, f: File, name: string, es: Entries)
    requires InGroup(st, f, name, []) && EntriesFine(es) && DistinctKeys(es)
    ensures InGroup(ScanLines(st, EntryLines(es)), f, name, StripEntries(es))
    decreases |es|
  {
    if es == [] {
      assert StripEntries(es) == [];
    } else {
      var init, last := es[..|es| - 1], es[|es| - 1];
      InitEntries(es, init, last);
      EntriesScan(st, f, name, init);
      ScanSnoc(st, EntryLines(init), EntryLine(last));
      EntryStep(ScanLines(st, EntryLines(init)), f, name, StripEntries(init), last.0, last.1);
      StripSnoc(init, last);
    }
  }

  lemma {:induction false} InitEntries(es: Entries, init: Entries, last: (string, string))
    requires es != [] && init == es[..|es| - 1] && last == es[|es| - 1] && EntriesFine(es) && DistinctKeys(es)
    ensures es == init + [last] && EntriesFine(init) && DistinctKeys(init) && KeyFine(last.0) && ValueFine(last.1)
    ensures forall i :: 0 <= i < |init| ==> init[i].0 != last.0
  {
  }

  lemma {:induction false} HeaderStep(st: Scan, name: string)
    requires st.Good? && NameFine(name) && forall i :: 0 <= i < |st.file| ==> st.file[i].name != name
    ensures InGroup(StepLine(st, HeaderLine(name)), st.file, name, [])
  {
    HeaderReads(name);
    var g := st.file + [Group(name, [])];
    assert g[|g| - 1].name == name;
  }

  lemma {:induction false} GroupScan(st: Scan, g: Group)
    requires st.Good? && NameFine(g.name) && EntriesFine(g.entries) && DistinctKeys(g.entries)
    requires forall i :: 0 <= i < |st.file| ==> st.file[i].name != g.name
    ensures InGroup(ScanLines(st, [HeaderLine(g.name)] + EntryLines(g.entries)), st.file, g.name,
            StripEntries(g.entries))
  {
    var header := [HeaderLine(g.name)];
    ScanConcat(st, header, EntryLines(g.entries));
    ScanSnoc(st, [], HeaderLine(g.name));
    assert [] + [HeaderLine(g.name)] == header;
    HeaderStep(st, g.name);
    EntriesScan(ScanLines(st, header), st.file, g.name, g.entries);
  }

  /** The scan has read the file. */
  ghost predicate ScansTo(st: Scan, f: File) {
    st.Good? && st.file == f
  }

  lemma {:induction false} StripAllSnoc(f: File, g: Group)
    ensures StripAll(f + [g]) == StripAll(f) + [Group(g.name, StripEntries(g.entries))]
  {
  }

  /** The printed lines of one more group. */
  lemma {:induction false} OneMoreGroup(st: Scan, f: File, g: Group, blank: seq<string>)
    requires ScansTo(st, StripAll(f)) && (blank == [] || blank == [[]])
    requires NameFine(g.name) && EntriesFine(g.entries) && DistinctKeys(g.entries)
    requires forall i :: 0 <= i < |f| ==> f[i].name != g.name
    ensures ScansTo(ScanLines(st, blank + ([HeaderLine(g.name)] + EntryLines(g.entries))), StripAll(f + [g]))
  {
    BlankScan(st, blank);
    ScanConcat(st, blank, [HeaderLine(g.name)] + EntryLines(g.entries));
    GroupScan(ScanLines(st, blank), g);
    StripAllSnoc(f, g);
  }

  lemma {:induction false} PrintSnoc(f: File, g: Group)
    ensures PrintLines(f + [g]) ==
            PrintLines(f) + ((if f != [] then [[]] else []) + ([HeaderLine(g.name)] + EntryLines(g.entries)))
  {
    assert (f + [g])[..|f|] == f;
  }

  lemma {:induction false} FileScan(f: File)
    requires WellFormed(f)
    ensures ScansTo(ScanLines(START, PrintLines(f)), StripAll(f))
    decreases |f|
  {
    if f == [] {
      assert StripAll(f) == [];
    } else {
      var init, last := f[..|f| - 1], f[|f| - 1];
      assert f == init + [last];
      FileScan(init);
      PrintSnoc(init, last);
      var blank := if init != [] then [[]] else [];
      ScanConcat(START, PrintLines(init), blank + ([HeaderLine(last.name)] + EntryLines(last.entries)));
      OneMoreGroup(ScanLines(START, PrintLines(init)), init, last, blank);
    }
  }

  lemma {:induction false} BlankScan(st: Scan, blank: seq<string>)
    requires st.Good? && (blank == [] || blank == [[]])
    ensures ScansTo(ScanLines(st, blank), st.file)
  {
    if blank == [[]] {
      ScanSnoc(st, [], []);
      assert [] + [[]] == blank;
    }
  }

  lemma {:induction false} PlainConcat(a: seq<string>, b: seq<string>)
    requires PlainLines(a) && PlainLines(b)
    ensures PlainLines(a + b)
  {
  }

  lemma {:induction false} EntryLinesPlain(es: Entries)
    requires EntriesFine(es)
    ensures PlainLines(EntryLines(es))
  {
    if es != [] {
      EntryLinesPlain(es[..|es| - 1]);
      PlainConcat(EntryLines(es[..|es| - 1]), [EntryLine(es[|es| - 1])]);
    }
  }

  lemma {:induction false} GroupLinesPlain(g: Group, blank: seq<string>)
    requires NameFine(g.name) && EntriesFine(g.entries) && (blank == [] || blank == [[]])
    ensures PlainLines(blank + ([HeaderLine(g.name)] + EntryLines(g.entries)))
  {
    EntryLinesPlain(g.entries);
    PlainConcat([HeaderLine(g.name)], EntryLines(g.entries));
    PlainConcat(blank, [HeaderLine(g.name)] + EntryLines(g.entries));
  }

  lemma {:induction false} PrintLinesPlain(f: File)
    requires WellFormed(f)
    ensures PlainLines(PrintLines(f))
  {
    if f != [] {
      var init, last := f[..|f| - 1], f[|f| - 1];
      assert f == init + [last];
      PrintLinesPlain(init);
      PrintSnoc(init, last);
      var blank := if init != [] then [[]] else [];
      GroupLinesPlain(last, blank);
      PlainConcat(PrintLines(init), blank + ([HeaderLine(last.name)] + EntryLines(last.entries)));
    }
  }

  /**
   Parsing the printed text of a file gives the file, without the carriage
   returns that end a value. So it gives an equal file exactly if no value ends
   in a carriage return.
   */
  lemma {:induction false} ParsePrint(f: File)
    requires WellFormed(f)
    ensures ParseText(Print(f)).Good? && ParseText(Print(f)).file == StripAll(f)
    ensures ParseText(Print(f)).file == f <==> NoCr(f)
  {
    PrintLinesPlain(f);
    LinesOfUnlines(PrintLines(f));
    FileScan(f);
    StripIsEqual(f);
    if f == [] {
      BlankScan(START, [[]]);
      assert StripAll(f) == [];
    }
  }

  function OneEntry(name: string, key: string, value: string): File { [Group(name, [(key, value)])] }

  lemma {:induction false} OneEntryReads(name: string, key: string, value: string)
    requires NameFine(name) && KeyFine(key) && ValueFine(value)
    ensures ParseText(Print(OneEntry(name, key, value))).Good?
    ensures ParseText(Print(OneEntry(name, key, value))).file == OneEntry(name, key, DropCr(value))
  {
    ParsePrint(OneEntry(name, key, value));
    assert StripEntries([(key, value)]) == [(key, DropCr(value))];
    assert StripAll(OneEntry(name, key, value)) == OneEntry(name, key, DropCr(value));
  }

  lemma {:induction false} OneEntryTells(name: string, key: string, a: string, b: string)
    requires |a| != |b|
    ensures OneEntry(name, key, a) != OneEntry(name, key, b)
  {
    assert OneEntry(name, key, a)[0].entries[0].1 == a;
    assert OneEntry(name, key, b)[0].entries[0].1 == b;
  }

  /** The round trip does fail: the parser makes values that end in a carriage return, and printing one loses it. */
  lemma {:induction false} CrIsLost(name: string, key: string, v: string, cr: string, crcr: string)
    requires NameFine(name) && KeyFine(key) && ValueFine(v) && cr == v + ['\r'] && crcr == cr + ['\r']
    ensures ParseText(Print(OneEntry(name, key, crcr))).Good?
    ensures ParseText(Print(OneEntry(name, key, crcr))).file == OneEntry(name, key, cr)
    ensures ParseText(Print(OneEntry(name, key, cr))).Good?
    ensures ParseText(Print(OneEntry(name, key, cr))).file == OneEntry(name, key, v) != OneEntry(name, key, cr)
  {
    assert DropCr(cr) == v && DropCr(crcr) == cr;
    OneEntryReads(name, key, cr);
    OneEntryReads(name, key, crcr);
    OneEntryTells(name, key, v, cr);
  }

  // --- What the operations keep ------------------------------------------------

  lemma {:induction false} TrimParts(s: string)
    ensures Trim(s) != [] ==> !IsWs(Trim(s)[0]) && !IsWs(Trim(s)[|Trim(s)| - 1])
    ensures forall c :: c in Trim(s) ==> c in s
    ensures Trim(s) != [] ==> TrimStart(s) != [] && Trim(s)[0] == TrimStart(s)[0]
  {
    TrimStartParts(s);
    TrimEndParts(TrimStart(s));
  }

  lemma {:induction false} TrimStartParts(s: string)
    ensures TrimStart(s) != [] ==> !IsWs(TrimStart(s)[0])
    ensures forall c :: c in TrimStart(s) ==> c in s
  {
    if s != [] && IsWs(s[0]) {
      TrimStartParts(s[1..]);
    }
  }

  lemma {:induction false} TrimEndParts(s: string)
    ensures TrimEnd(s) != [] ==> !IsWs(TrimEnd(s)[|TrimEnd(s)| - 1]) && s != [] && TrimEnd(s)[0] == s[0]
    ensures forall c :: c in TrimEnd(s) ==> c in s
  {
    if s != [] && IsWs(s[|s| - 1]) {
      TrimEndParts(s[..|s| - 1]);
    }
  }

  /** The start of a line is the start of its key. */
  lemma {:induction false} KeyStartsLine(line: string, eq: nat)
    requires eq <= |line| && Trim(line[..eq]) != []
    ensures Trim(line) != [] && Trim(line)[0] == Trim(line[..eq])[0]
    decreases |line|
  {
    TrimParts(line[..eq]);
    if IsWs(line[0]) {
      assert line[..eq][1..] == line[1..][..eq - 1];
      KeyStartsLine(line[1..], eq - 1);
    } else {
      TrimEndKeepsStart(line);
    }
  }

  /** What the parser takes from a line without a line feed is fine. */
  lemma {:induction false} ReadLineFine(raw: string)
    requires '\n' !in raw
    ensures ReadLine(raw).Header? ==> NameFine(ReadLine(raw).name)
    ensures ReadLine(raw).Entry? ==> KeyFine(ReadLine(raw).key) && ValueFine(ReadLine(raw).value)
  {
    var line := DropCr(raw);
    assert '\n' !in line;
    TrimParts(line);
    if ReadLine(raw).Header? {
      assert '\n' !in Trim(line)[1..];
    }
    if ReadLine(raw).Entry? {
      var eq := Find(line, '=').value;
      TrimParts(line[..eq]);
      KeyStartsLine(line, eq);
      TrimStartParts(line[eq + 1..]);
    }
  }

  lemma {:induction false} SplitLinesPlain(s: string)
    ensures PlainLines(SplitLines(s))
    decreases |s|
  {
    if Find(s, '\n').Some? {
      SplitLinesPlain(s[Find(s, '\n').value + 1..]);
    }
  }

  lemma {:induction false} GroupPosIs(f: File, i: nat)
    requires DistinctNames(f) && i < |f|
    ensures GroupPos(f, f[i].name) == Some(i)
  {
    assert GroupPos(f, f[i].name).Some?;
  }

  lemma {:induction false} KeyPosIs(es: Entries, i: nat)
    requires DistinctKeys(es) && i < |es|
    ensures KeyPos(es, es[i].0) == Some(i)
  {
    assert KeyPos(es, es[i].0).Some?;
  }

  lemma {:induction false} PutEntryKeeps(es: Entries, key: string, value: string)
    requires DistinctKeys(es) && EntriesFine(es) && KeyFine(key) && ValueFine(value)
    ensures DistinctKeys(PutEntry(es, key, value)) && EntriesFine(PutEntry(es, key, value))
  {
    PutEntryDistinct(es, key, value);
    var put := PutEntry(es, key, value);
    forall j | 0 <= j < |put|
      ensures KeyFine(put[j].0) && ValueFine(put[j].1)
    {
      assert put[j] == (key, value) || (j < |es| && put[j] == es[j]);
    }
  }

  lemma {:induction false} PutEntryDistinct(es: Entries, key: string, value: string)
    requires DistinctKeys(es)
    ensures DistinctKeys(PutEntry(es, key, value))
  {
  }

  lemma {:induction false} WithGroupKeeps(f: File, name: string)
    requires WellFormed(f) && NameFine(name)
    ensures WellFormed(WithGroup(f, name)) && GroupPos(WithGroup(f, name), name).Some?
  {
    var g := WithGroup(f, name);
    if GroupPos(f, name).None? {
      assert g[|g| - 1].name == name;
    }
  }

  /** New entries in one group. */
  lemma {:induction false} ReplaceKeeps(f: File, i: nat, es: Entries)
    requires WellFormed(f) && i < |f| && DistinctKeys(es) && EntriesFine(es)
    ensures WellFormed(f[i := f[i].(entries := es)])
  {
    var g := f[i := f[i].(entries := es)];
    forall j | 0 <= j < |g|
      ensures g[j].name == f[j].name && DistinctKeys(g[j].entries) && NameFine(g[j].name) && EntriesFine(g[j].entries)
    {
    }
  }

  lemma {:induction false} PutAtKeeps(f: File, i: nat, key: string, value: string)
    requires WellFormed(f) && i < |f| && KeyFine(key) && ValueFine(value)
    ensures WellFormed(PutAt(f, i, key, value))
  {
    PutEntryKeeps(f[i].entries, key, value);
    ReplaceKeeps(f, i, PutEntry(f[i].entries, key, value));
  }

  lemma {:induction false} PutKeeps(f: File, group: string, key: string, value: string)
    requires WellFormed(f) && NameFine(group) && KeyFine(key) && ValueFine(value)
    ensures WellFormed(Put(f, group, key, value))
  {
    WithGroupKeeps(f, group);
    var g := WithGroup(f, group);
    PutAtKeeps(g, GroupPos(g, group).value, key, value);
  }

  predicate EntriesNoCr(es: Entries) {
    forall j :: 0 <= j < |es| ==> DropCr(es[j].1) == es[j].1
  }

  predicate GroupsNoCr(f: File) {
    forall i :: 0 <= i < |f| ==> EntriesNoCr(f[i].entries)
  }

  lemma {:induction false} NoCrByGroups(f: File)
    ensures NoCr(f) <==> GroupsNoCr(f)
  {
    if GroupsNoCr(f) {
      forall i, j | 0 <= i < |f| && 0 <= j < |f[i].entries|
        ensures DropCr(f[i].entries[j].1) == f[i].entries[j].1
      {
        assert EntriesNoCr(f[i].entries);
      }
    }
  }

  lemma {:induction false} ReplaceNoCr(f: File, i: nat, es: Entries)
    requires GroupsNoCr(f) && i < |f| && EntriesNoCr(es)
    ensures GroupsNoCr(f[i := f[i].(entries := es)])
  {
    var g := f[i := f[i].(entries := es)];
    forall m | 0 <= m < |g|
      ensures EntriesNoCr(g[m].entries)
    {
      assert m != i ==> g[m] == f[m] && EntriesNoCr(f[m].entries);
    }
  }

  lemma {:induction false} PutEntryNoCr(es: Entries, key: string, value: string)
    requires EntriesNoCr(es) && DropCr(value) == value
    ensures EntriesNoCr(PutEntry(es, key, value))
  {
  }

  lemma {:induction false} WithGroupNoCr(f: File, name: string)
    requires GroupsNoCr(f)
    ensures GroupsNoCr(WithGroup(f, name))
  {
  }

  lemma {:induction false} PutNoCr(f: File, group: string, key: string, value: string)
    requires NoCr(f) && DropCr(value) == value
    ensures NoCr(Put(f, group, key, value))
  {
    NoCrByGroups(f);
    WithGroupNoCr(f, group);
    var g := WithGroup(f, group);
    var i := GroupPos(g, group).value;
    PutEntryNoCr(g[i].entries, key, value);
    ReplaceNoCr(g, i, PutEntry(g[i].entries, key, value));
    NoCrByGroups(Put(f, group, key, value));
  }

  function Without(es: Entries, j: nat): Entries
    requires j < |es|
  {
    es[..j] + es[j + 1..]
  }

  lemma {:induction false} WithoutKeeps(es: Entries, j: nat)
    requires j < |es| && DistinctKeys(es) && EntriesFine(es)
    ensures DistinctKeys(Without(es, j)) && EntriesFine(Without(es, j))
    ensures EntriesNoCr(es) ==> EntriesNoCr(Without(es, j))
  {
    var r := Without(es, j);
    forall m | 0 <= m < |r|
      ensures r[m] == es[if m < j then m else m + 1]
    {
    }
  }

  lemma {:induction false} DropKeyKeeps(f: File, group: string, key: string)
    requires WellFormed(f)
    ensures WellFormed(DropKey(f, group, key)) && (NoCr(f) ==> NoCr(DropKey(f, group, key)))
  {
    if GroupPos(f, group).Some? {
      var i := GroupPos(f, group).value;
      if KeyPos(f[i].entries, key).Some? {
        var es := Without(f[i].entries, KeyPos(f[i].entries, key).value);
        WithoutKeeps(f[i].entries, KeyPos(f[i].entries, key).value);
        ReplaceKeeps(f, i, es);
        NoCrByGroups(f);
        if NoCr(f) {
          ReplaceNoCr(f, i, es);
        }
        NoCrByGroups(f[i := f[i].(entries := es)]);
      }
    }
  }

  lemma {:induction false} DropGroupKeeps(f: File, group: string)
    requires WellFormed(f)
    ensures WellFormed(DropGroup(f, group)) && (NoCr(f) ==> NoCr(DropGroup(f, group)))
  {
    if GroupPos(f, group).Some? {
      var i, g := GroupPos(f, group).value, DropGroup(f, group);
      forall m | 0 <= m < |g|
        ensures g[m] == f[if m < i then m else m + 1]
      {
      }
      NoCrByGroups(f);
      NoCrByGroups(g);
    }
  }

  /** What the scan keeps. */
  ghost predicate ScanFine(st: Scan) {
    st.Good? ==> WellFormed(st.file) && (st.current.Some? ==> st.current.value < |st.file|)
  }

  lemma {:induction false} StepKeeps(st: Scan, raw: string)
    requires ScanFine(st) && '\n' !in raw
    ensures ScanFine(StepLine(st, raw))
  {
    ReadLineFine(raw);
    if st.Good? {
      match ReadLine(raw)
      case Header(name) => WithGroupKeeps(st.file, name);
      case Entry(key, value) =>
        if st.current.Some? {
          PutAtKeeps(st.file, st.current.value, key, value);
        }
      case _ =>
    }
  }

  lemma {:induction false} ScanKeeps(lines: seq<string>)
    requires PlainLines(lines)
    ensures ScanFine(ScanLines(START, lines))
  {
    if lines != [] {
      var init, last := lines[..|lines| - 1], lines[|lines| - 1];
      ScanKeeps(init);
      assert lines == init + [last];
      ScanSnoc(START, init, last);
      StepKeeps(ScanLines(START, init), last);
    }
  }

  /** Every parsed file is well formed. */
  lemma {:induction false} ParsedIsWellFormed(input: string)
    ensures ParseText(input).Good? ==> WellFormed(ParseText(input).file)
  {
    SplitLinesPlain(if input != [] && input[|input| - 1] == '\n' then input[..|input| - 1] else input);
    ScanKeeps(Lines(input));
  }

  // --- Lookups ----------------------------------------------------------------

  function ValueIn(es: Entries, key: string): Option<string> {
    match KeyPos(es, key)
    case None => None
    case Some(j) => Some(es[j].1)
  }

  lemma {:induction false} ValueAfterPut(es: Entries, key: string, value: string, k: string)
    requires DistinctKeys(es)
    ensures ValueIn(PutEntry(es, key, value), k) == if k == key then Some(value) else ValueIn(es, k)
  {
    var put := PutEntry(es, key, value);
    assert DistinctKeys(put);
    if k == key {
      var i := match KeyPos(es, key) case Some(j) => j case None => |es|;
      KeyPosIs(put, i);
    } else if KeyPos(es, k).Some? {
      KeyPosIs(put, KeyPos(es, k).value);
    }
  }

  lemma {:induction false} LookupAt(f: File, i: nat, key: string)
    requires DistinctNames(f) && i < |f|
    ensures Lookup(f, f[i].name, key) == ValueIn(f[i].entries, key)
  {
    GroupPosIs(f, i);
  }

  lemma {:induction false} LookupWithGroup(f: File, name: string, g: string, k: string)
    requires DistinctNames(f)
    ensures DistinctNames(WithGroup(f, name))
    ensures Lookup(WithGroup(f, name), g, k) == Lookup(f, g, k)
  {
    var h := WithGroup(f, name);
    if GroupPos(f, g).Some? {
      var i := GroupPos(f, g).value;
      GroupPosIs(h, i);
    } else if GroupPos(h, g).Some? {
      LookupAt(h, GroupPos(h, g).value, k);
    }
  }

  lemma {:induction false} LookupReplaced(f: File, i: nat, es: Entries, g: string, k: string)
    requires DistinctNames(f) && i < |f|
    ensures Lookup(f[i := f[i].(entries := es)], g, k) == if g == f[i].name then ValueIn(es, k) else Lookup(f, g, k)
  {
    var h := f[i := f[i].(entries := es)];
    assert DistinctNames(h) && forall m :: 0 <= m < |h| ==> h[m].name == f[m].name;
    if g == f[i].name {
      LookupAt(h, i, k);
    } else if GroupPos(f, g).Some? {
      GroupPosIs(h, GroupPos(f, g).value);
    }
  }

  /** A put value is found, and every other lookup stays. */
  lemma {:induction false} LookupAfterPut(f: File, group: string, key: string, value: string, g: string, k: string)
    requires Distinct(f)
    ensures Lookup(Put(f, group, key, value), g, k) == if g == group && k == key then Some(value) else Lookup(f, g, k)
  {
    LookupWithGroup(f, group, g, k);
    var h := WithGroup(f, group);
    var i := GroupPos(h, group).value;
    LookupReplaced(h, i, PutEntry(h[i].entries, key, value), g, k);
    ValueAfterPut(h[i].entries, key, value, k);
    LookupAt(h, i, k);
  }

  lemma {:induction false} ValueAfterRemoval(es: Entries, j: nat, k: string)
    requires DistinctKeys(es) && j < |es|
    ensures ValueIn(Without(es, j), k) == if k == es[j].0 then None else ValueIn(es, k)
  {
    var r := Without(es, j);
    assert DistinctKeys(r);
    if k != es[j].0 && KeyPos(es, k).Some? {
      var m := KeyPos(es, k).value;
      KeyPosIs(r, if m < j then m else m - 1);
    }
  }

  /** A removed key is gone, and every other lookup stays. */
  lemma {:induction false} LookupAfterDropKey(f: File, group: string, key: string, g: string, k: string)
    requires Distinct(f)
    ensures Lookup(DropKey(f, group, key), g, k) == if g == group && k == key then None else Lookup(f, g, k)
  {
    if GroupPos(f, group).Some? {
      var i := GroupPos(f, group).value;
      LookupAt(f, i, k);
      LookupAt(f, i, key);
      if KeyPos(f[i].entries, key).Some? {
        var j := KeyPos(f[i].entries, key).value;
        ValueAfterRemoval(f[i].entries, j, k);
        LookupReplaced(f, i, Without(f[i].entries, j), g, k);
      }
    }
  }

  lemma {:induction false} DropIsDistinct(f: File, h: File, i: nat)
    requires DistinctNames(f) && i < |f| && h == f[..i] + f[i + 1..]
    ensures DistinctNames(h) && forall m :: 0 <= m < |h| ==> h[m] == f[if m < i then m else m + 1]
  {
  }

  lemma {:induction false} LookupNone(f: File, g: string, k: string)
    requires forall m :: 0 <= m < |f| ==> f[m].name != g
    ensures Lookup(f, g, k) == None
  {
  }

  lemma {:induction false} LookupKept(f: File, h: File, m: nat, n: nat, k: string)
    requires DistinctNames(f) && DistinctNames(h) && m < |f| && n < |h| && h[n] == f[m]
    ensures Lookup(h, f[m].name, k) == Lookup(f, f[m].name, k)
  {
    LookupAt(f, m, k);
    LookupAt(h, n, k);
  }

  /** A removed group is gone, and every lookup in another group stays. */
  lemma {:induction false} LookupAfterDropGroup(f: File, group: string, g: string, k: string)
    requires Distinct(f)
    ensures Lookup(DropGroup(f, group), g, k) == if g == group then None else Lookup(f, g, k)
  {
    if GroupPos(f, group).Some? {
      LookupDropped(f, DropGroup(f, group), GroupPos(f, group).value, g, k);
    }
  }

  lemma {:induction false} LookupDropped(f: File, h: File, i: nat, g: string, k: string)
    requires DistinctNames(f) && i < |f| && h == f[..i] + f[i + 1..]
    ensures Lookup(h, g, k) == if g == f[i].name then None else Lookup(f, g, k)
  {
    DropIsDistinct(f, h, i);
    if m :| 0 <= m < |f| && m != i && f[m].name == g {
      LookupKept(f, h, m, if m < i then m else m - 1, k);
    } else {
      LookupNone(h, g, k);
      if g != f[i].name {
        LookupNone(f, g, k);
      }
    }
  }

  // --- The checks of the setters -----------------------------------------------

  predicate GroupAllowed(name: string) {
    name != [] && '\n' !in name && '\r' !in name && '[' !in name && ']' !in name
  }

  predicate KeyAllowed(key: string) {
    && key != [] && !IsWs(key[0]) && !IsWs(key[|key| - 1])
    && '\n' !in key && '\r' !in key && '=' !in key
    && key[0] != '#' && key[0] != '['
  }

  lemma {:induction false} AllowedIsFine(group: string, key: string, value: string)
    requires GroupAllowed(group) && KeyAllowed(key) && ValueOk(value)
    ensures NameFine(group) && KeyFine(key) && ValueFine(value) && DropCr(value) == value
  {
    if value != [] {
      assert value[|value| - 1] in value;
    }
  }

  // --- The key file with its index ---------------------------------------------

  /** The index names exactly the groups, each at its position. */
  ghost predicate Indexed(groups: File, index: map<string, nat>) {
    && (forall i :: 0 <= i < |groups| ==> groups[i].name in index && index[groups[i].name] == i)
    && (forall n :: n in index ==> index[n] < |groups| && groups[index[n]].name == n)
  }

  lemma {:induction false} IndexIsPos(groups: File, index: map<string, nat>, name: string)
    requires Indexed(groups, index)
    ensures DistinctNames(groups)
    ensures GroupPos(groups, name) == if name in index then Some(index[name]) else None
  {
    if name in index {
      GroupPosIs(groups, index[name]);
    }
  }

  /** The keys map of the parser names exactly the entries, each at its position. */
  ghost predicate KeysMapped(groups: File, keys: map<(nat, string), nat>) {
    && (forall i, j :: 0 <= i < |groups| && 0 <= j < |groups[i].entries| ==>
          (i, groups[i].entries[j].0) in keys && keys[(i, groups[i].entries[j].0)] == j)
    && (forall p :: p in keys ==>
        p.0 < |groups| && keys[p] < |groups[p.0].entries| && groups[p.0].entries[keys[p]].0 == p.1)
  }

  lemma {:induction false} MapIsPos(groups: File, keys: map<(nat, string), nat>, i: nat, key: string)
    requires KeysMapped(groups, keys) && i < |groups|
    ensures KeyPos(groups[i].entries, key) == if (i, key) in keys then Some(keys[(i, key)]) else None
  {
    var es := groups[i].entries;
    if KeyPos(es, key).Some? {
      assert (i, es[KeyPos(es, key).value].0) in keys;
    }
  }

  lemma {:induction false} IndexAfterReplace(groups: File, index: map<string, nat>, i: nat, es: Entries)
    requires Indexed(groups, index) && i < |groups|
    ensures Indexed(groups[i := groups[i].(entries := es)], index)
  {
  }

  /** The index without one group: the later groups move up. */
  function Reindexed(index: map<string, nat>, group: string, i: nat): map<string, nat> {
    map n | n in index && n != group :: if index[n] > i then index[n] - 1 else index[n]
  }

  lemma {:induction false} IndexAfterRemoval(groups: File, index: map<string, nat>, group: string, i: nat)
    requires Indexed(groups, index) && group in index && i == index[group]
    ensures Indexed(groups[..i] + groups[i + 1..], Reindexed(index, group, i))
  {
    var g, x := groups[..i] + groups[i + 1..], Reindexed(index, group, i);
    forall m | 0 <= m < |g|
      ensures g[m].name in x && x[g[m].name] == m
    {
      var k := if m < i then m else m + 1;
      assert g[m] == groups[k] && groups[k].name in index && index[groups[k].name] == k;
    }
    forall n | n in x
      ensures x[n] < |g| && g[x[n]].name == n
    {
      assert index[n] != i;
    }
  }

  /** The scan for a key. */
  method ScanKey(es: Entries, key: string) returns (r: Option<nat>)
    requires DistinctKeys(es)
    ensures r == KeyPos(es, key)
  {
    var j := 0;
    while j < |es|
      invariant 0 <= j <= |es|
      invariant forall m :: 0 <= m < j ==> es[m].0 != key
    {
      if es[j].0 == key {
        KeyPosIs(es, j);
        return Some(j);
      }
      j := j + 1;
    }
    return None;
  }

  class KeyFile {
    var groups: File
    var index: map<string, nat>

    ghost predicate Valid()
      reads this
    {
      WellFormed(groups) && Indexed(groups, index)
    }

    constructor ()
      ensures Valid() && groups == []
    {
      groups, index := [], map[];
    }

    method GroupIndexOrInsert(name: string) returns (i: nat)
      requires Indexed(groups, index)
      modifies this
      ensures Indexed(groups, index) && groups == WithGroup(old(groups), name)
      ensures GroupPos(groups, name) == Some(i)
    {
      IndexIsPos(groups, index, name);
      if name in index {
        return index[name];
      }
      groups := groups + [Group(name, [])];
      index := index[name := |groups| - 1];
      i := |groups| - 1;
      IndexIsPos(groups, index, name);
    }

    method GetValue(group: string, key: string) returns (r: Option<string>)
      requires Valid()
      ensures r == Lookup(groups, group, key)
    {
      IndexIsPos(groups, index, group);
      if group !in index {
        return None;
      }
      var es := groups[index[group]].entries;
      var j := ScanKey(es, key);
      return match j case None => None case Some(at) => Some(es[at].1);
    }

    method GetString(group: string, key: string) returns (r: Option<Result<string>>)
      requires Valid()
      ensures r == match Lookup(groups, group, key) case None => None case Some(v) => Some(UnescapedAfter([], v))
    {
      var v := GetValue(group, key);
      if v.None? {
        return None;
      }
      var s := Unescape(v.value);
      return Some(s);
    }

    method GetStringList(group: string, key: string) returns (r: Option<Result<seq<string>>>)
      requires Valid()
      ensures r == match Lookup(groups, group, key) case None => None case Some(v) => Some(ItemsOf(v))
    {
      var v := GetValue(group, key);
      if v.None? {
        return None;
      }
      var items := SplitList(v.value);
      return Some(items);
    }

    method SetValue(group: string, key: string, value: string) returns (ok: bool)
      requires Valid()
      modifies this
      ensures Valid() && ok == (GroupAllowed(group) && KeyAllowed(key) && ValueOk(value))
      ensures groups == if ok then Put(old(groups), group, key, value) else old(groups)
      ensures NoCr(old(groups)) ==> NoCr(groups)
    {
      if !GroupAllowed(group) || !KeyAllowed(key) || !ValueOk(value) {
        return false;
      }
      AllowedIsFine(group, key, value);
      PutKeeps(groups, group, key, value);
      if NoCr(groups) {
        PutNoCr(groups, group, key, value);
      }
      WithGroupKeeps(groups, group);
      var i := GroupIndexOrInsert(group);
      var es := groups[i].entries;
      var j := ScanKey(es, key);
      es := match j case Some(at) => es[at := (key, value)] case None => es + [(key, value)];
      IndexAfterReplace(groups, index, i, es);
      groups := groups[i := groups[i].(entries := es)];
      return true;
    }

    /** After a set, `get_string` gives the text back. */
    method SetString(group: string, key: string, value: string) returns (ok: bool)
      requires Valid()
      modifies this
      ensures Valid() && ok == (GroupAllowed(group) && KeyAllowed(key))
      ensures groups == if ok then Put(old(groups), group, key, Escaped(value, true)) else old(groups)
      ensures NoCr(old(groups)) ==> NoCr(groups)
    {
      var escaped := Escape(value);
      EscapedIsValue(value, true);
      ok := SetValue(group, key, escaped);
    }

    method SetStringList(group: string, key: string, items: seq<string>) returns (ok: bool)
      requires Valid()
      modifies this
      ensures Valid() && ok == (GroupAllowed(group) && KeyAllowed(key))
      ensures groups == if ok then Put(old(groups), group, key, ListText(items)) else old(groups)
      ensures NoCr(old(groups)) ==> NoCr(groups)
    {
      var value := JoinList(items);
      ListIsValue(items);
      ok := SetValue(group, key, value);
    }

    method RemoveKey(group: string, key: string) returns (found: bool)
      requires Valid()
      modifies this`groups
      ensures Valid() && groups == DropKey(old(groups), group, key)
      ensures found == Lookup(old(groups), group, key).Some?
      ensures NoCr(old(groups)) ==> NoCr(groups)
    {
      IndexIsPos(groups, index, group);
      DropKeyKeeps(groups, group, key);
      if group !in index {
        return false;
      }
      var i := index[group];
      var es := groups[i].entries;
      var j := ScanKey(es, key);
      if j.None? {
        return false;
      }
      es := es[..j.value] + es[j.value + 1..];
      IndexAfterReplace(groups, index, i, es);
      groups := groups[i := groups[i].(entries := es)];
      return true;
    }

    method RemoveGroup(group: string) returns (found: bool)
      requires Valid()
      modifies this
      ensures Valid() && groups == DropGroup(old(groups), group)
      ensures found == GroupPos(old(groups), group).Some?
      ensures NoCr(old(groups)) ==> NoCr(groups)
    {
      IndexIsPos(groups, index, group);
      DropGroupKeeps(groups, group);
      if group !in index {
        return false;
      }
      var i := index[group];
      IndexAfterRemoval(groups, index, group, i);
      groups := groups[..i] + groups[i + 1..];
      index := Reindexed(index, group, i);
      return true;
    }
  }

  // --- The parser and the printer as the program runs them ---------------------

  lemma {:induction false} KeysWithGroup(groups: File, keys: map<(nat, string), nat>, name: string)
    requires KeysMapped(groups, keys)
    ensures KeysMapped(WithGroup(groups, name), keys)
  {
    var g := WithGroup(groups, name);
    forall i, j | 0 <= i < |g| && 0 <= j < |g[i].entries|
      ensures (i, g[i].entries[j].0) in keys && keys[(i, g[i].entries[j].0)] == j
    {
      assert i < |groups| && g[i] == groups[i];
    }
  }

  lemma {:induction false} KeysReplaced(groups: File, keys: map<(nat, string), nat>, i: nat, j: nat, value: string)
    requires KeysMapped(groups, keys) && i < |groups| && j < |groups[i].entries|
    ensures KeysMapped(groups[i := groups[i].(entries := groups[i].entries[j := (groups[i].entries[j].0, value)])],
            keys)
  {
    var g := groups[i := groups[i].(entries := groups[i].entries[j := (groups[i].entries[j].0, value)])];
    forall m, n | 0 <= m < |g| && 0 <= n < |g[m].entries|
      ensures g[m].entries[n].0 == groups[m].entries[n].0
    {
    }
  }

  lemma {:induction false} KeysAppended(groups: File, keys: map<(nat, string), nat>, i: nat, key: string, value: string)
    requires KeysMapped(groups, keys) && i < |groups| && (i, key) !in keys
    ensures KeysMapped(groups[i := groups[i].(entries := groups[i].entries + [(key, value)])],
                       keys[(i, key) := |groups[i].entries|])
  {
    var g := groups[i := groups[i].(entries := groups[i].entries + [(key, value)])];
    var ks := keys[(i, key) := |groups[i].entries|];
    forall m, n | 0 <= m < |g| && 0 <= n < |g[m].entries|
      ensures (m, g[m].entries[n].0) in ks && ks[(m, g[m].entries[n].0)] == n
    {
      if m != i || n < |groups[i].entries| {
        assert g[m].entries[n].0 == groups[m].entries[n].0;
      }
    }
  }

  /** One entry of the parser: the keys map takes the place of the scan. */
  method TakeEntry(kf: KeyFile, keys: map<(nat, string), nat>, i: nat, key: string, value: string)
    returns (next: map<(nat, string), nat>)
    requires kf.Valid() && KeysMapped(kf.groups, keys) && i < |kf.groups| && KeyFine(key) && ValueFine(value)
    modifies kf
    ensures kf.Valid() && kf.groups == PutAt(old(kf.groups), i, key, value) && KeysMapped(kf.groups, next)
  {
    PutAtKeeps(kf.groups, i, key, value);
    MapIsPos(kf.groups, keys, i, key);
    var es := kf.groups[i].entries;
    if (i, key) in keys {
      KeysReplaced(kf.groups, keys, i, keys[(i, key)], value);
      es := es[keys[(i, key)] := (key, value)];
      next := keys;
    } else {
      KeysAppended(kf.groups, keys, i, key, value);
      next := keys[(i, key) := |es|];
      es := es + [(key, value)];
    }
    IndexAfterReplace(kf.groups, kf.index, i, es);
    kf.groups := kf.groups[i := kf.groups[i].(entries := es)];
  }

  /** The parser is at the start of line `n`. */
  ghost predicate AtLine(kf: KeyFile, keys: map<(nat, string), nat>, current: Option<nat>, lines: seq<string>, n: nat)
    reads kf
  {
    && n <= |lines| && kf.Valid() && KeysMapped(kf.groups, keys)
    && ScanLines(START, lines[..n]) == Good(kf.groups, current, n)
    && (current.Some? ==> current.value < |kf.groups|)
  }

  /** One line of the parser. */
  method TakeLine(kf: KeyFile, keys: map<(nat, string), nat>, current: Option<nat>, lines: seq<string>, n: nat)
    returns (next: map<(nat, string), nat>, now: Option<nat>, error: Option<Reason>)
    requires AtLine(kf, keys, current, lines, n) && n < |lines| && '\n' !in lines[n]
    modifies kf
    ensures error.None? ==> AtLine(kf, next, now, lines, n + 1)
    ensures error.Some? ==> ScanLines(START, lines[..n + 1]) == Bad(n + 1, error.value)
  {
    next, now, error := keys, current, None;
    assert lines[..n + 1] == lines[..n] + [lines[n]];
    ScanSnoc(START, lines[..n], lines[n]);
    ReadLineFine(lines[n]);
    match ReadLine(lines[n])
    case Skip =>
    case Wrong(reason) =>
      error := Some(reason);
    case Header(name) =>
      WithGroupKeeps(kf.groups, name);
      KeysWithGroup(kf.groups, keys, name);
      var i := kf.GroupIndexOrInsert(name);
      now := Some(i);
    case Entry(key, value) =>
      if current.None? {
        error := Some(NoGroup);
      } else {
        next := TakeEntry(kf, keys, current.value, key, value);
      }
  }

  lemma {:induction false} BadStays(lines: seq<string>, n: nat)
    requires n <= |lines| && ScanLines(START, lines[..n]).Bad?
    ensures ScanLines(START, lines) == ScanLines(START, lines[..n])
    decreases |lines| - n
  {
    if n < |lines| {
      assert lines[..n + 1] == lines[..n] + [lines[n]];
      ScanSnoc(START, lines[..n], lines[n]);
      BadStays(lines, n + 1);
    } else {
      assert lines[..n] == lines;
    }
  }

  /** What the parser has after its last line, or at the line that it refuses. */
  ghost predicate Parsed(kf: KeyFile, lines: seq<string>, error: Option<(nat, Reason)>)
    reads kf
  {
    match error
    case None => kf.Valid() && ScanLines(START, lines).Good? && kf.groups == ScanLines(START, lines).file
    case Some(e) => ScanLines(START, lines) == Bad(e.0, e.1)
  }

  lemma {:induction false} ParsedAtEnd(kf: KeyFile, keys: map<(nat, string), nat>, current: Option<nat>,
                                       lines: seq<string>)
    requires AtLine(kf, keys, current, lines, |lines|)
    ensures Parsed(kf, lines, None)
  {
    assert lines[..|lines|] == lines;
  }

  /** The loop of the parser over its lines. */
  method ParseLines(kf: KeyFile, lines: seq<string>) returns (error: Option<(nat, Reason)>)
    requires AtLine(kf, map[], None, lines, 0) && PlainLines(lines)
    modifies kf
    ensures Parsed(kf, lines, error)
  {
    var keys: map<(nat, string), nat>, current: Option<nat>, n := map[], None, 0;
    while n < |lines|
      invariant AtLine(kf, keys, current, lines, n)
    {
      var reason;
      keys, current, reason := TakeLine(kf, keys, current, lines, n);
      n := n + 1;
      if reason.Some? {
        BadStays(lines, n);
        return Some((n, reason.value));
      }
    }
    ParsedAtEnd(kf, keys, current, lines);
    return None;
  }

  lemma {:induction false} LinesArePlain(input: string)
    ensures PlainLines(Lines(input))
  {
    SplitLinesPlain(if input != [] && input[|input| - 1] == '\n' then input[..|input| - 1] else input);
  }

  method Parse(input: string) returns (kf: KeyFile, error: Option<(nat, Reason)>)
    ensures fresh(kf)
    ensures error.None? ==> kf.Valid() && ParseText(input).Good? && kf.groups == ParseText(input).file
    ensures error.Some? ==> ParseText(input) == Bad(error.value.0, error.value.1)
  {
    kf := new KeyFile();
    LinesArePlain(input);
    error := ParseLines(kf, Lines(input));
  }

  lemma {:induction false} UnlinesConcat(a: seq<string>, b: seq<string>)
    ensures Unlines(a + b) == Unlines(a) + Unlines(b)
    decreases |b|
  {
    if b == [] {
      assert a + b == a;
    } else {
      var init, last := b[..|b| - 1], b[|b| - 1];
      UnlinesConcat(a, init);
      assert (a + b)[..|a + b| - 1] == a + init;
      assert (Unlines(a) + Unlines(init)) + last + ['\n'] == Unlines(a) + (Unlines(init) + last + ['\n']);
    }
  }

  method PrintEntries(es: Entries, before: string) returns (text: string)
    ensures text == before + Unlines(EntryLines(es))
  {
    text := before;
    var j := 0;
    assert es[..0] == [];
    while j < |es|
      invariant 0 <= j <= |es|
      invariant text == before + Unlines(EntryLines(es[..j]))
    {
      EntriesStep(es, before, text, j, j + 1);
      text := text + (es[j].0 + ['='] + es[j].1) + ['\n'];
      j := j + 1;
    }
    assert es[..|es|] == es;
  }

  lemma {:induction false} EntriesStep(es: Entries, before: string, text: string, j: nat, next: nat)
    requires j < next == j + 1 <= |es| && text == before + Unlines(EntryLines(es[..j]))
    ensures text + EntryLine(es[j]) + ['\n'] == before + Unlines(EntryLines(es[..next]))
  {
    assert es[..next][..j] == es[..j] && es[..next][j] == es[j];
    assert EntryLines(es[..next]) == EntryLines(es[..j]) + [EntryLine(es[j])];
    UnlinesSnoc(before, EntryLines(es[..j]), EntryLine(es[j]));
  }

  lemma {:induction false} UnlinesSnoc(before: string, lines: seq<string>, line: string)
    ensures before + Unlines(lines + [line]) == (before + Unlines(lines)) + line + ['\n']
  {
    assert (lines + [line])[..|lines|] == lines;
  }

  /** The display of the key file. */
  method ToText(kf: KeyFile) returns (text: string)
    ensures text == Print(kf.groups)
  {
    text := [];
    var i := 0;
    while i < |kf.groups|
      invariant 0 <= i <= |kf.groups|
      invariant text == Print(kf.groups[..i])
    {
      var g := kf.groups[i];
      ghost var blank := if i > 0 then [[]] else [];
      assert kf.groups[..i + 1] == kf.groups[..i] + [g];
      GroupText(kf.groups[..i], g, blank);
      if i > 0 {
        text := text + ['\n'];
      }
      text := text + (['['] + g.name + [']']) + ['\n'];
      text := PrintEntries(g.entries, text);
      i := i + 1;
    }
    assert kf.groups[..|kf.groups|] == kf.groups;
  }

  lemma {:induction false} UnlinesTwo(a: seq<string>, line: string, es: seq<string>)
    ensures Unlines(a + ([line] + es)) == (Unlines(a) + line + ['\n']) + Unlines(es)
  {
    assert a + ([line] + es) == (a + [line]) + es;
    UnlinesConcat(a + [line], es);
    UnlinesSnoc([], a, line);
    assert [] + Unlines(a) == Unlines(a) && [] + Unlines(a + [line]) == Unlines(a + [line]);
  }

  lemma {:induction false} GroupText(f: File, g: Group, blank: seq<string>)
    requires blank == if f != [] then [[]] else []
    ensures Print(f + [g]) ==
            (Print(f) + (if f != [] then ['\n'] else []) + HeaderLine(g.name) + ['\n']) + Unlines(EntryLines(g.entries))
  {
    PrintSnoc(f, g);
    var lines, header, es := PrintLines(f), HeaderLine(g.name), EntryLines(g.entries);
    UnlinesTwo(lines + blank, header, es);
    assert lines + (blank + ([header] + es)) == (lines + blank) + ([header] + es);
    BlankText(lines, blank);
  }

  lemma {:induction false} BlankText(lines: seq<string>, blank: seq<string>)
    requires blank == [[]] || blank == []
    ensures Unlines(lines + blank) == Unlines(lines) + (if blank != [] then ['\n'] else [])
  {
    if blank == [] {
      assert lines + blank == lines;
    } else {
      assert (lines + blank)[..|lines|] == lines;
    }
  }

  // --- Strings and lists survive -----------------------------------------------

  lemma {:induction false} LookupStripped(f: File, g: string, k: string)
    requires Distinct(f)
    ensures Lookup(StripAll(f), g, k) == match Lookup(f, g, k) case None => None case Some(v) => Some(DropCr(v))
  {
    var h := StripAll(f);
    assert DistinctNames(h);
    if GroupPos(f, g).Some? {
      var i := GroupPos(f, g).value;
      GroupPosIs(h, i);
      assert DistinctKeys(f[i].entries);
      if KeyPos(f[i].entries, k).Some? {
        KeyPosIs(h[i].entries, KeyPos(f[i].entries, k).value);
      }
    }
  }

  /** A value that passed the check of a setter is found as it is, before and after printing and parsing. */
  lemma {:induction false} ValueSurvives(f: File, group: string, key: string, value: string)
    requires WellFormed(f) && GroupAllowed(group) && KeyAllowed(key) && ValueOk(value)
    ensures var p := Put(f, group, key, value);
            && Lookup(p, group, key) == Some(value)
            && ParseText(Print(p)).Good? && Lookup(ParseText(Print(p)).file, group, key) == Some(value)
  {
    AllowedIsFine(group, key, value);
    PutKeeps(f, group, key, value);
    LookupAfterPut(f, group, key, value, group, key);
    ParsePrint(Put(f, group, key, value));
    LookupStripped(Put(f, group, key, value), group, key);
  }

  lemma {:induction false} StringReads(s: string, value: string)
    requires value == Escaped(s, true)
    ensures ValueOk(value) && UnescapedAfter([], value) == Ok(s)
  {
    EscapedIsValue(s, true);
    UnescapeEscape([], s, true);
    assert [] + s == s;
  }

  /** `get_string` undoes `set_string`, for every text, directly and through the file text. */
  lemma {:induction false} StringSurvives(f: File, group: string, key: string, s: string, value: string)
    requires WellFormed(f) && GroupAllowed(group) && KeyAllowed(key) && value == Escaped(s, true)
    ensures var p := Put(f, group, key, value);
            && Lookup(p, group, key) == Some(value)
            && ParseText(Print(p)).Good? && Lookup(ParseText(Print(p)).file, group, key) == Some(value)
    ensures ValueOk(value) && UnescapedAfter([], value) == Ok(s)
  {
    StringReads(s, value);
    ValueSurvives(f, group, key, value);
  }

  /** `get_string_list` undoes `set_string_list`, for every list, directly and through the file text. */
  lemma {:induction false} ListSurvives(f: File, group: string, key: string, items: seq<string>, value: string)
    requires WellFormed(f) && GroupAllowed(group) && KeyAllowed(key) && value == ListText(items)
    ensures var p := Put(f, group, key, value);
            && Lookup(p, group, key) == Some(value)
            && ParseText(Print(p)).Good? && Lookup(ParseText(Print(p)).file, group, key) == Some(value)
    ensures ValueOk(value) && ItemsOf(value) == Ok(items)
  {
    ListIsValue(items);
    ValueSurvives(f, group, key, value);
    ListRoundTrip(items);
  }
}
