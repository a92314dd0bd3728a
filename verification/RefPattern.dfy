/**
 Ref patterns: literal parts, `*` for one part of a name and `**` for one or more,
 the table that matches them, the flat matcher, and lists of patterns with `!`.
 */
module RefPatterns {
  import opened Bytes

  datatype Part = Literal(text: string) | One | Many

  // --- What a pattern means -----------------------------------------------------

  /** `part` covers the run `run` of name parts. */
  predicate Fits(part: Part, run: seq<string>) {
    match part
    case Literal(text) => run == [text]
    case One => |run| == 1
    case Many => |run| >= 1
  }

  function Flat(runs: seq<seq<string>>): seq<string> {
    if runs == [] then [] else Flat(runs[..|runs| - 1]) + runs[|runs| - 1]
  }

  predicate AllFit(parts: seq<Part>, runs: seq<seq<string>>) {
    |parts| == |runs| && forall i :: 0 <= i < |parts| ==> Fits(parts[i], runs[i])
  }

  /** The name is cut into one run for each part, and each part covers its run. */
  ghost predicate Covered(parts: seq<Part>, name: seq<string>) {
    exists runs :: AllFit(parts, runs) && Flat(runs) == name
  }

  // --- The table ------------------------------------------------------------------

  predicate Cell(part: Part, piece: string, before: bool, beside: bool) {
    match part
    case Literal(text) => before && piece == text
    case One => before
    case Many => before || beside
  }

  /** The cell of the table for these parts of the pattern and of the name. */
  predicate Table(parts: seq<Part>, name: seq<string>)
    decreases |parts| + |name|
  {
    if parts == [] then name == []
    else if name == [] then false
    else
      var p, n := parts[..|parts| - 1], name[..|name| - 1];
      Cell(parts[|parts| - 1], name[|name| - 1], Table(p, n), Table(parts, n))
  }

  lemma {:induction false} FlatSnoc(runs: seq<seq<string>>, run: seq<string>)
    ensures Flat(runs + [run]) == Flat(runs) + run
  {
    assert (runs + [run])[..|runs|] == runs;
  }

  /** A run for the last part extends a cut of the name before it. */
  lemma {:induction false} CoveredMore(p: seq<Part>, part: Part, n: seq<string>, run: seq<string>)
    requires Covered(p, n) && Fits(part, run)
    ensures Covered(p + [part], n + run)
  {
    var runs :| AllFit(p, runs) && Flat(runs) == n;
    FlatSnoc(runs, run);
    assert AllFit(p + [part], runs + [run]);
  }

  /** A cut of the whole name ends with a run for the last part. */
  lemma {:induction false} CoveredLess(p: seq<Part>, part: Part, name: seq<string>) returns (k: nat)
    requires Covered(p + [part], name)
    ensures k <= |name| && Fits(part, name[k..]) && Covered(p, name[..k])
  {
    var all := p + [part];
    var runs :| AllFit(all, runs) && Flat(runs) == name;
    var init, run := runs[..|p|], runs[|p|];
    assert runs == init + [run];
    FlatSnoc(init, run);
    k := |Flat(init)|;
    assert name[k..] == run && name[..k] == Flat(init);
    assert AllFit(p, init) by {
      forall i | 0 <= i < |p| ensures Fits(p[i], init[i]) {
        assert all[i] == p[i];
      }
    }
    assert all[|p|] == part;
  }

  lemma {:induction false} TableCovers(parts: seq<Part>, name: seq<string>)
    requires Table(parts, name)
    ensures Covered(parts, name)
    decreases |parts| + |name|
  {
    if parts == [] {
      assert AllFit(parts, []) && Flat([]) == name;
    } else {
      var p, part, n, run := parts[..|parts| - 1], parts[|parts| - 1], name[..|name| - 1], [name[|name| - 1]];
      assert parts == p + [part] && name == n + run;
      if Table(p, n) {
        TableCovers(p, n);
        CoveredMore(p, part, n, run);
      } else {
        TableCovers(parts, n);
        var k := CoveredLess(p, part, n);
        assert n[..k] + (n[k..] + run) == name;
        CoveredMore(p, part, n[..k], n[k..] + run);
      }
    }
  }

  lemma {:induction false} CoversTable(parts: seq<Part>, name: seq<string>)
    requires Covered(parts, name)
    ensures Table(parts, name)
    decreases |parts| + |name|
  {
    if parts == [] {
      var runs :| AllFit(parts, runs) && Flat(runs) == name;
      assert runs == [];
    } else {
      var p, part := parts[..|parts| - 1], parts[|parts| - 1];
      assert parts == p + [part];
      var k := CoveredLess(p, part, name);
      var n := name[..|name| - 1];
      if k == |n| {
        CoversTable(p, n);
      } else {
        assert n[..k] == name[..k] && n[k..] == name[k..][..|name| - k - 1];
        CoveredMore(p, part, n[..k], n[k..]);
        assert n[..k] + n[k..] == n;
        CoversTable(parts, n);
      }
    }
  }

  /** The table and the meaning of the pattern are the same. */
  lemma {:induction false} TableIsMeaning(parts: seq<Part>, name: seq<string>)
    ensures Table(parts, name) <==> Covered(parts, name)
  {
    if Table(parts, name) {
      TableCovers(parts, name);
    }
    if Covered(parts, name) {
      CoversTable(parts, name);
    }
  }

  /** Each part covers at least one part of the name. */
  lemma {:induction false} TableIsLong(parts: seq<Part>, name: seq<string>)
    requires Table(parts, name)
    ensures |parts| <= |name|
    decreases |parts| + |name|
  {
    if parts != [] {
      var p, n := parts[..|parts| - 1], name[..|name| - 1];
      if Table(p, n) {
        TableIsLong(p, n);
      } else {
        TableIsLong(parts, n);
      }
    }
  }

  /** The first `n` cells of `row` are the cells of the table for `parts`. */
  ghost predicate RowIs(row: seq<bool>, parts: seq<Part>, name: seq<string>, n: nat) {
    |row| == |name| + 1 && n <= |row| && forall j :: 0 <= j < n ==> row[j] == Table(parts, name[..j])
  }

  lemma {:induction false} CellOfTable(parts: seq<Part>, part: Part, more: seq<Part>, name: seq<string>, j: nat,
                                       next: nat)
    requires next == j + 1 <= |name| && more == parts + [part]
    ensures Table(more, name[..next]) == Cell(part, name[j], Table(parts, name[..j]), Table(more, name[..j]))
  {
    assert more[..|parts|] == parts && name[..next][..j] == name[..j];
  }

  /** Fills the row of the table for one more part. Returns the number of cells it took. */
  method FillRow(ghost parts: seq<Part>, part: Part, name: seq<string>, prev: array<bool>, cur: array<bool>)
    returns (steps: nat)
    requires prev != cur && cur.Length == |name| + 1 && RowIs(prev[..], parts, name, |name| + 1)
    modifies cur
    ensures RowIs(cur[..], parts + [part], name, |name| + 1) && steps == |name|
  {
    ghost var more := parts + [part];
    cur[0] := false;
    steps := 0;
    var j := 1;
    while j <= |name|
      invariant 1 <= j <= |name| + 1 && steps == j - 1
      invariant RowIs(cur[..], more, name, j)
      invariant RowIs(prev[..], parts, name, |name| + 1)
    {
      steps := steps + 1;
      CellOfTable(parts, part, more, name, j - 1, j);
      assert prev[..][j - 1] == Table(parts, name[..j - 1]) && cur[..][j - 1] == Table(more, name[..j - 1]);
      cur[j] := Cell(part, name[j - 1], prev[j - 1], cur[j - 1]);
      j := j + 1;
    }
  }

  /** The number of steps for `m` rows of `n` cells. */
  function Cells(m: nat, n: nat): (c: nat)
    ensures c == m * n
  {
    if m == 0 then 0 else Cells(m - 1, n) + n
  }

  /**
   The table matcher. Its answer is the meaning of the pattern, and it takes one
   step for each cell, or none when the name is too short.
   */
  method MatchParts(parts: seq<Part>, name: seq<string>) returns (r: bool, steps: nat)
    ensures r <==> Covered(parts, name)
    ensures steps == if |name| < |parts| then 0 else |parts| * |name|
  {
    TableIsMeaning(parts, name);
    var m, n := |parts|, |name|;
    steps := 0;
    if n < m {
      if Table(parts, name) {
        TableIsLong(parts, name);
      }
      return false, 0;
    }
    var prev := new bool[n + 1](_ => false);
    prev[0] := true;
    var cur := new bool[n + 1](_ => false);
    var i := 0;
    while i < m
      invariant 0 <= i <= m && prev != cur && cur.Length == n + 1
      invariant fresh(prev) && fresh(cur)
      invariant RowIs(prev[..], parts[..i], name, n + 1)
      invariant steps == Cells(i, n)
    {
      assert parts[..i + 1] == parts[..i] + [parts[i]];
      var c := FillRow(parts[..i], parts[i], name, prev, cur);
      steps := steps + c;
      prev, cur := cur, prev;
      i := i + 1;
    }
    assert parts[..m] == parts && name[..n] == name;
    assert prev[..][n] == Table(parts, name[..n]);
    return prev[n], steps;
  }

  // --- The flat matcher -----------------------------------------------------------

  /** The name has one part for each part of the pattern. */
  predicate Stepwise(parts: seq<Part>, name: seq<string>) {
    |parts| == |name| && forall i :: 0 <= i < |parts| ==> Fits(parts[i], [name[i]])
  }

  lemma {:induction false} TableIsStepwise(parts: seq<Part>, name: seq<string>)
    requires Many !in parts
    ensures Table(parts, name) <==> Stepwise(parts, name)
  {
    if parts != [] && name != [] {
      var p, n := parts[..|parts| - 1], name[..|name| - 1];
      TableIsStepwise(p, n);
      var part, piece := parts[|parts| - 1], name[|name| - 1];
      assert part in parts && parts == p + [part] && name == n + [piece];
      assert Cell(part, piece, Table(p, n), false) <==> Table(p, n) && Fits(part, [piece]);
      if Stepwise(p, n) && Fits(part, [piece]) {
        assert forall i :: 0 <= i < |p| ==> parts[i] == p[i] && name[i] == n[i];
      }
      if Stepwise(parts, name) {
        forall i | 0 <= i < |p| ensures Fits(p[i], [n[i]]) {
          assert Fits(parts[i], [name[i]]);
        }
      }
    }
  }

  /** A last `**` covers what the head leaves, which must be something. */
  lemma {:induction false} TableWithTail(head: seq<Part>, parts: seq<Part>, name: seq<string>)
    requires Many !in head && parts == head + [Many]
    ensures Table(parts, name) <==> |name| > |head| && Stepwise(head, name[..|head|])
    decreases |name|
  {
    if name != [] {
      var n := name[..|name| - 1];
      assert parts[..|head|] == head;
      TableIsStepwise(head, n);
      TableWithTail(head, parts, n);
      if |n| > |head| {
        assert n[..|head|] == name[..|head|];
      } else if |n| == |head| {
        assert n == name[..|head|];
      }
    }
  }

  /** Splits a last `**` off. */
  function Head(parts: seq<Part>): seq<Part> {
    if parts != [] && parts[|parts| - 1].Many? then parts[..|parts| - 1] else parts
  }

  /** The flat matcher answers the meaning of every pattern with no `**` before its last part. */
  method MatchFlat(parts: seq<Part>, name: seq<string>) returns (r: bool)
    ensures Many !in Head(parts) ==> (r <==> Covered(parts, name))
  {
    var head, lastMany := Head(parts), Head(parts) != parts;
    if Many !in head {
      TableIsMeaning(parts, name);
      if lastMany {
        assert parts == head + [Many];
        TableWithTail(head, parts, name);
      } else {
        TableIsStepwise(parts, name);
      }
    }
    var i := 0;
    while i < |head|
      invariant 0 <= i <= |head| && i <= |name|
      invariant Stepwise(head[..i], name[..i])
    {
      if i == |name| {
        return false;
      }
      if !(match head[i] case Literal(text) => name[i] == text case One => true case Many => false) {
        if Many !in head && |name| >= |head| {
          assert head[i] in head && !Fits(head[i], [name[i]]);
          assert name[..|head|][i] == name[i];
        }
        return false;
      }
      StepwiseMore(head, name, i, i + 1);
      i := i + 1;
    }
    assert head[..i] == head;
    r := (i < |name|) == lastMany;
    if i == |name| {
      assert name[..i] == name;
    }
  }

  lemma {:induction false} StepwiseMore(parts: seq<Part>, name: seq<string>, i: nat, next: nat)
    requires next == i + 1 <= |parts| && next <= |name| && Stepwise(parts[..i], name[..i]) && Fits(parts[i], [name[i]])
    ensures Stepwise(parts[..next], name[..next])
  {
    forall j | 0 <= j < next ensures Fits(parts[..next][j], [name[..next][j]]) {
      if j < i {
        assert Fits(parts[..i][j], [name[..i][j]]);
      }
    }
  }

  // --- Text -----------------------------------------------------------------------

  /** The parts of a text between slashes. */
  function Split(s: string): (r: seq<string>)
    ensures r != []
  {
    if s == [] then [[]]
    else
      var r := Split(s[1..]);
      if s[0] == '/' then [[]] + r else [[s[0]] + r[0]] + r[1..]
  }

  function Join(pieces: seq<string>): string
    requires pieces != []
  {
    if |pieces| == 1 then pieces[0] else pieces[0] + ['/'] + Join(pieces[1..])
  }

  lemma {:induction false} JoinSplit(s: string)
    ensures Join(Split(s)) == s
  {
    if s != [] {
      var r := Split(s[1..]);
      JoinSplit(s[1..]);
      if s[0] == '/' {
        assert ([[]] + r)[1..] == r;
      } else {
        assert ([[s[0]] + r[0]] + r[1..])[1..] == r[1..];
      }
    }
  }

  lemma {:induction false} SplitPiece(p: string, rest: string, s: string)
    requires '/' !in p && s == p + ['/'] + rest
    ensures Split(s) == [p] + Split(rest)
  {
    if p == [] {
      assert s[1..] == rest;
    } else {
      assert s[1..] == p[1..] + ['/'] + rest;
      SplitPiece(p[1..], rest, s[1..]);
      assert ([p[1..]] + Split(rest))[1..] == Split(rest) && [p[0]] + p[1..] == p && s[0] == p[0];
    }
  }

  lemma {:induction false} SplitPlain(p: string)
    requires '/' !in p
    ensures Split(p) == [p]
  {
    if p != [] {
      SplitPlain(p[1..]);
      assert [p[0]] + p[1..] == p;
    }
  }

  lemma {:induction false} SplitJoin(pieces: seq<string>)
    requires pieces != [] && forall i :: 0 <= i < |pieces| ==> '/' !in pieces[i]
    ensures Split(Join(pieces)) == pieces
  {
    if |pieces| == 1 {
      SplitPlain(pieces[0]);
    } else {
      SplitJoin(pieces[1..]);
      SplitPiece(pieces[0], Join(pieces[1..]), Join(pieces));
    }
  }

  // --- Parsing ----------------------------------------------------------------------

  datatype Refusal = Empty | Bang | EmptyPart | StarInPart | BadComponent

  datatype Parsed<T> = Good(value: T) | Refused(why: Refusal)

  predicate AsciiNameChar(c: char) {
    'a' <= c <= 'z' || 'A' <= c <= 'Z' || '0' <= c <= '9' || c == '-' || c == '.' || c == '_'
  }

  /** One component of a ref name. `named` tells which characters outside ASCII a name may hold. */
  predicate Component(named: char -> bool, s: string) {
    && s != [] && s[0] != '-' && s[0] != '.'
    && forall i :: 0 <= i < |s| ==> if s[i] < 128 as char then AsciiNameChar(s[i]) else named(s[i])
  }

  function ParsePart(named: char -> bool, s: string): Parsed<Part> {
    if s == [] then Refused(EmptyPart)
    else if s == ['*'] then Good(One)
    else if s == ['*', '*'] then Good(Many)
    else if '*' in s then Refused(StarInPart)
    else if Component(named, s) then Good(Literal(s))
    else Refused(BadComponent)
  }

  function ShowPart(p: Part): string {
    match p
    case Literal(text) => text
    case One => ['*']
    case Many => ['*', '*']
  }

  predicate PartOk(named: char -> bool, p: Part) {
    p.Literal? ==> Component(named, p.text)
  }

  function Shown(parts: seq<Part>): seq<string> {
    seq(|parts|, i requires 0 <= i < |parts| => ShowPart(parts[i]))
  }

  /** The text of a pattern. */
  function Show(parts: seq<Part>): string
    requires parts != []
  {
    Join(Shown(parts))
  }

  lemma {:induction false} PartRoundTrip(named: char -> bool, p: Part, s: string)
    ensures ParsePart(named, s) == Good(p) <==> s == ShowPart(p) && PartOk(named, p)
  {
    if p.Literal? && s == p.text && Component(named, s) {
      assert s[0] != '*';
      forall i | 0 <= i < |s| ensures s[i] != '*' {
        assert s[i] < 128 as char ==> AsciiNameChar(s[i]);
      }
    }
  }

  lemma {:induction false} ShownIsPlain(named: char -> bool, p: Part)
    requires PartOk(named, p)
    ensures '/' !in ShowPart(p) && '!' !in ShowPart(p)
  {
    if p.Literal? {
      forall i | 0 <= i < |p.text| ensures p.text[i] != '/' && p.text[i] != '!' {
        if p.text[i] < 128 as char {
          assert AsciiNameChar(p.text[i]);
        }
      }
    }
  }

  /** Every part, or the first refusal. */
  function ParseParts(named: char -> bool, pieces: seq<string>): Parsed<seq<Part>> {
    if pieces == [] then Good([])
    else
      match ParseParts(named, pieces[..|pieces| - 1])
      case Refused(why) => Refused(why)
      case Good(parts) =>
        match ParsePart(named, pieces[|pieces| - 1])
        case Refused(why) => Refused(why)
        case Good(part) => Good(parts + [part])
  }

  function ParsePattern(named: char -> bool, text: string): Parsed<seq<Part>> {
    if text == [] then Refused(Empty)
    else if '!' in text then Refused(Bang)
    else ParseParts(named, Split(text))
  }

  predicate PartsOk(named: char -> bool, parts: seq<Part>) {
    forall i :: 0 <= i < |parts| ==> PartOk(named, parts[i])
  }

  lemma {:induction false} PartsRoundTrip(named: char -> bool, parts: seq<Part>, pieces: seq<string>)
    ensures ParseParts(named, pieces) == Good(parts) <==> pieces == Shown(parts) && PartsOk(named, parts)
  {
    if pieces == [] {
      assert pieces == Shown(parts) <==> parts == [];
    } else if parts != [] {
      var init, last := parts[..|parts| - 1], parts[|parts| - 1];
      PartsRoundTrip(named, init, pieces[..|pieces| - 1]);
      PartRoundTrip(named, last, pieces[|pieces| - 1]);
      assert parts == init + [last];
      ShownSnoc(named, init, last, pieces);
      if ParseParts(named, pieces).Good? {
        var got := ParseParts(named, pieces[..|pieces| - 1]).value;
        var part := ParsePart(named, pieces[|pieces| - 1]).value;
        assert got + [part] == parts ==> got == (got + [part])[..|got|] == init;
      }
    } else if ParseParts(named, pieces).Good? {
      assert |ParseParts(named, pieces).value| > 0;
    }
  }

  lemma {:induction false} ShownSnoc(named: char -> bool, init: seq<Part>, last: Part, pieces: seq<string>)
    requires pieces != []
    ensures pieces == Shown(init + [last]) <==>
            pieces[..|pieces| - 1] == Shown(init) && pieces[|pieces| - 1] == ShowPart(last)
    ensures PartsOk(named, init + [last]) <==> PartsOk(named, init) && PartOk(named, last)
  {
    var parts := init + [last];
    assert Shown(parts) == Shown(init) + [ShowPart(last)];
    assert pieces == pieces[..|pieces| - 1] + [pieces[|pieces| - 1]];
    assert (Shown(init) + [ShowPart(last)])[..|init|] == Shown(init);
    assert parts[|init|] == last && forall i :: 0 <= i < |init| ==> parts[i] == init[i];
  }

  /** A text parses to `parts` exactly when it is the text of `parts`, and they are valid. */
  lemma {:induction false} ParseShow(named: char -> bool, parts: seq<Part>, text: string)
    ensures ParsePattern(named, text) == Good(parts) <==>
            parts != [] && PartsOk(named, parts) && text == Show(parts)
  {
    PartsRoundTrip(named, parts, Split(text));
    JoinSplit(text);
    if parts != [] && PartsOk(named, parts) && text == Show(parts) {
      forall i | 0 <= i < |parts| ensures '/' !in Shown(parts)[i] && '!' !in Shown(parts)[i] {
        ShownIsPlain(named, parts[i]);
      }
      SplitJoin(Shown(parts));
      JoinHolds(Shown(parts), '!');
      assert ShowPart(parts[0]) != [];
      assert text != [];
    }
  }

  lemma {:induction false} JoinHolds(pieces: seq<string>, c: char)
    requires pieces != [] && c != '/' && forall i :: 0 <= i < |pieces| ==> c !in pieces[i]
    ensures c !in Join(pieces)
  {
    if |pieces| > 1 {
      JoinHolds(pieces[1..], c);
    }
  }

  /** The loop of the parser: it stops at the first part that it refuses. */
  method ParseLoop(named: char -> bool, text: string) returns (r: Parsed<seq<Part>>)
    ensures r == ParsePattern(named, text)
  {
    if text == [] {
      return Refused(Empty);
    }
    if '!' in text {
      return Refused(Bang);
    }
    var pieces := Split(text);
    var parts, i := [], 0;
    while i < |pieces|
      invariant 0 <= i <= |pieces| && ParseParts(named, pieces[..i]) == Good(parts)
    {
      var part := ParsePart(named, pieces[i]);
      assert pieces[..i + 1][..i] == pieces[..i];
      match part
      case Refused(why) =>
        RefusalStays(named, pieces, i + 1);
        return Refused(why);
      case Good(p) => parts := parts + [p];
      i := i + 1;
    }
    assert pieces[..i] == pieces;
    return Good(parts);
  }

  lemma {:induction false} RefusalStays(named: char -> bool, pieces: seq<string>, n: nat)
    requires n <= |pieces| && ParseParts(named, pieces[..n]).Refused?
    ensures ParseParts(named, pieces) == ParseParts(named, pieces[..n])
    decreases |pieces| - n
  {
    if n == |pieces| {
      assert pieces[..n] == pieces;
    } else {
      assert pieces[..n + 1][..n] == pieces[..n];
      RefusalStays(named, pieces, n + 1);
    }
  }

  /** `RefPattern::matches`: the flat matcher where it can, the table elsewhere. */
  method Matches(parts: seq<Part>, name: string) returns (r: bool)
    ensures r <==> Covered(parts, Split(name))
  {
    if Many in Head(parts) {
      var steps;
      r, steps := MatchParts(parts, Split(name));
    } else {
      r := MatchFlat(parts, Split(name));
    }
  }

  // --- Selectors --------------------------------------------------------------------

  datatype Selector = Selector(positive: seq<seq<Part>>, negative: seq<seq<Part>>)

  predicate IsNegative(entry: string) { entry != [] && entry[0] == '!' }

  function Body(entry: string): string { if IsNegative(entry) then entry[1..] else entry }

  ghost predicate AnyCovers(patterns: seq<seq<Part>>, name: seq<string>) {
    exists i :: 0 <= i < |patterns| && Covered(patterns[i], name)
  }

  ghost predicate Selects(s: Selector, name: string) {
    (s.positive == [] || AnyCovers(s.positive, Split(name))) && !AnyCovers(s.negative, Split(name))
  }

  /** The entry at `i` is a pattern of this sign. */
  ghost predicate Entry(named: char -> bool, entries: set<string>, negative: bool, p: seq<Part>) {
    exists e :: e in entries && IsNegative(e) == negative && ParsePattern(named, Body(e)) == Good(p)
  }

  /** The selector holds exactly the patterns of `entries`. */
  ghost predicate HoldsEntries(named: char -> bool, s: Selector, entries: set<string>) {
    && (forall p :: p in s.positive <==> Entry(named, entries, false, p))
    && (forall p :: p in s.negative <==> Entry(named, entries, true, p))
  }

  function EntrySet(entries: seq<string>): set<string> { set e | e in entries }

  function AddPattern(s: Selector, entry: string, p: seq<Part>): Selector {
    if IsNegative(entry) then s.(negative := s.negative + [p]) else s.(positive := s.positive + [p])
  }

  /** The patterns in entry order, with repeats, or the first refusal. */
  function SelectorOf(named: char -> bool, entries: seq<string>): Parsed<Selector> {
    if entries == [] then Good(Selector([], []))
    else
      match SelectorOf(named, entries[..|entries| - 1])
      case Refused(why) => Refused(why)
      case Good(s) =>
        match ParsePattern(named, Body(entries[|entries| - 1]))
        case Refused(why) => Refused(why)
        case Good(p) => Good(AddPattern(s, entries[|entries| - 1], p))
  }

  method ParseSelector(named: char -> bool, entries: seq<string>) returns (r: Parsed<Selector>)
    ensures r == SelectorOf(named, entries)
  {
    var s, i := Selector([], []), 0;
    while i < |entries|
      invariant 0 <= i <= |entries| && SelectorOf(named, entries[..i]) == Good(s)
    {
      var p := ParseLoop(named, Body(entries[i]));
      assert entries[..i + 1][..i] == entries[..i];
      match p
      case Refused(why) =>
        SelectorStays(named, entries, i + 1);
        return Refused(why);
      case Good(parts) => s := AddPattern(s, entries[i], parts);
      i := i + 1;
    }
    assert entries[..i] == entries;
    return Good(s);
  }

  lemma {:induction false} SelectorStays(named: char -> bool, entries: seq<string>, n: nat)
    requires n <= |entries| && SelectorOf(named, entries[..n]).Refused?
    ensures SelectorOf(named, entries) == SelectorOf(named, entries[..n])
    decreases |entries| - n
  {
    if n == |entries| {
      assert entries[..n] == entries;
    } else {
      assert entries[..n + 1][..n] == entries[..n];
      SelectorStays(named, entries, n + 1);
    }
  }

  /** A list parses when each entry does, and gives the patterns of its set of entries. */
  lemma {:induction false} SelectorHolds(named: char -> bool, entries: seq<string>)
    ensures SelectorOf(named, entries).Good? <==> forall e :: e in entries ==> ParsePattern(named, Body(e)).Good?
    ensures SelectorOf(named, entries).Good? ==>
            HoldsEntries(named, SelectorOf(named, entries).value, EntrySet(entries))
  {
    if entries != [] {
      var init, e := entries[..|entries| - 1], entries[|entries| - 1];
      SelectorHolds(named, init);
      assert entries == init + [e] && EntrySet(entries) == EntrySet(init) + {e};
      if SelectorOf(named, entries).Good? {
        HoldsMore(named, SelectorOf(named, init).value, EntrySet(init), e, ParsePattern(named, Body(e)).value);
      }
    }
  }

  lemma {:induction false} HoldsMore(named: char -> bool, s: Selector, entries: set<string>, e: string, p: seq<Part>)
    requires HoldsEntries(named, s, entries) && ParsePattern(named, Body(e)) == Good(p)
    ensures HoldsEntries(named, AddPattern(s, e, p), entries + {e})
  {
    var next := entries + {e};
    forall q, sign: bool
      ensures Entry(named, next, sign, q) <==> Entry(named, entries, sign, q) || (sign == IsNegative(e) && q == p)
    {
      if Entry(named, entries, sign, q) {
        var x :| x in entries && IsNegative(x) == sign && ParsePattern(named, Body(x)) == Good(q);
        assert x in next;
      }
      if sign == IsNegative(e) && q == p {
        assert e in next;
      }
    }
  }

  method AnyMatches(patterns: seq<seq<Part>>, name: string) returns (r: bool)
    ensures r <==> AnyCovers(patterns, Split(name))
  {
    var i := 0;
    while i < |patterns|
      invariant 0 <= i <= |patterns|
      invariant forall j :: 0 <= j < i ==> !Covered(patterns[j], Split(name))
    {
      var m := Matches(patterns[i], name);
      if m {
        return true;
      }
      i := i + 1;
    }
    return false;
  }

  method SelectorMatches(s: Selector, name: string) returns (r: bool)
    ensures r <==> Selects(s, name)
  {
    var any := AnyMatches(s.positive, name);
    var none := AnyMatches(s.negative, name);
    return (s.positive == [] || any) && !none;
  }

  /** Two lists with the same entries, in any order and with any repeats, select the same names. */
  lemma {:induction false} OrderHasNoEffect(named: char -> bool, a: seq<string>, b: seq<string>, name: string)
    requires EntrySet(a) == EntrySet(b)
    ensures SelectorOf(named, a).Good? <==> SelectorOf(named, b).Good?
    ensures SelectorOf(named, a).Good? ==>
            (Selects(SelectorOf(named, a).value, name) <==> Selects(SelectorOf(named, b).value, name))
  {
    SelectorHolds(named, a);
    SelectorHolds(named, b);
    forall e ensures e in a <==> e in b {
      assert e in EntrySet(a) <==> e in EntrySet(b);
    }
    if SelectorOf(named, a).Good? {
      SameEntries(named, SelectorOf(named, a).value, SelectorOf(named, b).value, EntrySet(a), name);
    }
  }

  lemma {:induction false} SameEntries(named: char -> bool, a: Selector, b: Selector, entries: set<string>,
                                       name: string)
    requires HoldsEntries(named, a, entries) && HoldsEntries(named, b, entries)
    ensures Selects(a, name) <==> Selects(b, name)
  {
    SamePatterns(a.positive, b.positive, Split(name));
    SamePatterns(a.negative, b.negative, Split(name));
    if a.positive != [] {
      assert a.positive[0] in b.positive;
    }
    if b.positive != [] {
      assert b.positive[0] in a.positive;
    }
  }

  lemma {:induction false} SamePatterns(a: seq<seq<Part>>, b: seq<seq<Part>>, name: seq<string>)
    requires forall p :: p in a <==> p in b
    ensures AnyCovers(a, name) <==> AnyCovers(b, name)
  {
    if AnyCovers(a, name) {
      var i :| 0 <= i < |a| && Covered(a[i], name);
      assert a[i] in b;
    }
    if AnyCovers(b, name) {
      var i :| 0 <= i < |b| && Covered(b[i], name);
      assert b[i] in a;
    }
  }
}
