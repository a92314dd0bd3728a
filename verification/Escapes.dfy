/** The escape sequences of key file values, and lists of values. */
module Escapes {
  import opened Bytes

  predicate IsWs(c: char) { c == ' ' || c == '\t' }

  // --- One value --------------------------------------------------------------

  /** What a character becomes; `leading` tells that only white space came before it. */
  function EscapeChar(c: char, leading: bool): string {
    if c == '\\' then ['\\', '\\']
    else if c == '\n' then ['\\', 'n']
    else if c == '\r' then ['\\', 'r']
    else if c == ' ' && leading then ['\\', 's']
    else if c == '\t' && leading then ['\\', 't']
    else [c]
  }

  function Escaped(s: string, leading: bool): string {
    if s == [] then [] else EscapeChar(s[0], leading) + Escaped(s[1..], leading && IsWs(s[0]))
  }

  lemma {:induction false} EscapeStep(out: string, s: string, i: nat, leading: bool)
    requires i < |s|
    ensures out + Escaped(s[i..], leading) ==
            (out + EscapeChar(s[i], leading)) + Escaped(s[i + 1..], leading && IsWs(s[i]))
  {
    assert s[i..][1..] == s[i + 1..];
  }

  method Escape(s: string) returns (out: string)
    ensures out == Escaped(s, true)
  {
    out := [];
    var leading, i := true, 0;
    assert s[0..] == s;
    while i < |s|
      invariant 0 <= i <= |s|
      invariant out + Escaped(s[i..], leading) == Escaped(s, true)
    {
      EscapeStep(out, s, i, leading);
      var c, piece := s[i], [s[i]];
      if c == '\\' {
        piece, leading := ['\\', '\\'], false;
      } else if c == '\n' {
        piece, leading := ['\\', 'n'], false;
      } else if c == '\r' {
        piece, leading := ['\\', 'r'], false;
      } else if c == ' ' && leading {
        piece := ['\\', 's'];
      } else if c == '\t' && leading {
        piece := ['\\', 't'];
      } else {
        leading := false;
      }
      out := out + piece;
      i := i + 1;
    }
  }

  /** The character of an escape sequence. */
  function Unescaped(c: char): Option<char> {
    if c == 's' then Some(' ')
    else if c == 'n' then Some('\n')
    else if c == 't' then Some('\t')
    else if c == 'r' then Some('\r')
    else if c == '\\' then Some('\\')
    else if c == ';' then Some(';')
    else None
  }

  datatype EscapeError = BadEscape(c: char) | LoneBackslash

  datatype Result<+T> = Ok(value: T) | Err(error: EscapeError)

  /** The text of a value, after `done`. */
  function UnescapedAfter(done: string, s: string): Result<string>
    decreases |s|
  {
    if s == [] then Ok(done)
    else if s[0] != '\\' then UnescapedAfter(done + [s[0]], s[1..])
    else if |s| == 1 then Err(LoneBackslash)
    else
      match Unescaped(s[1])
      case None => Err(BadEscape(s[1]))
      case Some(c) => UnescapedAfter(done + [c], s[2..])
  }

  method Unescape(s: string) returns (r: Result<string>)
    ensures r == UnescapedAfter([], s)
  {
    var out, i := [], 0;
    while i < |s|
      invariant 0 <= i <= |s|
      invariant UnescapedAfter(out, s[i..]) == UnescapedAfter([], s)
    {
      if s[i] != '\\' {
        assert s[i..][1..] == s[i + 1..];
        out := out + [s[i]];
        i := i + 1;
      } else if i + 1 == |s| {
        return Err(LoneBackslash);
      } else {
        assert s[i..][2..] == s[i + 2..] && s[i..][1] == s[i + 1];
        var c := Unescaped(s[i + 1]);
        if c.None? {
          return Err(BadEscape(s[i + 1]));
        }
        out := out + [c.value];
        i := i + 2;
      }
    }
    return Ok(out);
  }

  lemma {:induction false} UnescapeChar(done: string, c: char, leading: bool, rest: string)
    ensures UnescapedAfter(done, EscapeChar(c, leading) + rest) == UnescapedAfter(done + [c], rest)
  {
    var t := EscapeChar(c, leading) + rest;
    assert t[|EscapeChar(c, leading)|..] == rest;
  }

  /** Reading undoes the escapes, for every text. */
  lemma {:induction false} UnescapeEscape(done: string, s: string, leading: bool)
    ensures UnescapedAfter(done, Escaped(s, leading)) == Ok(done + s)
    decreases |s|
  {
    if s == [] {
      assert done + s == done;
    } else {
      var l := leading && IsWs(s[0]);
      UnescapeChar(done, s[0], leading, Escaped(s[1..], l));
      UnescapeEscape(done + [s[0]], s[1..], l);
      assert done + [s[0]] + s[1..] == done + s;
    }
  }

  /** No line end, and no white space at the start: what a value of a key file must be. */
  predicate ValueOk(v: string) {
    '\n' !in v && '\r' !in v && (v != [] ==> !IsWs(v[0]))
  }

  /** An escaped text passes the check of a value. */
  lemma {:induction false} EscapedIsValue(s: string, leading: bool)
    ensures '\n' !in Escaped(s, leading) && '\r' !in Escaped(s, leading)
    ensures leading ==> ValueOk(Escaped(s, leading))
  {
    if s != [] {
      EscapedIsValue(s[1..], leading && IsWs(s[0]));
    }
  }

  // --- Lists ------------------------------------------------------------------

  /** A backslash before every separator. */
  function Guarded(s: string): string {
    if s == [] then [] else GuardChar(s[0]) + Guarded(s[1..])
  }

  function GuardChar(c: char): string { if c == ';' then ['\\', ';'] else [c] }

  function ListText(items: seq<string>): string {
    if items == [] then [] else ListText(items[..|items| - 1]) + Guarded(Escaped(items[|items| - 1], true)) + [';']
  }

  method GuardItem(item: string, before: string) returns (value: string)
    ensures value == before + Guarded(item) + [';']
  {
    value := before;
    var i := 0;
    while i < |item|
      invariant 0 <= i <= |item|
      invariant value + Guarded(item[i..]) == before + Guarded(item)
    {
      ghost var was := value;
      if item[i] == ';' {
        value := value + ['\\'];
      }
      value := value + [item[i]];
      assert item[i..][1..] == item[i + 1..];
      assert value + Guarded(item[i + 1..]) == was + Guarded(item[i..]);
      i := i + 1;
    }
    value := value + [';'];
  }

  method JoinList(items: seq<string>) returns (value: string)
    ensures value == ListText(items)
  {
    value := [];
    var i := 0;
    while i < |items|
      invariant 0 <= i <= |items|
      invariant value == ListText(items[..i])
    {
      var escaped := Escape(items[i]);
      assert items[..i + 1][..i] == items[..i];
      value := GuardItem(escaped, value);
      i := i + 1;
    }
    assert items[..|items|] == items;
  }

  /** The raw items of a list, after the items `done` and the text `cur` of the next one. */
  function SplitAfter(done: seq<string>, cur: string, s: string): Result<seq<string>>
    decreases |s|
  {
    if s == [] then Ok(if cur == [] then done else done + [cur])
    else if s[0] == '\\' then
      if |s| == 1 then Err(LoneBackslash) else SplitAfter(done, cur + ['\\', s[1]], s[2..])
    else if s[0] == ';' then SplitAfter(done + [cur], [], s[1..])
    else SplitAfter(done, cur + [s[0]], s[1..])
  }

  function UnescapedAll(items: seq<string>): Result<seq<string>> {
    if items == [] then Ok([]) else
    match UnescapedAll(items[..|items| - 1])
    case Err(e) => Err(e)
    case Ok(all) =>
      match UnescapedAfter([], items[|items| - 1])
      case Err(e) => Err(e)
      case Ok(s) => Ok(all + [s])
  }

  function ItemsOf(raw: string): Result<seq<string>> {
    match SplitAfter([], [], raw)
    case Err(e) => Err(e)
    case Ok(items) => UnescapedAll(items)
  }

  method SplitList(raw: string) returns (r: Result<seq<string>>)
    ensures r == ItemsOf(raw)
  {
    var items: seq<string>, current: string, i := [], [], 0;
    assert raw[0..] == raw;
    while i < |raw|
      invariant 0 <= i <= |raw|
      invariant SplitAfter(items, current, raw[i..]) == SplitAfter([], [], raw)
    {
      assert raw[i..][1..] == raw[i + 1..];
      if raw[i] == '\\' {
        if i + 1 == |raw| {
          return Err(LoneBackslash);
        }
        assert raw[i..][2..] == raw[i + 2..];
        current := current + ['\\', raw[i + 1]];
        i := i + 2;
      } else if raw[i] == ';' {
        items, current := items + [current], [];
        i := i + 1;
      } else {
        current := current + [raw[i]];
        i := i + 1;
      }
    }
    if current != [] {
      items := items + [current];
    }
    r := UnescapeItems(items);
  }

  method UnescapeItems(items: seq<string>) returns (r: Result<seq<string>>)
    ensures r == UnescapedAll(items)
  {
    var out, i := [], 0;
    while i < |items|
      invariant 0 <= i <= |items|
      invariant Ok(out) == UnescapedAll(items[..i])
    {
      assert items[..i + 1][..i] == items[..i];
      var one := Unescape(items[i]);
      if one.Err? {
        StopsAt(items, i);
        return Err(one.error);
      }
      out := out + [one.value];
      i := i + 1;
    }
    assert items[..|items|] == items;
    return Ok(out);
  }

  /** The first item that does not read decides the error. */
  lemma {:induction false} StopsAt(items: seq<string>, i: nat)
    requires i < |items| && UnescapedAll(items[..i]).Ok? && UnescapedAfter([], items[i]).Err?
    ensures UnescapedAll(items) == Err(UnescapedAfter([], items[i]).error)
    decreases |items|
  {
    if i == |items| - 1 {
      assert items[..i + 1] == items;
    } else {
      var init := items[..|items| - 1];
      assert init[..i] == items[..i];
      StopsAt(init, i);
    }
  }

  // --- Lists round trip -------------------------------------------------------

  /** The guarded text of one escaped character. */
  function ItemChar(c: char, leading: bool): string { Guarded(EscapeChar(c, leading)) }

  lemma {:induction false} GuardedConcat(a: string, b: string)
    ensures Guarded(a + b) == Guarded(a) + Guarded(b)
  {
    if a == [] {
      assert a + b == b;
    } else {
      GuardedConcat(a[1..], b);
      assert (a + b)[1..] == a[1..] + b && (a + b)[0] == a[0];
      var head, x, y := GuardChar(a[0]), Guarded(a[1..]), Guarded(b);
      assert head + (x + y) == head + x + y;
    }
  }

  lemma {:induction false} ItemCharIs(c: char, leading: bool)
    ensures ItemChar(c, leading) == if c == ';' then ['\\', ';'] else EscapeChar(c, leading)
  {
    var e := EscapeChar(c, leading);
    if |e| == 2 {
      assert e[1..][1..] == [] && e[1..] == [e[1]];
      assert Guarded(e[1..]) == GuardChar(e[1]) + [];
    } else {
      assert e[1..] == [];
      assert Guarded(e) == GuardChar(c) + [];
    }
  }

  /** The splitter takes the text of one character into the current item. */
  lemma {:induction false} SplitChar(done: seq<string>, cur: string, c: char, leading: bool, rest: string)
    ensures SplitAfter(done, cur, ItemChar(c, leading) + rest) == SplitAfter(done, cur + ItemChar(c, leading), rest)
  {
    ItemCharIs(c, leading);
    var t := ItemChar(c, leading) + rest;
    assert t[|ItemChar(c, leading)|..] == rest;
  }

  lemma {:induction false} Assoc(a: string, b: string, c: string)
    ensures (a + b) + c == a + (b + c)
  {
  }

  lemma {:induction false} ItemText(s: string, leading: bool, head: string, tail: string)
    requires s != [] && head == ItemChar(s[0], leading) && tail == Guarded(Escaped(s[1..], leading && IsWs(s[0])))
    ensures Guarded(Escaped(s, leading)) == head + tail
  {
    GuardedConcat(EscapeChar(s[0], leading), Escaped(s[1..], leading && IsWs(s[0])));
  }

  /** The splitter takes the text of an item into the current item. */
  lemma {:induction false} SplitItem(done: seq<string>, cur: string, s: string, leading: bool, rest: string,
                                     text: string)
    requires text == Guarded(Escaped(s, leading))
    ensures SplitAfter(done, cur, text + rest) == SplitAfter(done, cur + text, rest)
    decreases |s|
  {
    if s == [] {
      assert text + rest == rest && cur + text == cur;
    } else {
      var head, tail := ItemChar(s[0], leading), Guarded(Escaped(s[1..], leading && IsWs(s[0])));
      ItemText(s, leading, head, tail);
      Assoc(head, tail, rest);
      Assoc(cur, head, tail);
      SplitChar(done, cur, s[0], leading, tail + rest);
      SplitItem(done, cur + head, s[1..], leading && IsWs(s[0]), rest, tail);
    }
  }

  lemma {:induction false} UnescapeItemChar(done: string, c: char, leading: bool, rest: string)
    ensures UnescapedAfter(done, ItemChar(c, leading) + rest) == UnescapedAfter(done + [c], rest)
  {
    ItemCharIs(c, leading);
    if c == ';' {
      var t := ItemChar(c, leading) + rest;
      assert t[2..] == rest;
    } else {
      UnescapeChar(done, c, leading, rest);
    }
  }

  lemma {:induction false} UnescapeItem(done: string, s: string, leading: bool)
    ensures UnescapedAfter(done, Guarded(Escaped(s, leading))) == Ok(done + s)
    decreases |s|
  {
    if s == [] {
      assert done + s == done;
    } else {
      var head, tail := ItemChar(s[0], leading), Guarded(Escaped(s[1..], leading && IsWs(s[0])));
      ItemText(s, leading, head, tail);
      UnescapeItemChar(done, s[0], leading, tail);
      UnescapeItem(done + [s[0]], s[1..], leading && IsWs(s[0]));
      Assoc(done, [s[0]], s[1..]);
      assert [s[0]] + s[1..] == s;
    }
  }

  function RawItems(items: seq<string>): (r: seq<string>)
    ensures |r| == |items|
  {
    seq(|items|, i requires 0 <= i < |items| => Guarded(Escaped(items[i], true)))
  }

  lemma {:induction false} SplitSeparator(done: seq<string>, cur: string, rest: string)
    ensures SplitAfter(done, cur, [';'] + rest) == SplitAfter(done + [cur], [], rest)
  {
    assert ([';'] + rest)[1..] == rest;
  }

  lemma {:induction false} SplitListText(items: seq<string>, rest: string)
    ensures SplitAfter([], [], ListText(items) + rest) == SplitAfter(RawItems(items), [], rest)
    decreases |items|
  {
    if items == [] {
      assert ListText(items) + rest == rest && RawItems(items) == [];
    } else {
      var init, last := items[..|items| - 1], items[|items| - 1];
      var before, text, after := ListText(init), Guarded(Escaped(last, true)), [';'] + rest;
      Assoc(before + text, [';'], rest);
      Assoc(before, text, after);
      SplitListText(init, text + after);
      SplitItem(RawItems(init), [], last, true, after, text);
      assert [] + text == text;
      SplitSeparator(RawItems(init), text, rest);
      assert RawItems(items) == RawItems(init) + [text];
    }
  }

  lemma {:induction false} UnescapeRaw(items: seq<string>)
    ensures UnescapedAll(RawItems(items)) == Ok(items)
    decreases |items|
  {
    if items != [] {
      var init, last := items[..|items| - 1], items[|items| - 1];
      UnescapeRaw(init);
      assert RawItems(items)[..|items| - 1] == RawItems(init);
      UnescapeItem([], last, true);
      assert [] + last == last && items == init + [last];
    }
  }

  /** Reading a written list gives the same list, with its empty items and separators. */
  lemma {:induction false} ListRoundTrip(items: seq<string>)
    ensures ItemsOf(ListText(items)) == Ok(items)
  {
    SplitListText(items, []);
    assert ListText(items) + [] == ListText(items);
    UnescapeRaw(items);
  }

  lemma {:induction false} GuardedIsValue(s: string)
    requires '\n' !in s && '\r' !in s
    ensures '\n' !in Guarded(s) && '\r' !in Guarded(s)
    ensures (s != [] ==> !IsWs(s[0])) ==> ValueOk(Guarded(s))
  {
    if s != [] {
      GuardedIsValue(s[1..]);
    }
  }

  /** The text of a list passes the check of a value. */
  lemma {:induction false} ListIsValue(items: seq<string>)
    ensures ValueOk(ListText(items))
  {
    if items != [] {
      var last := Escaped(items[|items| - 1], true);
      ListIsValue(items[..|items| - 1]);
      EscapedIsValue(items[|items| - 1], true);
      GuardedIsValue(last);
    }
  }
}
