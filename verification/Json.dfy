/**
 The JSON document of a report: the indented printer, and the reader. Texts are
 sequences of Unicode scalar values.
 */
module JsonText {

  type i64 = x: int | -0x8000_0000_0000_0000 <= x < 0x8000_0000_0000_0000

  datatype Json =
    | Null
    | Bool(flag: bool)
    | Int(number: i64)
    | Str(text: string)
    | Array(items: seq<Json>)
    | Object(fields: seq<Field>)

  datatype Field = Field(name: string, value: Json)

  // --- The printer ----------------------------------------------------------------

  function Digit(d: nat): char
    requires d < 16
  {
    if d < 10 then ('0' as int + d) as char else ('a' as int + (d - 10)) as char
  }

  function ShowNat(n: nat): string {
    if n < 10 then [Digit(n)] else ShowNat(n / 10) + [Digit(n % 10)]
  }

  function Size(n: int): nat { if n < 0 then -n else n }

  function ShowInt(n: int): string {
    if n < 0 then ['-'] + ShowNat(Size(n)) else ShowNat(n)
  }

  function EscapeChar(c: char): string {
    if c == '"' then ['\\', '"']
    else if c == '\\' then ['\\', '\\']
    else if c == '\n' then ['\\', 'n']
    else if c == '\r' then ['\\', 'r']
    else if c == '\t' then ['\\', 't']
    else if c as int < 32 then ['\\', 'u', '0', '0', Digit(c as int / 16), Digit(c as int % 16)]
    else [c]
  }

  /** The characters of a string and the quote that closes it. */
  function Escaped(s: string): string {
    if s == [] then ['"'] else EscapeChar(s[0]) + Escaped(s[1..])
  }

  function Indent(depth: nat): string {
    if depth == 0 then [] else [' ', ' '] + Indent(depth - 1)
  }

  function Text(v: Json, depth: nat): string
    decreases v
  {
    match v
    case Null => ['n', 'u', 'l', 'l']
    case Bool(flag) => if flag then ['t', 'r', 'u', 'e'] else ['f', 'a', 'l', 's', 'e']
    case Int(number) => ShowInt(number)
    case Str(text) => ['"'] + Escaped(text)
    case Array(items) => if items == [] then ['[', ']'] else ['[', '\n'] + ItemsText(items, depth)
    case Object(fields) => if fields == [] then ['{', '}'] else ['{', '\n'] + FieldsText(fields, depth)
  }

  /** The items of an array from the first line on, and its closing bracket. */
  function ItemsText(items: seq<Json>, depth: nat): string
    decreases items
  {
    if items == [] then []
    else
      Indent(depth + 1) + (Text(items[0], depth + 1) +
      (if |items| == 1 then ['\n'] + (Indent(depth) + [']']) else [',', '\n'] + ItemsText(items[1..], depth)))
  }

  function FieldsText(fields: seq<Field>, depth: nat): string
    decreases fields
  {
    if fields == [] then []
    else
      Indent(depth + 1) + (['"'] + (Escaped(fields[0].name) + ([':', ' '] + (Text(fields[0].value, depth + 1) +
      (if |fields| == 1 then ['\n'] + (Indent(depth) + ['}']) else [',', '\n'] + FieldsText(fields[1..], depth))))))
  }

  function Render(v: Json): string { Text(v, 0) + ['\n'] }

  // --- The reader -------------------------------------------------------------------

  datatype Trouble =
    | NoValue | NoLiteral | NoStart | NoNumber | OpenString | OpenEscape | ShortCode | NoCode | NoEscape
    | NoComma | NoColon | NoQuote | Trailing

  datatype Read<T> = Fail(why: Trouble) | Got(value: T, rest: string)

  predicate IsSpace(c: char) { c == ' ' || c == '\t' || c == '\n' || c == '\r' }

  predicate IsDigit(c: char) { '0' <= c <= '9' }

  function SkipSpace(s: string): (t: string)
    ensures |t| <= |s|
  {
    if s != [] && IsSpace(s[0]) then SkipSpace(s[1..]) else s
  }

  function DigitsEnd(s: string): (n: nat)
    ensures n <= |s|
  {
    if s != [] && IsDigit(s[0]) then 1 + DigitsEnd(s[1..]) else 0
  }

  function DigitValue(c: char): nat
    requires IsDigit(c)
  {
    c as int - '0' as int
  }

  function DigitsValue(s: string): nat
    requires forall i :: 0 <= i < |s| ==> IsDigit(s[i])
  {
    if s == [] then 0 else DigitsValue(s[..|s| - 1]) * 10 + DigitValue(s[|s| - 1])
  }

  function DigitRun(s: string): (d: string)
    ensures forall i :: 0 <= i < |d| ==> IsDigit(d[i])
  {
    DigitsAreDigits(s);
    s[..DigitsEnd(s)]
  }

  lemma {:induction false} DigitsAreDigits(s: string)
    ensures forall i :: 0 <= i < DigitsEnd(s) ==> IsDigit(s[i])
  {
    if s != [] && IsDigit(s[0]) {
      DigitsAreDigits(s[1..]);
      forall i | 0 <= i < DigitsEnd(s) ensures IsDigit(s[i]) {
        if i > 0 {
          assert s[i] == s[1..][i - 1];
        }
      }
    }
  }

  datatype Outcome<T> = Ok(value: T) | Err(why: Trouble)

  /** The number that a sign and digits name, when it is in range. */
  function ToInt(negative: bool, d: string): (r: Outcome<Json>)
    requires forall i :: 0 <= i < |d| ==> IsDigit(d[i])
  {
    if d == [] then Err(NoNumber)
    else
      var m: int := DigitsValue(d);
      var n := if negative then -m else m;
      if -0x8000_0000_0000_0000 <= n < 0x8000_0000_0000_0000 then Ok(Int(n)) else Err(NoNumber)
  }

  function ReadInt(s: string): Read<Json> {
    var negative := s != [] && s[0] == '-';
    var t := if negative then s[1..] else s;
    match ToInt(negative, DigitRun(t))
    case Err(why) => Fail(why)
    case Ok(v) => Got(v, t[DigitsEnd(t)..])
  }

  function HexValue(c: char): int {
    if '0' <= c <= '9' then c as int - '0' as int
    else if 'a' <= c <= 'f' then c as int - 'a' as int + 10
    else if 'A' <= c <= 'F' then c as int - 'A' as int + 10
    else -1
  }

  /** The number that hexadecimal digits name, or -1. */
  function HexNumber(s: string): (n: int)
    ensures -1 <= n
    ensures |s| <= 4 ==> n < 0x1_0000
    ensures |s| <= 3 ==> n < 0x1000
    ensures |s| <= 2 ==> n < 0x100
    ensures |s| <= 1 ==> n < 0x10
    ensures |s| == 0 ==> n == 0
  {
    if s == [] then 0
    else
      var n, d := HexNumber(s[..|s| - 1]), HexValue(s[|s| - 1]);
      if n < 0 || d < 0 then -1 else n * 16 + d
  }

  /** The code of a `\u` escape. One leading plus sign is taken. */
  function HexCode(s: string): (n: int)
    requires |s| == 4
    ensures -1 <= n < 0x1_0000
  {
    if s[0] == '+' then HexNumber(s[1..]) else HexNumber(s)
  }

  /** The character of a code. One half of a surrogate pair is no character. */
  function CodeChar(n: nat): char
    requires n < 0x1_0000
  {
    if 0xD800 <= n < 0xE000 then 0xFFFD as char else n as char
  }

  /** The character that an escape names, from the character after the backslash. */
  function ReadEscape(s: string): (r: Read<char>)
    ensures r.Got? ==> |r.rest| < |s|
  {
    if s == [] then Fail(OpenEscape)
    else
      match s[0]
      case '"' => Got('"', s[1..])
      case '\\' => Got('\\', s[1..])
      case '/' => Got('/', s[1..])
      case 'b' => Got(8 as char, s[1..])
      case 'f' => Got(12 as char, s[1..])
      case 'n' => Got('\n', s[1..])
      case 'r' => Got('\r', s[1..])
      case 't' => Got('\t', s[1..])
      case 'u' =>
        if |s| < 5 then Fail(ShortCode)
        else
          var n := HexCode(s[1..5]);
          if n < 0 then Fail(NoCode) else Got(CodeChar(n), s[5..])
      case _ => Fail(NoEscape)
  }

  /** The characters of a string up to its closing quote, after those in `done`. */
  function ReadChars(s: string, done: string): (r: Read<string>)
    ensures r.Got? ==> |r.rest| < |s|
    decreases |s|
  {
    if s == [] then Fail(OpenString)
    else if s[0] == '"' then Got(done, s[1..])
    else if s[0] == '\\' then
      match ReadEscape(s[1..])
      case Fail(why) => Fail(why)
      case Got(c, rest) => ReadChars(rest, done + [c])
    else ReadChars(s[1..], done + [s[0]])
  }

  function ReadString(s: string): (r: Read<string>)
    ensures r.Got? ==> |r.rest| < |s|
  {
    if s != [] && s[0] == '"' then ReadChars(s[1..], []) else Fail(NoQuote)
  }

  function ReadWord(s: string, word: string, v: Json): Read<Json> {
    if word <= s then Got(v, s[|word|..]) else Fail(NoLiteral)
  }

  function ReadValue(s: string): (r: Read<Json>)
    ensures r.Got? ==> |r.rest| < |s|
    decreases |s|, 0
  {
    if s == [] then Fail(NoValue)
    else if s[0] == 'n' then ReadWord(s, ['n', 'u', 'l', 'l'], Null)
    else if s[0] == 't' then ReadWord(s, ['t', 'r', 'u', 'e'], Bool(true))
    else if s[0] == 'f' then ReadWord(s, ['f', 'a', 'l', 's', 'e'], Bool(false))
    else if s[0] == '"' then
      match ReadString(s)
      case Fail(why) => Fail(why)
      case Got(text, rest) => Got(Str(text), rest)
    else if s[0] == '[' then
      var t := SkipSpace(s[1..]);
      if t != [] && t[0] == ']' then Got(Array([]), t[1..]) else ReadItems(t, [])
    else if s[0] == '{' then
      var t := SkipSpace(s[1..]);
      if t != [] && t[0] == '}' then Got(Object([]), t[1..]) else ReadFields(t, [])
    else if s[0] == '-' || IsDigit(s[0]) then ReadInt(s)
    else Fail(NoStart)
  }

  function ReadItems(s: string, items: seq<Json>): (r: Read<Json>)
    ensures r.Got? ==> |r.rest| < |s|
    decreases |s|, 1
  {
    match ReadValue(SkipSpace(s))
    case Fail(why) => Fail(why)
    case Got(v, rest) =>
      var t := SkipSpace(rest);
      if t != [] && t[0] == ',' then ReadItems(t[1..], items + [v])
      else if t != [] && t[0] == ']' then Got(Array(items + [v]), t[1..])
      else Fail(NoComma)
  }

  /** The name of a member, up to where its value starts. */
  function ReadName(s: string): (r: Read<string>)
    ensures r.Got? ==> |r.rest| < |s|
  {
    match ReadString(SkipSpace(s))
    case Fail(why) => Fail(why)
    case Got(name, rest) =>
      var t := SkipSpace(rest);
      if t != [] && t[0] == ':' then Got(name, SkipSpace(t[1..])) else Fail(NoColon)
  }

  function ReadFields(s: string, fields: seq<Field>): (r: Read<Json>)
    ensures r.Got? ==> |r.rest| < |s|
    decreases |s|, 1
  {
    match ReadName(s)
    case Fail(why) => Fail(why)
    case Got(name, from) =>
      match ReadValue(from)
      case Fail(why) => Fail(why)
      case Got(v, rest) =>
        var t := SkipSpace(rest);
        if t != [] && t[0] == ',' then ReadFields(t[1..], fields + [Field(name, v)])
        else if t != [] && t[0] == '}' then Got(Object(fields + [Field(name, v)]), t[1..])
        else Fail(NoComma)
  }

  function Parse(text: string): Read<Json> {
    match ReadValue(SkipSpace(text))
    case Fail(why) => Fail(why)
    case Got(v, rest) => if SkipSpace(rest) == [] then Got(v, []) else Fail(Trailing)
  }

  // --- The reader undoes the printer ---------------------------------------------------

  /** A text that does not go on with a digit. */
  predicate Apart(post: string) { post == [] || !IsDigit(post[0]) }

  predicate AllDigits(d: string) { forall i :: 0 <= i < |d| ==> IsDigit(d[i]) }

  lemma {:induction false} ShowNatReads(n: nat)
    ensures AllDigits(ShowNat(n)) && ShowNat(n) != [] && DigitsValue(ShowNat(n)) == n
  {
    if n < 10 {
      assert [Digit(n)][..0] == [];
      assert DigitsValue([]) == 0;
    } else {
      ShowNatReads(n / 10);
      var init, last := ShowNat(n / 10), Digit(n % 10);
      assert (init + [last])[..|init|] == init;
      assert DigitValue(last) == n % 10;
    }
  }

  lemma {:induction false} RunOfDigits(d: string, post: string)
    requires AllDigits(d) && Apart(post)
    ensures DigitsEnd(d + post) == |d|
  {
    if d == [] {
      assert d + post == post;
    } else {
      assert (d + post)[1..] == d[1..] + post;
      RunOfDigits(d[1..], post);
    }
  }

  lemma {:induction false} IntReads(n: i64, post: string)
    requires Apart(post)
    ensures ReadInt(ShowInt(n) + post) == Got(Int(n), post)
  {
    var d := ShowNat(Size(n));
    ShowNatReads(Size(n));
    if n < 0 {
      SignedReads(n, d, post, ['-'] + d + post);
    } else {
      UnsignedReads(n, d, post, d + post);
    }
  }

  lemma {:induction false} SignedReads(n: i64, d: string, post: string, text: string)
    requires n < 0 && AllDigits(d) && DigitsValue(d) == Size(n) && d != [] && Apart(post) && text == ['-'] + d + post
    ensures ReadInt(text) == Got(Int(n), post)
  {
    assert text[0] == '-' && text[1..] == d + post;
    DigitsRead(d, post, text[1..]);
  }

  lemma {:induction false} UnsignedReads(n: i64, d: string, post: string, text: string)
    requires 0 <= n && AllDigits(d) && DigitsValue(d) == n && d != [] && Apart(post) && text == d + post
    ensures ReadInt(text) == Got(Int(n), post)
  {
    assert text[0] == d[0] && IsDigit(d[0]);
    DigitsRead(d, post, text);
  }

  lemma {:induction false} DigitsRead(d: string, post: string, text: string)
    requires AllDigits(d) && Apart(post) && text == d + post
    ensures DigitRun(text) == d && text[DigitsEnd(text)..] == post
  {
    RunOfDigits(d, post);
  }

  // --- The codes that the reader takes -------------------------------------------------

  predicate AllHex(s: string) { forall i :: 0 <= i < |s| ==> HexValue(s[i]) >= 0 }

  lemma {:induction false} NumberIsHex(s: string)
    ensures HexNumber(s) >= 0 <==> AllHex(s)
  {
    if s != [] {
      NumberIsHex(s[..|s| - 1]);
    }
  }

  /**
   A `\u` escape is read exactly if four hexadecimal digits follow it, or a plus
   sign and three. So the reader refuses all but four digits exactly if no plus
   sign follows the `u`.
   */
  lemma {:induction false} CodeIsRead(s: string)
    requires s != [] && s[0] == 'u'
    ensures ReadEscape(s).Got? <==> |s| >= 5 && (AllHex(s[1..5]) || (s[1] == '+' && AllHex(s[2..5])))
    ensures (ReadEscape(s).Got? <==> |s| >= 5 && AllHex(s[1..5])) <==> !(|s| >= 5 && s[1] == '+' && AllHex(s[2..5]))
  {
    if |s| >= 5 {
      NumberIsHex(s[1..5]);
      NumberIsHex(s[2..5]);
      assert s[1..5][1..] == s[2..5] && s[1..5][0] == s[1];
    }
  }

  /** The reader takes a code of three digits behind a plus sign. */
  lemma {:induction false} PlusIsRead()
    ensures ReadEscape(['u', '+', '0', '4', '1']) == Got('A', []) && !AllHex(['+', '0', '4', '1'])
  {
    var s := ['u', '+', '0', '4', '1'];
    assert s[1..5] == ['+', '0', '4', '1'] && s[1..5][1..] == ['0', '4', '1'] && s[5..] == [];
    assert ['0', '4', '1'][..2] == ['0', '4'] && ['0', '4'][..1] == ['0'] && ['0'][..0] == [];
    assert HexNumber(['0']) == 0;
    assert HexNumber(['0', '4']) == 4;
    assert HexNumber(['0', '4', '1']) == 65;
    assert HexValue(['+', '0', '4', '1'][0]) < 0;
  }

  /** The escape of a character names that character. */
  lemma {:induction false} EscapeReads(c: char, post: string)
    requires EscapeChar(c) != [c]
    ensures EscapeChar(c)[0] == '\\' && ReadEscape(EscapeChar(c)[1..] + post) == Got(c, post)
  {
    var e := EscapeChar(c);
    if |e| == 2 {
      assert (e[1..] + post)[1..] == post;
    } else {
      CodeReads(c as int);
      var code := ['0', '0', Digit(c as int / 16), Digit(c as int % 16)];
      assert (e[1..] + post)[1..5] == code && (e[1..] + post)[5..] == post;
    }
  }

  lemma {:induction false} CodeReads(n: nat)
    requires n < 32
    ensures HexCode(['0', '0', Digit(n / 16), Digit(n % 16)]) == n
  {
    var a, b := Digit(n / 16), Digit(n % 16);
    assert HexValue(a) == n / 16 && HexValue(b) == n % 16 && HexValue('0') == 0;
    assert ['0', '0', a, b][..3] == ['0', '0', a] && ['0', '0', a][..2] == ['0', '0'] && ['0', '0'][..1] == ['0'];
    assert ['0'][..0] == [];
    assert HexNumber(['0']) == 0;
    assert HexNumber(['0', '0']) == 0;
    assert HexNumber(['0', '0', a]) == n / 16;
  }

  lemma {:induction false} CharReads(c: char, rest: string, text: string, done: string)
    requires text == EscapeChar(c) + rest
    ensures ReadChars(text, done) == ReadChars(rest, done + [c])
  {
    if EscapeChar(c) == [c] {
      assert text[1..] == rest;
    } else {
      EscapeReads(c, rest);
      assert text[1..] == EscapeChar(c)[1..] + rest;
    }
  }

  lemma {:induction false} CharsRead(s: string, done: string, post: string)
    ensures ReadChars(Escaped(s) + post, done) == Got(done + s, post)
    decreases |s|
  {
    if s == [] {
      assert (Escaped(s) + post)[1..] == post && done + s == done;
    } else {
      var c, rest := s[0], Escaped(s[1..]) + post;
      CharsRead(s[1..], done + [c], post);
      assert (done + [c]) + s[1..] == done + s;
      Assoc(EscapeChar(c), Escaped(s[1..]), post);
      CharReads(c, rest, Escaped(s) + post, done);
    }
  }

  lemma {:induction false} StringReads(s: string, post: string)
    ensures ReadString(['"'] + (Escaped(s) + post)) == Got(s, post)
  {
    CharsRead(s, [], post);
    assert (['"'] + (Escaped(s) + post))[1..] == Escaped(s) + post && [] + s == s;
  }

  predicate Blank(s: string) { forall i :: 0 <= i < |s| ==> IsSpace(s[i]) }

  lemma {:induction false} SkipBlank(s: string, t: string)
    requires Blank(s)
    ensures SkipSpace(s + t) == SkipSpace(t)
  {
    if s == [] {
      assert s + t == t;
    } else {
      assert (s + t)[1..] == s[1..] + t;
      SkipBlank(s[1..], t);
    }
  }

  lemma {:induction false} IndentIsBlank(depth: nat)
    ensures Blank(Indent(depth))
  {
    if depth > 0 {
      IndentIsBlank(depth - 1);
    }
  }

  lemma {:induction false} ShowIntStarts(n: i64)
    ensures ShowInt(n) != [] && (ShowInt(n)[0] == '-' || IsDigit(ShowInt(n)[0]))
  {
    ShowNatReads(Size(n));
    assert IsDigit(ShowNat(Size(n))[0]);
  }

  /** The text of a value starts with no white space, and with no closing bracket. */
  predicate Starts(s: string) {
    s != [] && !IsSpace(s[0]) && s[0] != ']' && s[0] != '}'
  }

  lemma {:induction false} TextStarts(v: Json, depth: nat)
    ensures Starts(Text(v, depth))
  {
    if v.Int? {
      ShowIntStarts(v.number);
    }
  }

  /** The reader gives the value of a printed text, and stops where the text does. */
  ghost predicate Reads(s: string, v: Json, post: string) {
    ReadValue(s) == Got(v, post)
  }

  lemma {:induction false} WordReads(word: string, v: Json, post: string)
    requires word == Text(v, 0) && (v.Null? || v.Bool?)
    ensures Reads(word + post, v, post)
  {
    assert (word + post)[..|word|] == word && (word + post)[|word|..] == post;
  }

  lemma {:induction false} NumberReads(n: i64, post: string)
    requires Apart(post)
    ensures Reads(ShowInt(n) + post, Int(n), post)
  {
    IntReads(n, post);
    ShowIntStarts(n);
  }

  lemma {:induction false} StrReads(text: string, post: string)
    ensures Reads((['"'] + Escaped(text)) + post, Str(text), post)
  {
    StringReads(text, post);
    assert (['"'] + Escaped(text)) + post == ['"'] + (Escaped(text) + post);
  }

  lemma {:induction false} SkipTwice(s: string)
    ensures SkipSpace(SkipSpace(s)) == SkipSpace(s)
  {
    if s != [] && IsSpace(s[0]) {
      SkipTwice(s[1..]);
    }
  }

  /** What follows an item: a comma and the next item, or the closing bracket. */
  function AfterItem(rest: string, items: seq<Json>): Read<Json> {
    var t := SkipSpace(rest);
    if t != [] && t[0] == ',' then ReadItems(t[1..], items)
    else if t != [] && t[0] == ']' then Got(Array(items), t[1..])
    else Fail(NoComma)
  }

  lemma {:induction false} ItemReads(blank: string, body: string, v: Json, rest: string, done: seq<Json>)
    requires Blank(blank) && Starts(body) && Reads(body, v, rest)
    ensures ReadItems(blank + body, done) == AfterItem(rest, done + [v])
  {
    SkipBlank(blank, body);
  }

  /** The end of a list: a line feed, the indent and the bracket. */
  function Close(depth: nat, bracket: char): string { ['\n'] + (Indent(depth) + [bracket]) }

  lemma {:induction false} CloseReads(depth: nat, bracket: char, post: string)
    requires bracket == ']' || bracket == '}'
    ensures SkipSpace(Close(depth, bracket) + post) == [bracket] + post && Apart(Close(depth, bracket) + post)
  {
    IndentIsBlank(depth);
    var blank := ['\n'] + Indent(depth);
    assert Close(depth, bracket) + post == blank + ([bracket] + post);
    SkipBlank(blank, [bracket] + post);
  }

  /** What the text of a list holds after an item. */
  function ItemsTail(items: seq<Json>, depth: nat): string
    requires items != []
  {
    if |items| == 1 then Close(depth, ']') else [',', '\n'] + ItemsText(items[1..], depth)
  }

  lemma {:induction false} ItemsParts(items: seq<Json>, depth: nat, post: string)
    requires items != []
    ensures ItemsText(items, depth) + post ==
            Indent(depth + 1) + (Text(items[0], depth + 1) + (ItemsTail(items, depth) + post))
    ensures Apart(ItemsTail(items, depth) + post)
  {
    var head, text, tail := Indent(depth + 1), Text(items[0], depth + 1), ItemsTail(items, depth);
    assert ItemsText(items, depth) == head + (text + tail);
    assert (head + (text + tail)) + post == head + (text + (tail + post));
  }

  lemma {:induction false} CommaReads(more: string, done: seq<Json>)
    ensures AfterItem([',', '\n'] + more, done) == ReadItems(more, done)
  {
    var t := [',', '\n'] + more;
    assert SkipSpace(t) == t && t[1..] == ['\n'] + more;
    SkipBlank(['\n'], more);
  }

  lemma {:induction false} LastReads(depth: nat, done: seq<Json>, post: string)
    ensures AfterItem(Close(depth, ']') + post, done) == Got(Array(done), post)
  {
    CloseReads(depth, ']', post);
    assert ([']'] + post)[1..] == post;
  }

  lemma {:induction false} FirstReads(items: seq<Json>, depth: nat, next: nat, done: seq<Json>, post: string,
                                      tail: string)
    requires items != [] && next == depth + 1 && tail == ItemsTail(items, depth) + post
    requires Reads(Text(items[0], next) + tail, items[0], tail)
    ensures ReadItems(ItemsText(items, depth) + post, done) == AfterItem(tail, done + [items[0]])
  {
    ItemsParts(items, depth, post);
    TextStarts(items[0], next);
    IndentIsBlank(next);
    ItemReads(Indent(next), Text(items[0], next) + tail, items[0], tail, done);
  }

  lemma {:induction false} ItemsRead(items: seq<Json>, depth: nat, done: seq<Json>, post: string)
    requires items != []
    ensures ReadItems(ItemsText(items, depth) + post, done) == Got(Array(done + items), post)
    decreases items, 1
  {
    var tail, now := ItemsTail(items, depth) + post, done + [items[0]];
    ValueReads(items[0], depth + 1, tail);
    FirstReads(items, depth, depth + 1, done, post, tail);
    TailReads(items, depth, now, post, tail);
    if |items| == 1 {
      assert now == done + items;
    } else {
      ItemsRead(items[1..], depth, now, post);
      assert now + items[1..] == done + items;
    }
  }

  lemma {:induction false} TailReads(items: seq<Json>, depth: nat, now: seq<Json>, post: string, tail: string)
    requires items != [] && tail == ItemsTail(items, depth) + post
    ensures |items| == 1 ==> AfterItem(tail, now) == Got(Array(now), post)
    ensures |items| > 1 ==> AfterItem(tail, now) == ReadItems(ItemsText(items[1..], depth) + post, now)
  {
    if |items| == 1 {
      LastReads(depth, now, post);
    } else {
      var more := ItemsText(items[1..], depth) + post;
      TailParts(items, depth, post, tail, more);
      CommaReads(more, now);
    }
  }

  lemma {:induction false} TailParts(items: seq<Json>, depth: nat, post: string, tail: string, more: string)
    requires |items| > 1 && tail == ItemsTail(items, depth) + post && more == ItemsText(items[1..], depth) + post
    ensures tail == [',', '\n'] + more
  {
  }

  /** The list of an array opens with a line feed, an indent and its first item. */
  lemma {:induction false} ArrayOpens(items: seq<Json>, depth: nat, post: string, text: string)
    requires items != [] && text == ItemsText(items, depth) + post
    ensures Starts(SkipSpace(text)) && ReadItems(SkipSpace(text), []) == ReadItems(text, [])
  {
    ItemsParts(items, depth, post);
    IndentIsBlank(depth + 1);
    TextStarts(items[0], depth + 1);
    SkipBlank(Indent(depth + 1), Text(items[0], depth + 1) + (ItemsTail(items, depth) + post));
    SkipTwice(text);
  }

  lemma {:induction false} BracketReads(text: string, s: string)
    requires s == ['[', '\n'] + text && Starts(SkipSpace(text))
    ensures ReadValue(s) == ReadItems(SkipSpace(text), [])
  {
    assert s[1..] == ['\n'] + text;
    SkipBlank(['\n'], text);
  }

  lemma {:induction false} EmptyArrayReads(post: string)
    ensures Reads(['[', ']'] + post, Array([]), post)
  {
    var s := ['[', ']'] + post;
    assert s[1..] == [']'] + post && s[1..][1..] == post;
  }

  lemma {:induction false} ArrayParts(items: seq<Json>, depth: nat, post: string, text: string)
    requires items != [] && text == ItemsText(items, depth) + post
    ensures Text(Array(items), depth) + post == ['[', '\n'] + text
  {
  }

  lemma {:induction false} ArrayReads(items: seq<Json>, depth: nat, post: string)
    ensures Reads(Text(Array(items), depth) + post, Array(items), post)
    decreases items, 2
  {
    if items == [] {
      EmptyArrayReads(post);
    } else {
      var text := ItemsText(items, depth) + post;
      ArrayOpens(items, depth, post, text);
      ItemsRead(items, depth, [], post);
      assert [] + items == items;
      ArrayParts(items, depth, post, text);
      BracketReads(text, Text(Array(items), depth) + post);
    }
  }

  // --- Objects -----------------------------------------------------------------------

  function AfterField(rest: string, fields: seq<Field>): Read<Json> {
    var t := SkipSpace(rest);
    if t != [] && t[0] == ',' then ReadFields(t[1..], fields)
    else if t != [] && t[0] == '}' then Got(Object(fields), t[1..])
    else Fail(NoComma)
  }

  /** A member before its value: the indent, the name and the colon. */
  function NameText(blank: string, name: string, body: string): string {
    blank + (['"'] + (Escaped(name) + ([':', ' '] + body)))
  }

  lemma {:induction false} ColonReads(body: string)
    requires Starts(body)
    ensures var t := SkipSpace([':', ' '] + body); t != [] && t[0] == ':' && SkipSpace(t[1..]) == body
  {
    var t := [':', ' '] + body;
    assert SkipSpace(t) == t && t[1..] == [' '] + body;
    SkipBlank([' '], body);
  }

  lemma {:induction false} NameReads(blank: string, name: string, body: string)
    requires Blank(blank) && Starts(body)
    ensures ReadName(NameText(blank, name, body)) == Got(name, body)
  {
    SkipBlank(blank, ['"'] + (Escaped(name) + ([':', ' '] + body)));
    StringReads(name, [':', ' '] + body);
    ColonReads(body);
  }

  lemma {:induction false} FieldReads(blank: string, name: string, body: string, v: Json, rest: string,
                                      done: seq<Field>)
    requires Blank(blank) && Starts(body) && Reads(body, v, rest)
    ensures ReadFields(NameText(blank, name, body), done) == AfterField(rest, done + [Field(name, v)])
  {
    NameReads(blank, name, body);
  }

  function FieldsTail(fields: seq<Field>, depth: nat): string
    requires fields != []
  {
    if |fields| == 1 then Close(depth, '}') else [',', '\n'] + FieldsText(fields[1..], depth)
  }

  lemma {:induction false} NameAssoc(blank: string, name: string, text: string, tail: string, post: string)
    ensures NameText(blank, name, text + tail) + post == NameText(blank, name, text + (tail + post))
  {
    var a, b := Escaped(name), [':', ' '];
    assert (text + tail) + post == text + (tail + post);
    assert (b + (text + tail)) + post == b + (text + (tail + post));
    assert (a + (b + (text + tail))) + post == a + (b + (text + (tail + post)));
    assert (['"'] + (a + (b + (text + tail)))) + post == ['"'] + (a + (b + (text + (tail + post))));
  }

  lemma {:induction false} FieldsParts(fields: seq<Field>, depth: nat, post: string)
    requires fields != []
    ensures FieldsText(fields, depth) + post ==
            NameText(Indent(depth + 1), fields[0].name,
                     Text(fields[0].value, depth + 1) + (FieldsTail(fields, depth) + post))
    ensures Apart(FieldsTail(fields, depth) + post)
  {
    NameAssoc(Indent(depth + 1), fields[0].name, Text(fields[0].value, depth + 1), FieldsTail(fields, depth), post);
  }

  lemma {:induction false} FieldCommaReads(more: string, done: seq<Field>)
    ensures AfterField([',', '\n'] + more, done) == ReadFields(more, done)
  {
    var t := [',', '\n'] + more;
    assert SkipSpace(t) == t && t[1..] == ['\n'] + more;
    SkipBlank(['\n'], more);
  }

  lemma {:induction false} LastFieldReads(depth: nat, done: seq<Field>, post: string)
    ensures AfterField(Close(depth, '}') + post, done) == Got(Object(done), post)
  {
    CloseReads(depth, '}', post);
    assert (['}'] + post)[1..] == post;
  }

  lemma {:induction false} FirstFieldReads(
    fields: seq<Field>, depth: nat, next: nat, done: seq<Field>, post: string, tail: string)
    requires fields != [] && next == depth + 1 && tail == FieldsTail(fields, depth) + post
    requires Reads(Text(fields[0].value, next) + tail, fields[0].value, tail)
    ensures ReadFields(FieldsText(fields, depth) + post, done) == AfterField(tail, done + [fields[0]])
  {
    var f := fields[0];
    FieldsParts(fields, depth, post);
    TextStarts(f.value, next);
    IndentIsBlank(next);
    assert f == Field(f.name, f.value);
    FieldReads(Indent(next), f.name, Text(f.value, next) + tail, f.value, tail, done);
  }

  lemma {:induction false} FieldsTailParts(fields: seq<Field>, depth: nat, post: string, tail: string, more: string)
    requires |fields| > 1 && tail == FieldsTail(fields, depth) + post && more == FieldsText(fields[1..], depth) + post
    ensures tail == [',', '\n'] + more
  {
  }

  lemma {:induction false} FieldsRead(fields: seq<Field>, depth: nat, done: seq<Field>, post: string)
    requires fields != []
    ensures ReadFields(FieldsText(fields, depth) + post, done) == Got(Object(done + fields), post)
    decreases fields, 1
  {
    var tail, now := FieldsTail(fields, depth) + post, done + [fields[0]];
    FieldsParts(fields, depth, post);
    ValueReads(fields[0].value, depth + 1, tail);
    FirstFieldReads(fields, depth, depth + 1, done, post, tail);
    FieldsTailReads(fields, depth, now, post, tail);
    if |fields| == 1 {
      assert now == done + fields;
    } else {
      FieldsRead(fields[1..], depth, now, post);
      assert now + fields[1..] == done + fields;
    }
  }

  lemma {:induction false} FieldsTailReads(fields: seq<Field>, depth: nat, now: seq<Field>, post: string, tail: string)
    requires fields != [] && tail == FieldsTail(fields, depth) + post
    ensures |fields| == 1 ==> AfterField(tail, now) == Got(Object(now), post)
    ensures |fields| > 1 ==> AfterField(tail, now) == ReadFields(FieldsText(fields[1..], depth) + post, now)
  {
    if |fields| == 1 {
      LastFieldReads(depth, now, post);
    } else {
      var more := FieldsText(fields[1..], depth) + post;
      FieldsTailParts(fields, depth, post, tail, more);
      FieldCommaReads(more, now);
    }
  }

  lemma {:induction false} ObjectOpens(fields: seq<Field>, depth: nat, post: string, text: string)
    requires fields != [] && text == FieldsText(fields, depth) + post
    ensures Starts(SkipSpace(text)) && ReadFields(SkipSpace(text), []) == ReadFields(text, [])
  {
    FieldsParts(fields, depth, post);
    IndentIsBlank(depth + 1);
    SkipBlank(Indent(depth + 1), ['"'] + (Escaped(fields[0].name) + ([':', ' '] +
              (Text(fields[0].value, depth + 1) + (FieldsTail(fields, depth) + post)))));
    SkipTwice(text);
  }

  lemma {:induction false} BraceReads(text: string, s: string)
    requires s == ['{', '\n'] + text && Starts(SkipSpace(text))
    ensures ReadValue(s) == ReadFields(SkipSpace(text), [])
  {
    assert s[1..] == ['\n'] + text;
    SkipBlank(['\n'], text);
  }

  lemma {:induction false} EmptyObjectReads(post: string)
    ensures Reads(['{', '}'] + post, Object([]), post)
  {
    var s := ['{', '}'] + post;
    assert s[1..] == ['}'] + post && s[1..][1..] == post;
  }

  lemma {:induction false} ObjectParts(fields: seq<Field>, depth: nat, post: string, text: string)
    requires fields != [] && text == FieldsText(fields, depth) + post
    ensures Text(Object(fields), depth) + post == ['{', '\n'] + text
  {
  }

  lemma {:induction false} ObjectReads(fields: seq<Field>, depth: nat, post: string)
    ensures Reads(Text(Object(fields), depth) + post, Object(fields), post)
    decreases fields, 2
  {
    if fields == [] {
      EmptyObjectReads(post);
    } else {
      var text := FieldsText(fields, depth) + post;
      ObjectOpens(fields, depth, post, text);
      FieldsRead(fields, depth, [], post);
      assert [] + fields == fields;
      ObjectParts(fields, depth, post, text);
      BraceReads(text, Text(Object(fields), depth) + post);
    }
  }

  lemma {:induction false} ValueReads(v: Json, depth: nat, post: string)
    requires Apart(post)
    ensures Reads(Text(v, depth) + post, v, post)
    decreases v, 3
  {
    match v
    case Null => WordReads(Text(v, 0), v, post);
    case Bool(_) => WordReads(Text(v, 0), v, post);
    case Int(number) => NumberReads(number, post);
    case Str(text) => StrReads(text, post);
    case Array(items) => ArrayReads(items, depth, post);
    case Object(fields) => ObjectReads(fields, depth, post);
  }

  /** Reading the rendered text of any value gives that value. */
  lemma {:induction false} ParseRender(v: Json)
    ensures Parse(Render(v)) == Got(v, [])
  {
    ValueReads(v, 0, ['\n']);
    TextStarts(v, 0);
    assert SkipSpace(Render(v)) == Render(v);
    assert ['\n'][1..] == [];
  }

  // --- The reader as the program runs it -------------------------------------------------

  /** The cursor gave what the reader gives on the text that was left, and stands where it stops. */
  ghost predicate Agrees<T>(r: Outcome<T>, spec: Read<T>, rest: string) {
    match spec
    case Fail(why) => r == Err(why)
    case Got(v, t) => r == Ok(v) && rest == t
  }

  class Cursor {
    const text: string
    var at: nat

    ghost predicate Valid()
      reads this
    {
      at <= |text|
    }

    ghost function Rest(): string
      reads this
      requires Valid()
    {
      text[at..]
    }

    constructor (text: string)
      ensures Valid() && this.text == text && Rest() == text
    {
      this.text, at := text, 0;
    }

    predicate At(c: char)
      reads this
      requires Valid()
      ensures At(c) <==> Rest() != [] && Rest()[0] == c
    {
      at < |text| && text[at] == c
    }

    method Skip(n: nat)
      requires Valid() && n <= |Rest()|
      modifies this
      ensures Valid() && Rest() == old(Rest())[n..] && at == old(at) + n
    {
      at := at + n;
    }

    method SkipSpaces()
      requires Valid()
      modifies this
      ensures Valid() && Rest() == SkipSpace(old(Rest())) && at >= old(at)
    {
      while at < |text| && IsSpace(text[at])
        invariant Valid() && at >= old(at) && SkipSpace(Rest()) == SkipSpace(old(Rest()))
      {
        assert Rest()[0] == text[at];
        Skip(1);
      }
      assert Rest() == [] || !IsSpace(Rest()[0]);
    }

    method Word(word: string, v: Json) returns (r: Outcome<Json>)
      requires Valid() && word != []
      modifies this
      ensures Valid() && Agrees(r, ReadWord(old(Rest()), word, v), Rest()) && at >= old(at)
    {
      if |word| <= |text| - at && text[at..at + |word|] == word {
        assert word == Rest()[..|word|] && word <= Rest();
        Skip(|word|);
        return Ok(v);
      }
      return Err(NoLiteral);
    }

    method Integer() returns (r: Outcome<Json>)
      requires Valid()
      modifies this
      ensures Valid() && Agrees(r, ReadInt(old(Rest())), Rest()) && at >= old(at)
    {
      ghost var s := Rest();
      var negative := At('-');
      if negative {
        Skip(1);
      }
      var start := at;
      ghost var t := Rest();
      while at < |text| && IsDigit(text[at])
        invariant Valid() && start <= at && DigitsEnd(t) == (at - start) + DigitsEnd(Rest())
      {
        assert Rest()[0] == text[at];
        Skip(1);
      }
      var d := text[start..at];
      assert at - start == DigitsEnd(t);
      assert d == t[..at - start] == DigitRun(t) && Rest() == t[at - start..];
      r := ToInt(negative, d);
    }

    method Chars() returns (r: Outcome<string>)
      requires Valid()
      modifies this
      ensures Valid() && Agrees(r, ReadChars(old(Rest()), []), Rest()) && at >= old(at)
    {
      var out := [];
      while true
        invariant Valid() && at >= old(at) && ReadChars(Rest(), out) == ReadChars(old(Rest()), [])
        decreases |text| - at
      {
        if at == |text| {
          return Err(OpenString);
        }
        var c := text[at];
        assert Rest()[0] == c;
        Skip(1);
        if c == '"' {
          return Ok(out);
        }
        if c == '\\' {
          var e := Escape();
          match e
          case Err(why) => return Err(why);
          case Ok(x) => out := out + [x];
        } else {
          out := out + [c];
        }
      }
    }

    method Escape() returns (r: Outcome<char>)
      requires Valid()
      modifies this
      ensures Valid() && Agrees(r, ReadEscape(old(Rest())), Rest()) && at >= old(at)
    {
      if at == |text| {
        return Err(OpenEscape);
      }
      var c := text[at];
      ghost var s := Rest();
      assert s[0] == c;
      Skip(1);
      match c
      case '"' => return Ok('"');
      case '\\' => return Ok('\\');
      case '/' => return Ok('/');
      case 'b' => return Ok(8 as char);
      case 'f' => return Ok(12 as char);
      case 'n' => return Ok('\n');
      case 'r' => return Ok('\r');
      case 't' => return Ok('\t');
      case 'u' =>
        if |text| - at < 4 {
          return Err(ShortCode);
        }
        assert text[at..at + 4] == s[1..5];
        var n := HexCode(text[at..at + 4]);
        if n < 0 {
          return Err(NoCode);
        }
        Skip(4);
        assert Rest() == s[5..];
        return Ok(CodeChar(n));
      case _ => return Err(NoEscape);
    }

    method String() returns (r: Outcome<string>)
      requires Valid()
      modifies this
      ensures Valid() && Agrees(r, ReadString(old(Rest())), Rest()) && at >= old(at)
      ensures r.Ok? ==> at > old(at)
    {
      if !At('"') {
        return Err(NoQuote);
      }
      Skip(1);
      r := Chars();
    }

    method Value() returns (r: Outcome<Json>)
      requires Valid()
      modifies this
      ensures Valid() && Agrees(r, ReadValue(old(Rest())), Rest()) && at >= old(at)
      decreases |text| - at, 2
    {
      if at == |text| {
        return Err(NoValue);
      }
      var c := text[at];
      assert Rest()[0] == c;
      if c == 'n' {
        r := Word(['n', 'u', 'l', 'l'], Null);
      } else if c == 't' {
        r := Word(['t', 'r', 'u', 'e'], Bool(true));
      } else if c == 'f' {
        r := Word(['f', 'a', 'l', 's', 'e'], Bool(false));
      } else if c == '"' {
        var s := String();
        r := match s case Err(why) => Err(why) case Ok(text) => Ok(Str(text));
      } else if c == '[' {
        r := ArrayValue();
      } else if c == '{' {
        r := ObjectValue();
      } else if c == '-' || IsDigit(c) {
        r := Integer();
      } else {
        r := Err(NoStart);
      }
    }

    method ArrayValue() returns (r: Outcome<Json>)
      requires Valid() && At('[')
      modifies this
      ensures Valid() && Agrees(r, ReadValue(old(Rest())), Rest()) && at >= old(at)
      decreases |text| - at, 1
    {
      Skip(1);
      SkipSpaces();
      if At(']') {
        Skip(1);
        return Ok(Array([]));
      }
      ghost var t := Rest();
      var items := [];
      while true
        invariant Valid() && at > old(at) && ReadItems(Rest(), items) == ReadItems(t, [])
        decreases |text| - at
      {
        SkipSpaces();
        var v := Value();
        if v.Err? {
          return v;
        }
        items := items + [v.value];
        SkipSpaces();
        if At(',') {
          Skip(1);
        } else if At(']') {
          Skip(1);
          return Ok(Array(items));
        } else {
          return Err(NoComma);
        }
      }
    }

    method Name() returns (r: Outcome<string>)
      requires Valid()
      modifies this
      ensures Valid() && Agrees(r, ReadName(old(Rest())), Rest()) && at >= old(at)
    {
      SkipSpaces();
      r := String();
      if r.Ok? {
        SkipSpaces();
        if !At(':') {
          return Err(NoColon);
        }
        Skip(1);
        SkipSpaces();
      }
    }

    method ObjectValue() returns (r: Outcome<Json>)
      requires Valid() && At('{')
      modifies this
      ensures Valid() && Agrees(r, ReadValue(old(Rest())), Rest()) && at >= old(at)
      decreases |text| - at, 1
    {
      Skip(1);
      SkipSpaces();
      if At('}') {
        Skip(1);
        return Ok(Object([]));
      }
      ghost var t := Rest();
      var fields := [];
      while true
        invariant Valid() && at > old(at) && ReadFields(Rest(), fields) == ReadFields(t, [])
        decreases |text| - at
      {
        var name := Name();
        if name.Err? {
          return Err(name.why);
        }
        var v := Value();
        if v.Err? {
          return v;
        }
        fields := fields + [Field(name.value, v.value)];
        SkipSpaces();
        if At(',') {
          Skip(1);
        } else if At('}') {
          Skip(1);
          return Ok(Object(fields));
        } else {
          return Err(NoComma);
        }
      }
    }
  }

  method ParseDocument(text: string) returns (r: Outcome<Json>)
    ensures match Parse(text) case Fail(why) => r == Err(why) case Got(v, _) => r == Ok(v)
  {
    var cursor := new Cursor(text);
    cursor.SkipSpaces();
    r := cursor.Value();
    if r.Ok? {
      cursor.SkipSpaces();
      if cursor.at != |text| {
        return Err(Trailing);
      }
    }
  }

  // --- The printer as the program runs it ----------------------------------------------------

  method WriteString(before: string, s: string) returns (out: string)
    ensures out == before + (['"'] + Escaped(s))
  {
    out := before + ['"'];
    var i := 0;
    while i < |s|
      invariant 0 <= i <= |s| && out + Escaped(s[i..]) == before + (['"'] + Escaped(s))
    {
      EscapedStep(out, s[i..], s[i + 1..]);
      out := out + EscapeChar(s[i]);
      i := i + 1;
    }
    assert s[i..] == [];
    out := out + ['"'];
  }

  lemma {:induction false} EscapedStep(out: string, s: string, rest: string)
    requires s != [] && rest == s[1..]
    ensures (out + EscapeChar(s[0])) + Escaped(rest) == out + Escaped(s)
  {
  }

  method WriteIndent(before: string, depth: nat) returns (out: string)
    ensures out == before + Indent(depth)
  {
    out := before;
    var i := depth;
    while i > 0
      invariant 0 <= i <= depth && out + Indent(i) == before + Indent(depth)
    {
      assert (out + [' ', ' ']) + Indent(i - 1) == out + Indent(i);
      out := out + [' ', ' '];
      i := i - 1;
    }
    assert out + [] == out;
  }

  lemma {:induction false} Assoc(a: string, b: string, c: string)
    ensures (a + b) + c == a + (b + c)
  {
  }

  method WriteValue(before: string, v: Json, depth: nat) returns (out: string)
    ensures out == before + Text(v, depth)
    decreases v, 1
  {
    match v
    case Null => out := before + ['n', 'u', 'l', 'l'];
    case Bool(flag) => out := before + if flag then ['t', 'r', 'u', 'e'] else ['f', 'a', 'l', 's', 'e'];
    case Int(number) => out := before + ShowInt(number);
    case Str(text) => out := WriteString(before, text);
    case Array(items) =>
      if items == [] {
        return before + ['[', ']'];
      }
      out := WriteItems(before + ['[', '\n'], items, depth);
      Assoc(before, ['[', '\n'], ItemsText(items, depth));
    case Object(fields) =>
      if fields == [] {
        return before + ['{', '}'];
      }
      out := WriteFields(before + ['{', '\n'], fields, depth);
      Assoc(before, ['{', '\n'], FieldsText(fields, depth));
  }

  /** The text of the items that are left, or the end of the list when none is. */
  function ItemsLeft(items: seq<Json>, depth: nat): string {
    if items == [] then Indent(depth) + [']'] else ItemsText(items, depth)
  }

  /** The line of an item, after the text before it. */
  function ItemLine(before: string, v: Json, depth: nat, last: bool): string {
    var line := (before + Indent(depth)) + Text(v, depth);
    (if last then line else line + [',']) + ['\n']
  }

  method WriteItem(before: string, v: Json, depth: nat, last: bool) returns (out: string)
    ensures out == ItemLine(before, v, depth, last)
    decreases v, 2
  {
    out := WriteIndent(before, depth);
    out := WriteValue(out, v, depth);
    if !last {
      out := out + [','];
    }
    out := out + ['\n'];
  }

  method WriteItems(before: string, items: seq<Json>, depth: nat) returns (out: string)
    requires items != []
    ensures out == before + ItemsText(items, depth)
    decreases items, 0
  {
    out := before;
    var i := 0;
    assert items[0..] == items;
    while i < |items|
      invariant 0 <= i <= |items| && out + ItemsLeft(items[i..], depth) == before + ItemsText(items, depth)
    {
      ItemsStep(out, items[i..], depth, depth + 1, items[i + 1..]);
      out := WriteItem(out, items[i], depth + 1, i + 1 == |items|);
      i := i + 1;
    }
    assert items[i..] == [];
    out := WriteClose(out, depth, ']', before + ItemsText(items, depth));
  }

  method WriteClose(before: string, depth: nat, bracket: char, ghost whole: string) returns (out: string)
    requires before + (Indent(depth) + [bracket]) == whole
    ensures out == whole
  {
    out := WriteIndent(before, depth);
    out := out + [bracket];
  }

  lemma {:induction false} ItemsStep(out: string, items: seq<Json>, depth: nat, next: nat, rest: seq<Json>)
    requires items != [] && next == depth + 1 && rest == items[1..]
    ensures ItemLine(out, items[0], next, |items| == 1) + ItemsLeft(rest, depth) == out + ItemsLeft(items, depth)
  {
    var head, text, left := Indent(next), Text(items[0], next), ItemsLeft(rest, depth);
    if rest == [] {
      assert ItemsText(items, depth) == head + (text + (['\n'] + left));
      LineAssoc(out, head, text, [], ['\n'], left);
    } else {
      assert ItemsText(items, depth) == head + (text + ([',', '\n'] + left));
      LineAssoc(out, head, text, [','], ['\n'], left);
      assert [','] + ['\n'] == [',', '\n'];
    }
  }

  lemma {:induction false} LineAssoc(a: string, b: string, c: string, d: string, e: string, f: string)
    ensures ((((a + b) + c) + d) + e) + f == a + (b + (c + ((d + e) + f)))
    ensures d == [] ==> (((a + b) + c) + e) + f == a + (b + (c + (e + f)))
  {
    assert d == [] ==> d + e == e && ((a + b) + c) + d == (a + b) + c;
  }

  function FieldStart(before: string, f: Field, depth: nat): string {
    ((before + Indent(depth)) + (['"'] + Escaped(f.name))) + [':', ' ']
  }

  function FieldLine(before: string, f: Field, depth: nat, last: bool): string {
    var line := FieldStart(before, f, depth) + Text(f.value, depth);
    (if last then line else line + [',']) + ['\n']
  }

  method WriteField(before: string, f: Field, depth: nat, last: bool) returns (out: string)
    ensures out == FieldLine(before, f, depth, last)
    decreases f, 2
  {
    out := WriteIndent(before, depth);
    out := WriteString(out, f.name);
    out := out + [':', ' '];
    out := WriteValue(out, f.value, depth);
    if !last {
      out := out + [','];
    }
    out := out + ['\n'];
  }

  method WriteFields(before: string, fields: seq<Field>, depth: nat) returns (out: string)
    requires fields != []
    ensures out == before + FieldsText(fields, depth)
    decreases fields, 0
  {
    out := before;
    var i := 0;
    assert fields[0..] == fields;
    while i < |fields|
      invariant 0 <= i <= |fields| && out + FieldsLeft(fields[i..], depth) == before + FieldsText(fields, depth)
    {
      FieldsStep(out, fields[i..], depth, depth + 1, fields[i + 1..]);
      out := WriteField(out, fields[i], depth + 1, i + 1 == |fields|);
      i := i + 1;
    }
    assert fields[i..] == [];
    out := WriteClose(out, depth, '}', before + FieldsText(fields, depth));
  }

  function FieldsLeft(fields: seq<Field>, depth: nat): string {
    if fields == [] then Indent(depth) + ['}'] else FieldsText(fields, depth)
  }

  lemma {:induction false} FieldsStep(out: string, fields: seq<Field>, depth: nat, next: nat, rest: seq<Field>)
    requires fields != [] && next == depth + 1 && rest == fields[1..]
    ensures FieldLine(out, fields[0], next, |fields| == 1) + FieldsLeft(rest, depth) == out + FieldsLeft(fields, depth)
  {
    var f, left := fields[0], FieldsLeft(rest, depth);
    var text, start := Text(f.value, next), FieldStart(out, f, next);
    var tail := if rest == [] then ['\n'] + left else [',', '\n'] + left;
    assert FieldsText(fields, depth) == NameText(Indent(next), f.name, text + tail);
    NameStart(out, Indent(next), f.name, text + tail);
    assert out + FieldsLeft(fields, depth) == start + (text + tail);
    LineEnds(start, text, left);
  }

  lemma {:induction false} LineEnds(start: string, text: string, left: string)
    ensures (((start + text) + [',']) + ['\n']) + left == start + (text + ([',', '\n'] + left))
    ensures ((start + text) + ['\n']) + left == start + (text + (['\n'] + left))
  {
    assert [','] + ['\n'] == [',', '\n'];
    assert (((start + text) + [',']) + ['\n']) + left == (start + text) + ([',', '\n'] + left);
  }

  lemma {:induction false} NameStart(out: string, blank: string, name: string, body: string)
    ensures out + NameText(blank, name, body) == (((out + blank) + (['"'] + Escaped(name))) + [':', ' ']) + body
  {
    var a, b := ['"'] + Escaped(name), [':', ' '];
    assert ['"'] + (Escaped(name) + (b + body)) == a + (b + body);
    assert out + (blank + (a + (b + body))) == (((out + blank) + a) + b) + body;
  }

  method RenderDocument(v: Json) returns (out: string)
    ensures out == Render(v)
  {
    out := WriteValue([], v, 0);
    assert [] + Text(v, 0) == Text(v, 0);
    out := out + ['\n'];
  }
}
