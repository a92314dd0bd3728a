/**
 Base64, as in section 4 of RFC 4648, on ASCII texts: the encoder, the strict
 reading of a group, and the lenient decoder for byte strings of any length.
 */
module Base64 {
  import opened Bytes

  const SLASH: byte := 47
  const UNDERSCORE: byte := 95
  const PAD: byte := 61

  /** The alphabets differ in their last character only: a slash, or an underscore. */
  predicate Alphabet(last: byte) { last == SLASH || last == UNDERSCORE }

  function Symbol(v: nat, last: byte): byte
    requires v < 64
  {
    if v < 26 then 65 + v else if v < 52 then 71 + v else if v < 62 then v - 4 else if v == 62 then 43 else last
  }

  function Value(c: byte, last: byte): (r: Option<nat>)
    ensures r.Some? ==> r.value < 64
  {
    if 65 <= c <= 90 then Some(c - 65)
    else if 97 <= c <= 122 then Some(c - 71)
    else if 48 <= c <= 57 then Some(c + 4)
    else if c == 43 then Some(62)
    else if c == last then Some(63)
    else None
  }

  lemma {:induction false} SymbolValue(c: byte, v: nat, last: byte)
    requires Alphabet(last)
    ensures Value(c, last) == Some(v) <==> v < 64 && c == Symbol(v, last)
    ensures v < 64 ==> Symbol(v, last) != PAD
  {
  }

  // --- Groups -------------------------------------------------------------------------

  function Symbol0(a: byte, last: byte): byte { Symbol(a / 4, last) }

  function Symbol1(a: byte, b: byte, last: byte): byte { Symbol((a % 4) * 16 + b / 16, last) }

  function Symbol2(b: byte, c: byte, last: byte): byte { Symbol((b % 16) * 4 + c / 64, last) }

  function Symbol3(c: byte, last: byte): byte { Symbol(c % 64, last) }

  /** The characters of a byte string, with no padding. */
  function Symbols(x: Blob, last: byte): Blob {
    if |x| == 0 then []
    else if |x| == 1 then [Symbol0(x[0], last), Symbol1(x[0], 0, last)]
    else if |x| == 2 then [Symbol0(x[0], last), Symbol1(x[0], x[1], last), Symbol2(x[1], 0, last)]
    else
      [Symbol0(x[0], last), Symbol1(x[0], x[1], last), Symbol2(x[1], x[2], last), Symbol3(x[2], last)]
      + Symbols(x[3..], last)
  }

  /** The padding of `n` bytes. */
  function Pads(n: nat): Blob {
    if n >= 3 then Pads(n - 3) else if n == 1 then [PAD, PAD] else if n == 2 then [PAD] else []
  }

  function Encoding(x: Blob, last: byte, pad: bool): Blob {
    Symbols(x, last) + (if pad then Pads(|x|) else [])
  }

  function Byte0(a: nat, b: nat): byte
    requires a < 64 && b < 64
  {
    a * 4 + b / 16
  }

  function Byte1(b: nat, c: nat): byte
    requires b < 64 && c < 64
  {
    (b % 16) * 16 + c / 4
  }

  function Byte2(c: nat, d: nat): byte
    requires c < 64 && d < 64
  {
    (c % 4) * 64 + d
  }

  /** The bytes of two, three or four characters. */
  function Group(s: Blob, last: byte): Option<Blob>
    requires 2 <= |s| <= 4
  {
    var a, b := Value(s[0], last), Value(s[1], last);
    if a.None? || b.None? then None
    else if |s| == 2 then Some([Byte0(a.value, b.value)])
    else
      var c := Value(s[2], last);
      if c.None? then None
      else if |s| == 3 then Some([Byte0(a.value, b.value), Byte1(b.value, c.value)])
      else
        var d := Value(s[3], last);
        if d.None? then None
        else Some([Byte0(a.value, b.value), Byte1(b.value, c.value), Byte2(c.value, d.value)])
  }

  /** The bytes of a text of groups. A group of one character has none. */
  function Bytes64(s: Blob, last: byte): Option<Blob> {
    if |s| == 0 then Some([])
    else if |s| == 1 then None
    else if |s| < 4 then Group(s, last)
    else
      match Group(s[..4], last)
      case None => None
      case Some(g) =>
        match Bytes64(s[4..], last)
        case None => None
        case Some(rest) => Some(g + rest)
  }

  /** The bits of a last, short group that no byte uses are zero. */
  predicate Clean(s: Blob, last: byte) {
    if |s| >= 4 then Clean(s[4..], last)
    else if |s| == 2 then Value(s[1], last).Some? && Value(s[1], last).value % 16 == 0
    else if |s| == 3 then Value(s[2], last).Some? && Value(s[2], last).value % 4 == 0
    else |s| == 0
  }

  lemma {:induction false} Bits(a: byte, b: byte, c: byte)
    ensures Byte0(a / 4, (a % 4) * 16 + b / 16) == a
    ensures Byte1((a % 4) * 16 + b / 16, (b % 16) * 4 + c / 64) == b
    ensures Byte2((b % 16) * 4 + c / 64, c % 64) == c
  {
  }

  lemma {:induction false} Sextets(a: nat, b: nat, c: nat, d: nat)
    requires a < 64 && b < 64 && c < 64 && d < 64
    ensures Byte0(a, b) / 4 == a && (Byte0(a, b) % 4) * 16 + Byte1(b, c) / 16 == b
    ensures (Byte1(b, c) % 16) * 4 + Byte2(c, d) / 64 == c && Byte2(c, d) % 64 == d
    ensures b % 16 == 0 ==> (Byte0(a, b) % 4) * 16 == b
    ensures c % 4 == 0 ==> (Byte1(b, c) % 16) * 4 == c
  {
  }

  lemma {:induction false} GroupOfSymbols(s: Blob, x: byte, y: byte, z: byte, last: byte)
    requires Alphabet(last) && 2 <= |s| <= 4
    requires s[0] == Symbol0(x, last) && s[1] == Symbol1(x, y, last)
    requires |s| >= 3 ==> s[2] == Symbol2(y, z, last)
    requires |s| == 4 ==> s[3] == Symbol3(z, last)
    ensures Group(s, last) == Some([x, y, z][..|s| - 1])
    ensures |s| == 2 && y == 0 ==> Clean(s, last)
    ensures |s| == 3 && z == 0 ==> Clean(s, last)
  {
    Bits(x, y, z);
    SymbolValue(s[0], x / 4, last);
    SymbolValue(s[1], (x % 4) * 16 + y / 16, last);
    if |s| >= 3 {
      SymbolValue(s[2], (y % 16) * 4 + z / 64, last);
    }
    if |s| == 4 {
      SymbolValue(s[3], z % 64, last);
    }
    assert [x, y, z][..1] == [x] && [x, y, z][..2] == [x, y] && [x, y, z][..3] == [x, y, z];
  }

  /** Characters with these values are the characters of these bytes. */
  lemma {:induction false} SymbolsOfValues(s: Blob, x: byte, y: byte, z: byte, last: byte, a: nat, b: nat, c: nat,
                                           d: nat)
    requires Alphabet(last) && 2 <= |s| <= 4 && Value(s[0], last) == Some(a) && Value(s[1], last) == Some(b)
    requires |s| >= 3 ==> Value(s[2], last) == Some(c)
    requires |s| == 4 ==> Value(s[3], last) == Some(d)
    requires a == x / 4 && b == (x % 4) * 16 + y / 16 && c == (y % 16) * 4 + z / 64 && d == z % 64
    ensures s == [Symbol0(x, last), Symbol1(x, y, last), Symbol2(y, z, last), Symbol3(z, last)][..|s|]
  {
    SymbolValue(s[0], a, last);
    SymbolValue(s[1], b, last);
    if |s| >= 3 {
      SymbolValue(s[2], c, last);
    }
    if |s| == 4 {
      SymbolValue(s[3], d, last);
    }
  }

  /** A full group is the characters of its three bytes. */
  lemma {:induction false} FullGroup(s: Blob, x: Blob, last: byte)
    requires Alphabet(last) && |s| == 4 && |x| == 3
    ensures Group(s, last) == Some(x) <==>
            s == [Symbol0(x[0], last), Symbol1(x[0], x[1], last), Symbol2(x[1], x[2], last), Symbol3(x[2], last)]
  {
    if Group(s, last) == Some(x) {
      var a, b, c, d :=
        Value(s[0], last).value, Value(s[1], last).value, Value(s[2], last).value, Value(s[3], last).value;
      Sextets(a, b, c, d);
      SymbolsOfValues(s, x[0], x[1], x[2], last, a, b, c, d);
    }
    if s == [Symbol0(x[0], last), Symbol1(x[0], x[1], last), Symbol2(x[1], x[2], last), Symbol3(x[2], last)] {
      GroupOfSymbols(s, x[0], x[1], x[2], last);
      assert [x[0], x[1], x[2]][..3] == x;
    }
  }

  lemma {:induction false} ShortGroups(s: Blob, x: Blob, last: byte)
    requires Alphabet(last) && 2 <= |s| <= 3 && |x| == |s| - 1
    ensures Group(s, last) == Some(x) && Clean(s, last) <==> s == Symbols(x, last)
  {
    if Group(s, last) == Some(x) && Clean(s, last) {
      var a, b := Value(s[0], last).value, Value(s[1], last).value;
      if |s| == 2 {
        Sextets(a, b, 0, 0);
        SymbolsOfValues(s, x[0], 0, 0, last, a, b, 0, 0);
      } else {
        Sextets(a, b, Value(s[2], last).value, 0);
        SymbolsOfValues(s, x[0], x[1], 0, last, a, b, Value(s[2], last).value, 0);
      }
    }
    if s == Symbols(x, last) {
      GroupOfSymbols(s, x[0], if |x| == 2 then x[1] else 0, 0, last);
      assert [x[0], if |x| == 2 then x[1] else 0, 0][..|x|] == x;
    }
  }

  /** A text is the characters of `x` exactly when it decodes to `x` and its unused bits are zero. */
  lemma {:induction false} Canonical(s: Blob, x: Blob, last: byte)
    requires Alphabet(last)
    ensures Bytes64(s, last) == Some(x) && Clean(s, last) <==> s == Symbols(x, last)
    decreases |s| + |x|
  {
    if |s| >= 4 && |x| >= 3 {
      FullGroup(s[..4], x[..3], last);
      Canonical(s[4..], x[3..], last);
      FullParts(s, x, last);
    } else if 2 <= |s| <= 3 && |x| == |s| - 1 {
      ShortGroups(s, x, last);
    }
  }

  lemma {:induction false} FullParts(s: Blob, x: Blob, last: byte)
    requires |s| >= 4 && |x| >= 3
    ensures Bytes64(s, last) == Some(x) <==>
            Group(s[..4], last) == Some(x[..3]) && Bytes64(s[4..], last) == Some(x[3..])
    ensures s == Symbols(x, last) <==>
            && s[..4] == [Symbol0(x[0], last), Symbol1(x[0], x[1], last), Symbol2(x[1], x[2], last),
                Symbol3(x[2], last)]
            && s[4..] == Symbols(x[3..], last)
  {
    assert x == x[..3] + x[3..] && s == s[..4] + s[4..];
    match Group(s[..4], last)
    case None =>
    case Some(g) =>
      match Bytes64(s[4..], last)
      case None =>
      case Some(rest) => assert g + rest == x ==> (g + rest)[..3] == g && (g + rest)[3..] == rest;
  }

  // --- The general codec ----------------------------------------------------------------

  datatype Outcome = Ok(bytes: Blob) | Truncated | Invalid

  function StripPads(s: Blob): Blob {
    if s != [] && s[|s| - 1] == PAD then StripPads(s[..|s| - 1]) else s
  }

  function Decoding(s: Blob): Outcome {
    var t := StripPads(s);
    if Rem(|t|, 4) == 1 then Truncated
    else match Bytes64(t, SLASH) case None => Invalid case Some(x) => Ok(x)
  }

  lemma {:induction false} SymbolsRem(x: Blob, last: byte)
    ensures Rem(|Symbols(x, last)|, 4) != 1
  {
    if |x| >= 3 {
      SymbolsRem(x[3..], last);
    }
  }

  lemma {:induction false} SymbolsEnd(x: Blob, last: byte)
    requires Alphabet(last) && x != []
    ensures Symbols(x, last) != [] && Symbols(x, last)[|Symbols(x, last)| - 1] != PAD
  {
    if |x| > 3 {
      SymbolsEnd(x[3..], last);
    } else if |x| == 3 {
      SymbolValue(0, x[2] % 64, last);
    } else if |x| == 2 {
      SymbolValue(0, (x[1] % 16) * 4, last);
    } else {
      SymbolValue(0, (x[0] % 4) * 16, last);
    }
  }

  lemma {:induction false} StripsOne(t: Blob)
    ensures StripPads(t + [PAD]) == StripPads(t)
  {
    assert (t + [PAD])[..|t|] == t;
  }

  lemma {:induction false} StripsPads(t: Blob, n: nat)
    requires t == [] || t[|t| - 1] != PAD
    ensures StripPads(t + Pads(n)) == t
  {
    if n >= 3 {
      StripsPads(t, n - 3);
    } else if n == 1 {
      assert t + [PAD, PAD] == (t + [PAD]) + [PAD];
      StripsOne(t + [PAD]);
      StripsOne(t);
    } else if n == 2 {
      StripsOne(t);
    } else {
      assert t + [] == t;
    }
  }

  /** The decoder undoes the encoder, with its padding or without it. */
  lemma {:induction false} DecodeEncode(x: Blob, pad: bool)
    ensures Decoding(Encoding(x, SLASH, pad)) == Ok(x)
  {
    var t := Symbols(x, SLASH);
    if x != [] {
      SymbolsEnd(x, SLASH);
    }
    SymbolsRem(x, SLASH);
    StripsPads(t, if pad then |x| else 0);
    Canonical(t, x, SLASH);
  }

  /**
   The decoder ignores the padding and the unused bits. It takes a text to `x`
   with clean unused bits exactly when the text without its pads is the encoding of `x`.
   */
  lemma {:induction false} CleanDecode(s: Blob, x: Blob)
    ensures Decoding(s) == Ok(x) && Clean(StripPads(s), SLASH) <==> StripPads(s) == Encoding(x, SLASH, false)
  {
    Canonical(StripPads(s), x, SLASH);
    SymbolsRem(x, SLASH);
    assert Symbols(x, SLASH) + [] == Symbols(x, SLASH);
  }

  method Encode(x: Blob, last: byte, pad: bool) returns (out: Blob)
    ensures out == Encoding(x, last, pad)
  {
    out := [];
    var i := 0;
    assert x[0..] == x;
    while i + 3 <= |x|
      invariant 0 <= i <= |x| && out + Symbols(x[i..], last) == Symbols(x, last) && Pads(|x| - i) == Pads(|x|)
    {
      var a, b, c := x[i], x[i + 1], x[i + 2];
      EncodeStep(out, x[i..], last, x[i + 3..]);
      out := out + [Symbol0(a, last), Symbol1(a, b, last), Symbol2(b, c, last), Symbol3(c, last)];
      i := i + 3;
    }
    out := out + Symbols(x[i..], last);
    if pad {
      out := out + Pads(|x| - i);
    }
  }

  lemma {:induction false} EncodeStep(out: Blob, x: Blob, last: byte, rest: Blob)
    requires |x| >= 3 && rest == x[3..]
    ensures (out + [Symbol0(x[0], last), Symbol1(x[0], x[1], last), Symbol2(x[1], x[2], last), Symbol3(x[2], last)])
            + Symbols(rest, last) == out + Symbols(x, last)
  {
  }

  /** The bytes in `out`, then what the rest decodes to. */
  function Joined(out: Blob, r: Option<Blob>): Option<Blob> {
    match r
    case None => None
    case Some(rest) => Some(out + rest)
  }

  method Decode(s: Blob) returns (r: Outcome)
    ensures r == Decoding(s)
  {
    var t := TrimPads(s);
    if Rem(|t|, 4) == 1 {
      return Truncated;
    }
    var out, i := [], 0;
    assert t[0..] == t && (Bytes64(t, SLASH).Some? ==> [] + Bytes64(t, SLASH).value == Bytes64(t, SLASH).value);
    while i + 4 <= |t|
      invariant 0 <= i <= |t| && Rem(|t| - i, 4) == Rem(|t|, 4)
      invariant Joined(out, Bytes64(t[i..], SLASH)) == Bytes64(t, SLASH)
    {
      var g := Group(t[i..i + 4], SLASH);
      assert t[i..][..4] == t[i..i + 4] && t[i..][4..] == t[i + 4..];
      if g.None? {
        return Invalid;
      }
      JoinedStep(out, g.value, Bytes64(t[i + 4..], SLASH));
      out := out + g.value;
      i := i + 4;
    }
    if i < |t| {
      var g := Group(t[i..], SLASH);
      if g.None? {
        return Invalid;
      }
      out := out + g.value;
    }
    return Ok(out);
  }

  lemma {:induction false} JoinedStep(out: Blob, g: Blob, r: Option<Blob>)
    ensures Joined(out + g, r) == Joined(out, match r case None => None case Some(rest) => Some(g + rest))
  {
    if r.Some? {
      assert (out + g) + r.value == out + (g + r.value);
    }
  }

  method TrimPads(s: Blob) returns (t: Blob)
    ensures t == StripPads(s)
  {
    var n := |s|;
    assert s[..n] == s;
    while n > 0 && s[n - 1] == PAD
      invariant 0 <= n <= |s| && StripPads(s[..n]) == StripPads(s)
    {
      assert s[..n][..n - 1] == s[..n - 1];
      n := n - 1;
    }
    return s[..n];
  }
}
