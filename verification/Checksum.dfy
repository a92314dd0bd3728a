/**
 The text forms of a checksum of 32 bytes: hexadecimal in either case, and the
 two strict base64 forms, each with one accepted spelling; and the order of
 checksums, which is the order of their hexadecimal texts.
 */
module Checksums {
  import opened Bytes
  import opened Order
  import Base64

  datatype Outcome = Ok(checksum: Blob) | NotLower | WrongLength | NotHex | MissingPad | NotBase64 | TrailingBits

  // --- Hexadecimal ----------------------------------------------------------------------

  function Digit(v: nat): byte
    requires v < 16
  {
    if v < 10 then 48 + v else 87 + v
  }

  function DigitValue(c: byte): (r: Option<nat>)
    ensures r.Some? ==> r.value < 16
  {
    if 48 <= c <= 57 then Some(c - 48)
    else if 97 <= c <= 102 then Some(c - 87)
    else if 65 <= c <= 70 then Some(c - 55)
    else None
  }

  function Hex(c: Blob): Blob {
    if c == [] then [] else [Digit(c[0] / 16), Digit(c[0] % 16)] + Hex(c[1..])
  }

  /** The bytes of pairs of digits. */
  function Pairs(s: Blob): Option<Blob> {
    if s == [] then Some([])
    else if |s| == 1 then None
    else
      var hi, lo := DigitValue(s[0]), DigitValue(s[1]);
      if hi.None? || lo.None? then None
      else
        match Pairs(s[2..])
        case None => None
        case Some(rest) => Some([hi.value * 16 + lo.value] + rest)
  }

  predicate IsUpper(b: byte) { 65 <= b <= 90 }

  function Lower(b: byte): byte { if IsUpper(b) then b + 32 else b }

  function Lowered(s: Blob): Blob { seq(|s|, i requires 0 <= i < |s| => Lower(s[i])) }

  function ParseHex(s: Blob): Outcome {
    if |s| != 64 then WrongLength
    else match Pairs(s) case None => NotHex case Some(c) => Ok(c)
  }

  function ParseHexLower(s: Blob): Outcome {
    if exists i :: 0 <= i < |s| && IsUpper(s[i]) then NotLower else ParseHex(s)
  }

  lemma {:induction false} HexLength(c: Blob)
    ensures |Hex(c)| == 2 * |c|
  {
    if c != [] {
      HexLength(c[1..]);
    }
  }

  /** Pairs of digits name `c` exactly when they are its hexadecimal text, in either case. */
  lemma {:induction false} PairsOfHex(s: Blob, c: Blob)
    ensures Pairs(s) == Some(c) <==> Lowered(s) == Hex(c)
  {
    if |s| >= 2 && c != [] {
      PairsOfHex(s[2..], c[1..]);
      var x, y := Digit(c[0] / 16), Digit(c[0] % 16);
      OneByte(s[0], s[1], c[0]);
      assert Lowered(s) == [Lower(s[0]), Lower(s[1])] + Lowered(s[2..]);
      assert Lowered(s)[2..] == Lowered(s[2..]) && Hex(c)[2..] == Hex(c[1..]);
      assert c == [c[0]] + c[1..];
      if Pairs(s) == Some(c) {
        assert ([c[0]] + Pairs(s[2..]).value)[1..] == Pairs(s[2..]).value;
      }
    } else {
      HexLength(c);
      assert |Lowered(s)| == |s|;
    }
  }

  lemma {:induction false} OneByte(a: byte, b: byte, x: byte)
    ensures DigitValue(a).Some? && DigitValue(b).Some? && DigitValue(a).value * 16 + DigitValue(b).value == x <==>
            Lower(a) == Digit(x / 16) && Lower(b) == Digit(x % 16)
  {
  }

  /** Both cases are read, and printing gives the lower case. */
  lemma {:induction false} HexRoundTrip(s: Blob, c: Blob)
    ensures ParseHex(s) == Ok(c) <==> |c| == 32 && Lowered(s) == Hex(c)
    ensures |c| == 32 ==> ParseHex(Hex(c)) == Ok(c)
  {
    PairsOfHex(s, c);
    HexLength(c);
    HexIsLower(c);
    PairsOfHex(Hex(c), c);
    assert |Lowered(s)| == |s|;
    assert Lowered(Hex(c)) == Hex(c);
  }

  lemma {:induction false} HexIsLower(c: Blob)
    ensures forall i :: 0 <= i < |Hex(c)| ==> !IsUpper(Hex(c)[i])
  {
    if c != [] {
      HexIsLower(c[1..]);
    }
  }

  /** The strict reader takes one spelling of each checksum. */
  lemma {:induction false} HexLowerIsOne(s: Blob, c: Blob)
    ensures ParseHexLower(s) == Ok(c) <==> |c| == 32 && s == Hex(c)
  {
    HexRoundTrip(s, c);
    HexIsLower(c);
    if forall i :: 0 <= i < |s| ==> !IsUpper(s[i]) {
      assert Lowered(s) == s;
    }
  }

  /** Checksums compare as their hexadecimal texts do. */
  lemma {:induction false} OrderIsHexOrder(a: Blob, b: Blob)
    ensures Less(a, b) <==> Less(Hex(a), Hex(b))
  {
    if a != [] && b != [] {
      OrderIsHexOrder(a[1..], b[1..]);
      var s, t := Hex(a), Hex(b);
      assert s[1..][1..] == Hex(a[1..]) && t[1..][1..] == Hex(b[1..]);
      assert s[0] == Digit(a[0] / 16) && s[1..][0] == Digit(a[0] % 16);
      assert t[0] == Digit(b[0] / 16) && t[1..][0] == Digit(b[0] % 16);
    }
  }

  method ToHex(c: Blob) returns (s: Blob)
    ensures s == Hex(c)
  {
    s := [];
    var i := 0;
    assert c[0..] == c;
    while i < |c|
      invariant 0 <= i <= |c| && s + Hex(c[i..]) == Hex(c)
    {
      assert c[i..][1..] == c[i + 1..];
      assert (s + [Digit(c[i] / 16), Digit(c[i] % 16)]) + Hex(c[i + 1..]) == s + Hex(c[i..]);
      s := s + [Digit(c[i] / 16), Digit(c[i] % 16)];
      i := i + 1;
    }
  }

  method FromHex(s: Blob) returns (r: Outcome)
    ensures r == ParseHex(s)
  {
    if |s| != 64 {
      return WrongLength;
    }
    var out: Blob, i := [], 0;
    assert s[0..] == s && (Pairs(s).Some? ==> [] + Pairs(s).value == Pairs(s).value);
    while i < 64
      invariant 0 <= i <= 64 && i == 2 * |out| && Base64.Joined(out, Pairs(s[i..])) == Pairs(s)
    {
      var hi, lo := DigitValue(s[i]), DigitValue(s[i + 1]);
      assert s[i..][2..] == s[i + 2..];
      if hi.None? || lo.None? {
        return NotHex;
      }
      Base64.JoinedStep(out, [hi.value * 16 + lo.value], Pairs(s[i + 2..]));
      out := out + [hi.value * 16 + lo.value];
      i := i + 2;
    }
    return Ok(out);
  }

  // --- Base64 -------------------------------------------------------------------------

  function ParseBase64(s: Blob, last: byte, padded: bool): Outcome {
    if |s| != (if padded then 44 else 43) then WrongLength
    else if padded && s[43] != Base64.PAD then MissingPad
    else
      match Base64.Bytes64(s[..43], last)
      case None => NotBase64
      case Some(c) => if Base64.Clean(s[..43], last) then Ok(c) else TrailingBits
  }

  lemma {:induction false} SymbolsLength(x: Blob, last: byte)
    ensures 4 * |x| <= 3 * |Base64.Symbols(x, last)| <= 4 * |x| + 2
  {
    if |x| >= 3 {
      SymbolsLength(x[3..], last);
    }
  }

  lemma {:induction false} PadsOf32(k: nat, n: nat)
    requires n == 3 * k + 2
    ensures Base64.Pads(n) == [Base64.PAD]
  {
    if k > 0 {
      PadsOf32(k - 1, n - 3);
    }
  }

  /** Each checksum has one accepted spelling in each form: the one that the encoder writes. */
  lemma {:induction false} Base64IsOne(s: Blob, c: Blob, last: byte, padded: bool)
    requires Base64.Alphabet(last)
    ensures ParseBase64(s, last, padded) == Ok(c) <==> |c| == 32 && s == Base64.Encoding(c, last, padded)
  {
    SymbolsLength(c, last);
    PadsOf32(10, 32);
    if |s| == (if padded then 44 else 43) {
      Base64.Canonical(s[..43], c, last);
      assert padded ==> s == s[..43] + [s[43]];
      assert !padded ==> s == s[..43] && s[..43] + [] == s[..43];
    }
    if |c| == 32 && s == Base64.Encoding(c, last, padded) {
      assert s[..43] == Base64.Symbols(c, last);
    }
  }

  method FromBase64(s: Blob, last: byte, padded: bool) returns (r: Outcome)
    ensures r == ParseBase64(s, last, padded)
  {
    if |s| != (if padded then 44 else 43) {
      return WrongLength;
    }
    if padded && s[43] != Base64.PAD {
      return MissingPad;
    }
    var data, out, i := s[..43], [], 0;
    ghost var all := Base64.Bytes64(data, last);
    assert data[0..] == data && (all.Some? ==> [] + all.value == all.value);
    while i < 40
      invariant 0 <= i <= 40 && 4 * |out| == 3 * i
      invariant Base64.Joined(out, Base64.Bytes64(data[i..], last)) == all
      invariant Base64.Clean(data[i..], last) == Base64.Clean(data, last)
    {
      var g := Base64.Group(data[i..i + 4], last);
      assert data[i..][..4] == data[i..i + 4] && data[i..][4..] == data[i + 4..];
      if g.None? {
        return NotBase64;
      }
      Base64.JoinedStep(out, g.value, Base64.Bytes64(data[i + 4..], last));
      out := out + g.value;
      i := i + 4;
    }
    var g := Base64.Group(data[40..], last);
    if g.None? {
      return NotBase64;
    }
    if Base64.Value(data[42], last).value % 4 != 0 {
      return TrailingBits;
    }
    return Ok(out + g.value);
  }
}
