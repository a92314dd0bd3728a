/**
 The LEB128 varints: seven bits in a byte, the low bits first, and only the
 shortest form of a value.
 */
module Varint {
  import opened Bytes

  type u64 = x: int | 0 <= x < 0x1_0000_0000_0000_0000

  datatype Problem = Truncated | Overflow | NotMinimal

  datatype Decoded<T> = Ok(value: T, size: nat) | Err(why: Problem)

  function Encoding(v: nat): (b: Blob)
    ensures b != []
  {
    if v < 128 then [v] else [v % 128 + 128] + Encoding(v / 128)
  }

  /** The bytes of a varint from its byte `i` on: the value counts from there. */
  function Tail(s: Blob, i: nat): Decoded<nat> {
    if s == [] then Err(Truncated)
    else
      var p := s[0] % 128;
      if i >= 10 || (i == 9 && p > 1) then Err(Overflow)
      else if s[0] < 128 then if i > 0 && s[0] == 0 then Err(NotMinimal) else Ok(p, 1)
      else
        match Tail(s[1..], i + 1)
        case Err(why) => Err(why)
        case Ok(w, n) => Ok(p + 128 * w, n + 1)
  }

  function Decoding(s: Blob): Decoded<nat> { Tail(s, 0) }

  /** The values that byte `i` and the bytes after it can hold stay below this. */
  function Room(i: nat): nat
    decreases 10 - i
  {
    if i >= 10 then 0 else if i == 9 then 2 else 128 * Room(i + 1)
  }

  lemma {:induction false} RoomIsWide(i: nat)
    ensures i < 9 ==> Room(i) >= 256
    decreases 10 - i
  {
    if i < 8 {
      RoomIsWide(i + 1);
    }
  }

  lemma {:induction false} RoomIs64Bits()
    ensures Room(0) == 0x1_0000_0000_0000_0000
  {
    assert Room(9) == 2;
    assert Room(8) == 256;
    assert Room(7) == 0x8000;
    assert Room(6) == 0x40_0000;
    assert Room(5) == 0x2000_0000;
    assert Room(4) == 0x10_0000_0000;
    assert Room(3) == 0x800_0000_0000;
    assert Room(2) == 0x4_0000_0000_0000;
    assert Room(1) == 0x200_0000_0000_0000;
  }

  /** What stands at the start of `s` is the encoding of `w`, and `w` may stand at byte `i`. */
  predicate Stands(s: Blob, i: nat, w: nat, n: nat) {
    n <= |s| && s[..n] == Encoding(w) && w < Room(i) && (i > 0 ==> w > 0)
  }

  lemma {:induction false} TailStands(s: Blob, i: nat)
    requires Tail(s, i).Ok?
    ensures Stands(s, i, Tail(s, i).value, Tail(s, i).size)
  {
    RoomIsWide(i);
    if s[0] < 128 {
      assert s[..1] == [s[0]];
    } else {
      TailStands(s[1..], i + 1);
      var w, n := Tail(s[1..], i + 1).value, Tail(s[1..], i + 1).size;
      assert Joined(s[0], w) == Tail(s, i).value;
      assert s[..n + 1] == [s[0]] + s[1..][..n];
    }
  }

  function Joined(b: byte, w: nat): (v: nat)
    requires b >= 128 && w > 0
    ensures v == b % 128 + 128 * w && v >= 128 && v % 128 == b - 128 && v / 128 == w
  {
    b % 128 + 128 * w
  }

  lemma {:induction false} StandsTail(s: Blob, i: nat, w: nat, n: nat)
    requires Stands(s, i, w, n)
    ensures Tail(s, i) == Ok(w, n)
    decreases w
  {
    assert s[0] == s[..n][0];
    if w < 128 {
      assert n == 1;
    } else {
      assert s[..n][1..] == s[1..][..n - 1] == Encoding(w / 128);
      StandsTail(s[1..], i + 1, w / 128, n - 1);
    }
  }

  /** The decoder takes a prefix exactly when it is the encoding of a 64-bit value, and gives that value. */
  lemma {:induction false} Canonical(s: Blob, v: nat, n: nat)
    ensures Decoding(s) == Ok(v, n) <==> n <= |s| && s[..n] == Encoding(v) && v < 0x1_0000_0000_0000_0000
  {
    RoomIs64Bits();
    if Decoding(s) == Ok(v, n) {
      TailStands(s, 0);
    }
    if n <= |s| && s[..n] == Encoding(v) && v < 0x1_0000_0000_0000_0000 {
      StandsTail(s, 0, v, n);
    }
  }

  // --- The codec as the program runs it ------------------------------------------------

  method Encode(v: u64, before: Blob) returns (out: Blob)
    ensures out == before + Encoding(v)
  {
    var value: nat := v;
    out := before;
    while value >= 128
      invariant out + Encoding(value) == before + Encoding(v)
      decreases value
    {
      assert (out + [value % 128 + 128]) + Encoding(value / 128) == out + Encoding(value);
      out := out + [value % 128 + 128];
      value := value / 128;
    }
    out := out + [value];
  }

  /** The result of a decode that starts with `value` and the weight of byte `i`. */
  function Shifted(r: Decoded<nat>, value: nat, weight: nat, i: nat): Decoded<nat> {
    match r
    case Err(why) => Err(why)
    case Ok(w, n) => Ok(value + weight * w, i + n)
  }

  lemma {:induction false} ShiftedStep(r: Decoded<nat>, p: nat, value: nat, weight: nat, i: nat, now: nat, heavy: nat)
    requires now == value + weight * p && heavy == weight * 128
    ensures Shifted(match r case Err(why) => Err(why) case Ok(w, n) => Ok(p + 128 * w, n + 1), value, weight, i) ==
            Shifted(r, now, heavy, i + 1)
  {
    match r
    case Err(_) =>
    case Ok(w, n) => assert weight * (p + 128 * w) == weight * p + (weight * 128) * w;
  }

  method Decode(input: Blob) returns (r: Decoded<nat>)
    ensures r == Decoding(input)
  {
    var value: nat, weight: nat, i := 0, 1, 0;
    assert input[0..] == input;
    while i < |input|
      invariant 0 <= i <= |input|
      invariant Shifted(Tail(input[i..], i), value, weight, i) == Decoding(input)
    {
      var b := input[i];
      var payload := b % 128;
      assert input[i..][0] == b && input[i..][1..] == input[i + 1..];
      if i >= 10 || (i == 9 && payload > 1) {
        return Err(Overflow);
      }
      ShiftedStep(Tail(input[i + 1..], i + 1), payload, value, weight, i, value + weight * payload, weight * 128);
      value := value + weight * payload;
      if b < 128 {
        if i > 0 && b == 0 {
          return Err(NotMinimal);
        }
        return Ok(value, i + 1);
      }
      weight := weight * 128;
      i := i + 1;
    }
    return Err(Truncated);
  }
}
