/**
 Byte strings: little-endian fields, zero padding, alignment, and the relation
 "this chunk stands at this offset of that image".
 */
module Bytes {

  type byte = x: int | 0 <= x < 256

  type Blob = seq<byte>

  datatype Option<+T> = None | Some(value: T)

  /** `n` zero bytes. */
  function Zeros(n: nat): (z: Blob)
    ensures |z| == n
    ensures forall i :: 0 <= i < n ==> z[i] == 0
  {
    seq(n, _ => 0 as byte)
  }

  /** The bytes of an ASCII text. */
  function Ascii(s: string): (b: Blob)
    requires forall i :: 0 <= i < |s| ==> s[i] < 128 as char
    ensures |b| == |s|
  {
    seq(|s|, i requires 0 <= i < |s| => s[i] as int as byte)
  }

  // --- Division and alignment -------------------------------------------------

  function Quot(n: nat, d: nat): nat
    requires d > 0
  {
    if n < d then 0 else 1 + Quot(n - d, d)
  }

  function Rem(n: nat, d: nat): (r: nat)
    requires d > 0
    ensures r < d
  {
    if n < d then n else Rem(n - d, d)
  }

  /** The least multiple of `align` that is not below `n`. */
  function RoundUp(n: nat, align: nat): (r: nat)
    requires align > 0
    ensures n <= r < n + align
  {
    if n > align then align + RoundUp(n - align, align) else if n > 0 then align else 0
  }

  lemma {:induction false} QuotRem4(n: nat)
    ensures 4 * Quot(n, 4) + Rem(n, 4) == n
  {
    if n >= 4 {
      QuotRem4(n - 4);
    }
  }

  lemma {:induction false} QuotRem32(n: nat)
    ensures 32 * Quot(n, 32) + Rem(n, 32) == n
  {
    if n >= 32 {
      QuotRem32(n - 32);
    }
  }

  lemma {:induction false} QuotRem4096(n: nat)
    ensures 4096 * Quot(n, 4096) + Rem(n, 4096) == n
  {
    if n >= 4096 {
      QuotRem4096(n - 4096);
    }
  }

  lemma {:induction false} QuotOf12(n: nat, m: nat)
    requires m == 12 * n
    ensures Quot(m, 12) == n
  {
    if n > 0 {
      QuotOf12(n - 1, m - 12);
    }
  }

  lemma {:induction false} RemOf4(n: nat)
    ensures Rem(4 * n, 4) == 0
  {
    if n > 0 {
      RemOf4(n - 1);
    }
  }

  lemma {:induction false} RemOf4096(n: nat)
    ensures Rem(4096 * n, 4096) == 0
  {
    if n > 0 {
      RemOf4096(n - 1);
    }
  }

  lemma {:induction false} BlockIsSlots()
    ensures Rem(4096, 32) == 0
  {
    QuotRem32(4096);
  }

  /** A multiple of `d` does not change a remainder. */
  lemma {:induction false} RemAdd(a: nat, b: nat, d: nat)
    requires d > 0 && Rem(a, d) == 0
    ensures Rem(a + b, d) == Rem(b, d)
  {
    if a >= d {
      RemAdd(a - d, b, d);
    }
  }

  lemma {:induction false} RoundUpAligned(n: nat, align: nat)
    requires align > 0
    ensures Rem(RoundUp(n, align), align) == 0
  {
    if n > align {
      RoundUpAligned(n - align, align);
    }
  }

  /** Padding does not depend on the multiples of the alignment before. */
  lemma {:induction false} RoundUpAdd(a: nat, n: nat, align: nat)
    requires align > 0 && Rem(a, align) == 0
    ensures RoundUp(a + n, align) == a + RoundUp(n, align)
  {
    if n == 0 {
      RoundUpFixed(a, align);
    } else if a >= align {
      RoundUpAdd(a - align, n, align);
    }
  }

  lemma {:induction false} RoundUpFixed(n: nat, align: nat)
    requires align > 0 && Rem(n, align) == 0
    ensures RoundUp(n, align) == n
  {
    if n > align {
      RoundUpFixed(n - align, align);
    }
  }

  /** A multiple of a multiple of `d` is a multiple of `d`. */
  lemma {:induction false} RemOfMultiple(n: nat, m: nat, d: nat)
    requires m > 0 && d > 0 && Rem(m, d) == 0 && Rem(n, m) == 0
    ensures Rem(n, d) == 0
  {
    if n >= m {
      RemOfMultiple(n - m, m, d);
      RemAdd(m, n - m, d);
    }
  }

  // --- Little-endian fields ---------------------------------------------------

  ghost function Pow256(width: nat): (p: nat)
    ensures p > 0
  {
    if width > 0 then 256 * Pow256(width - 1) else 1
  }

  /** Byte `i` of a number, the low byte first. */
  function ByteOf(n: nat, i: nat): byte {
    if i > 0 then ByteOf(n / 256, i - 1) else n % 256
  }

  /** The low `width` bytes of `n`, low byte first: a cast to that width and `to_le_bytes`. */
  function Le(n: nat, width: nat): (b: Blob)
    ensures |b| == width
  {
    seq(width, i requires 0 <= i < width => ByteOf(n, i))
  }

  function FromLe(b: Blob): nat {
    if b == [] then 0 else b[0] as nat + 256 * FromLe(b[1..])
  }

  lemma {:induction false} FromLeLe(n: nat, width: nat)
    requires n < Pow256(width)
    ensures FromLe(Le(n, width)) == n
  {
    if width > 0 {
      FromLeLe(n / 256, width - 1);
      assert Le(n, width)[1..] == Le(n / 256, width - 1);
    }
  }

  lemma {:induction false} Pow256Values()
    ensures Pow256(1) == 0x100
    ensures Pow256(2) == 0x1_0000
    ensures Pow256(4) == 0x1_0000_0000
    ensures Pow256(8) == 0x1_0000_0000_0000_0000
  {
    assert Pow256(1) == 256 * Pow256(0);
    assert Pow256(2) == 256 * Pow256(1);
    assert Pow256(3) == 256 * Pow256(2);
    assert Pow256(4) == 256 * Pow256(3);
    assert Pow256(5) == 256 * Pow256(4);
    assert Pow256(6) == 256 * Pow256(5);
    assert Pow256(7) == 256 * Pow256(6);
    assert Pow256(8) == 256 * Pow256(7);
  }

  /** `off` moved on by `k`. */
  function At(off: nat, k: nat): nat { off + k }

  // --- Chunks of an image -----------------------------------------------------

  /** `chunk` stands at `off` in `img`. */
  ghost predicate Has(img: Blob, off: nat, chunk: Blob) {
    && off + |chunk| <= |img|
    && forall i {:trigger chunk[i]} :: 0 <= i < |chunk| ==> img[off + i] == chunk[i]
  }

  /** The `n` bytes at `off`. */
  function Slice(img: Blob, off: nat, n: nat): (b: Blob)
    requires off + n <= |img|
    ensures |b| == n
  {
    if n == 0 then [] else Slice(img, off, n - 1) + [img[off + n - 1]]
  }

  lemma {:induction false} SliceAt(img: Blob, off: nat, n: nat, i: nat)
    requires off + n <= |img| && i < n
    ensures Slice(img, off, n)[i] == img[off + i]
  {
    if i < n - 1 {
      SliceAt(img, off, n - 1, i);
    }
  }

  /** The number in the `width`-byte little-endian field at `off`. */
  function Field(img: Blob, off: nat, width: nat): nat
    requires off + width <= |img|
  {
    FromLe(Slice(img, off, width))
  }

  lemma {:induction false} HasOfPrefix(img: Blob, pre: Blob, chunk: Blob)
    requires pre + chunk <= img
    ensures Has(img, |pre|, chunk)
  {
    forall i | 0 <= i < |chunk|
      ensures img[|pre| + i] == chunk[i]
    {
      assert (pre + chunk)[|pre| + i] == chunk[i];
    }
  }

  /** The two parts of a chunk stand at its offset and at `mid`. */
  lemma {:induction false} HasParts(img: Blob, off: nat, a: Blob, b: Blob, mid: nat)
    requires Has(img, off, a + b) && mid == off + |a|
    ensures Has(img, off, a)
    ensures Has(img, mid, b)
  {
    var ab := a + b;
    forall i | 0 <= i < |a|
      ensures img[off + i] == a[i]
    {
      assert ab[i] == a[i];
    }
    forall i | 0 <= i < |b|
      ensures img[mid + i] == b[i]
    {
      assert ab[|a| + i] == b[i];
    }
  }

  lemma {:induction false} HasSlice(img: Blob, off: nat, chunk: Blob)
    requires Has(img, off, chunk)
    ensures Slice(img, off, |chunk|) == chunk
  {
    forall i | 0 <= i < |chunk|
      ensures Slice(img, off, |chunk|)[i] == chunk[i]
    {
      SliceAt(img, off, |chunk|, i);
    }
  }

  lemma {:induction false} HasField(img: Blob, off: nat, n: nat, width: nat)
    requires Has(img, off, Le(n, width))
    requires n < Pow256(width)
    ensures off + width <= |img| && Field(img, off, width) == n
  {
    HasSlice(img, off, Le(n, width));
    FromLeLe(n, width);
  }
}
