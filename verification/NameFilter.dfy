/**
 The name filter of an inode as a reader of the image uses it: a set bit of the
 32-bit word rules out every name with that hash bit, before any entry is read.
 */
module NameFilter {
  import opened Bytes
  import opened Xattrs
  import opened Inodes
  import opened Image
  import opened Reader
  import opened Readback
  import opened Compose
  import opened Collect
  import opened Tree
  import opened Shown

  /** Bit `k` of a number. */
  function Bit(n: nat, k: nat): nat {
    if k > 0 then Bit(n / 2, k - 1) else n % 2
  }

  /** The filter word of the inode has a one at the hash bit. */
  predicate RuledOut(img: Blob, v: View, bit: nat)
    requires bit < 32 && v.area + 4 <= |img|
  {
    Bit(img[v.area + bit / 8] as nat, bit % 8) == 1
  }

  function One(b: bool): nat { if b then 0 else 1 }

  /** Eight bits, the lowest first. */
  function Eight(b: seq<nat>): nat
    requires |b| == 8
  {
    b[0] + 2 * (b[1] + 2 * (b[2] + 2 * (b[3] + 2 * (b[4] + 2 * (b[5] + 2 * (b[6] + 2 * b[7]))))))
  }

  lemma {:induction false} BitOfEight(b: seq<nat>, k: nat)
    requires |b| == 8 && k < 8 && forall i :: 0 <= i < 8 ==> b[i] < 2
    ensures Bit(Eight(b), k) == b[k]
  {
    var n7 := b[7];
    var n6 := b[6] + 2 * n7;
    var n5 := b[5] + 2 * n6;
    var n4 := b[4] + 2 * n5;
    var n3 := b[3] + 2 * n4;
    var n2 := b[2] + 2 * n3;
    var n1 := b[1] + 2 * n2;
    BitsDown(Eight(b), [n1, n2, n3, n4, n5, n6, n7], b, k);
  }

  lemma {:induction false} BitsDown(n: nat, rest: seq<nat>, b: seq<nat>, k: nat)
    requires |b| == |rest| + 1 && k < |b| && (forall i :: 0 <= i < |b| ==> b[i] < 2)
    requires n == b[0] + (if rest == [] then 0 else 2 * rest[0])
    requires forall i :: 0 <= i < |rest| ==> rest[i] == b[i + 1] + (if i + 1 < |rest| then 2 * rest[i + 1] else 0)
    ensures Bit(n, k) == b[k]
    decreases k
  {
    if k > 0 {
      BitsDown(rest[0], rest[1..], b[1..], k - 1);
    }
  }

  /** The written byte has a zero exactly at the bits of the filter. */
  lemma {:induction false} FilterByteBit(filter: set<nat>, i: nat, k: nat)
    requires k < 8
    ensures Bit(FilterByte(filter, i), k) == One(8 * i + k in filter)
  {
    var b0, b1, b2, b3 := One(8 * i in filter), One(8 * i + 1 in filter), One(8 * i + 2 in filter),
        One(8 * i + 3 in filter);
    var b4, b5, b6, b7 := One(8 * i + 4 in filter), One(8 * i + 5 in filter), One(8 * i + 6 in filter),
        One(8 * i + 7 in filter);
    EightIs(FilterByte(filter, i), b0, b1, b2, b3, b4, b5, b6, b7, k);
    assert 8 * i == 8 * i + 0;
  }

  lemma {:induction false} EightIs(n: nat, b0: nat, b1: nat, b2: nat, b3: nat, b4: nat, b5: nat, b6: nat, b7: nat,
                                   k: nat)
    requires b0 < 2 && b1 < 2 && b2 < 2 && b3 < 2 && b4 < 2 && b5 < 2 && b6 < 2 && b7 < 2 && k < 8
    requires n == b0 + 2 * b1 + 4 * b2 + 8 * b3 + 16 * b4 + 32 * b5 + 64 * b6 + 128 * b7
    ensures Bit(n, k) == [b0, b1, b2, b3, b4, b5, b6, b7][k]
  {
    BitOfEight([b0, b1, b2, b3, b4, b5, b6, b7], k);
  }

  lemma {:induction false} FilterStands(img: Blob, area: nat, refs: Refs, xs: XattrSet, i: nat)
    requires RefsIn(refs, xs.shared) && Has(img, area, XattrBytes(refs, xs)) && xs.filter != {} && i < 4
    ensures area + 4 <= |img| && img[area + i] == FilterByte(xs.filter, i)
  {
    var head := XattrHead(xs);
    assert XattrBytes(refs, xs)[i] == head[i] == FilterBytes(xs.filter)[i];
  }

  lemma {:induction false} RuledOutIs(img: Blob, v: View, filter: set<nat>, bit: nat)
    requires bit < 32 && v.area + 4 <= |img| && img[v.area + bit / 8] == FilterByte(filter, bit / 8)
    ensures RuledOut(img, v, bit) <==> bit !in filter
  {
    FilterByteBit(filter, bit / 8, bit % 8);
    assert bit == 8 * (bit / 8) + bit % 8;
  }

  /** A bit of the written filter word of inode `k` is clear exactly if it is in the filter of the inode. */
  lemma {:induction false} FilterReads(p: Plan, k: nat, bit: nat)
    requires Closed(p) && k < |p.inodes| && Sized(p.inodes[k], k, WordOf(p, k))
    requires p.inodes[k].xattrs.filter != {} && bit < 32
    ensures ViewIn(p, k).area + 4 <= |FinalImage(p)|
    ensures RuledOut(FinalImage(p), ViewIn(p, k), bit) <==> bit !in p.inodes[k].xattrs.filter
  {
    var img, v, xs := FinalImage(p), ViewIn(p, k), p.inodes[k].xattrs;
    InodeReads(p, k);
    FilterStands(img, v.area, KnownRefs(p), xs, bit / 8);
    RuledOutIs(img, v, xs.filter, bit);
  }

  lemma {:induction false} SomeAttrs(all: seq<LocalXattr>, pairs: seq<(Blob, Blob)>)
    requires (forall x :: x in all ==> x.prefix < 7) && multiset(Names(all)) == multiset(pairs)
    ensures |all| == |pairs|
  {
    assert |multiset(Names(all))| == |all| && |multiset(pairs)| == |pairs|;
  }

  /**
   For every node of an accepted tree with attributes: the filter word rules out
   a hash bit exactly if no attribute of the node, shared or not, has that bit.
   So it hides no attribute.
   */
  lemma {:induction false} FilterIsExact(xxh: Xxh, root: Node, w: Walk, p: Plan, i: nat, bit: nat)
    requires Accepted(root, w, p) && Filtered(xxh, p) && i < |p.inodes| && bit < 32
    requires PairsAt(root.meta, w.srcs[i], i == 0) != []
    ensures Closed(p) && ViewIn(p, i).area + 4 <= |FinalImage(p)|
    ensures forall j :: 0 <= j < |p.inodes[i].xattrs.shared| ==> p.inodes[i].xattrs.shared[j] < |p.shared|
    ensures RuledOut(FinalImage(p), ViewIn(p, i), bit) <==>
            forall x :: x in Pick(p.shared, p.inodes[i].xattrs.shared) + p.inodes[i].xattrs.local ==>
                FilterBit(xxh, x) != bit
  {
    ComposedCloses(root, w, p);
    InodeSized(root, w, p, i);
    assert AttrsAt(root, w, p, i);
    var xs := p.inodes[i].xattrs;
    var all := Pick(p.shared, xs.shared) + xs.local;
    SomeAttrs(all, PairsAt(root.meta, w.srcs[i], i == 0));
    assert all[0] in all && FilterBit(xxh, all[0]) in xs.filter;
    FilterReads(p, i, bit);
  }
}
