/**
 What a reader finds in the image of a plan: every inode at its node id, its
 attributes, its directory blocks and its inline data.
 */
module Readback {
  import opened Bytes
  import opened Xattrs
  import opened DirPack
  import opened Inodes
  import opened Image
  import opened Reader

  function KnownRefs(p: Plan): Refs { Known(LayoutOf(p)) }

  // --- Inodes -----------------------------------------------------------------

  function WordOf(p: Plan, k: nat): nat
    requires k < |p.inodes|
  {
    DataWord(p.inodes[k].kind, BlocksLen(p, k))
  }

  /** A node id names the place of its inode: headers stand on 32-byte slots. */
  lemma {:induction false} NidIsPlace(p: Plan, k: nat)
    requires k < |p.inodes|
    ensures 32 * Nid(KnownRefs(p), k) == InodePlace(p, k)
  {
    PlaceIs(p, k, InodesLen(p, k));
    HeaderAligned(p.inodes[k], p.mm, InodesLen(p, k));
    QuotRem32(InodePlace(p, k));
  }

  lemma {:induction false} BodySplits(img: Blob, refs: Refs, x: Inode, idx: nat, mm: Mtime, place: nat, area: nat,
                                      data: nat)
    requires InodeIn(refs, x) && (refs.Known? ==> idx < |refs.layout.blocks|)
    requires area == place + HeaderSize(x, mm) && data == area + x.xattrs.ByteSize()
    requires Has(img, place, BodyBytes(refs, x, idx, mm))
    ensures Has(img, place, HeaderBytes(x, idx, mm, DataWord(x.kind, BlockStart(refs, idx))))
    ensures Has(img, area, XattrBytes(refs, x.xattrs)) && Has(img, data, InlineBytes(refs, x.kind))
  {
    var head := HeaderBytes(x, idx, mm, DataWord(x.kind, BlockStart(refs, idx)));
    HasParts(img, place, head + XattrBytes(refs, x.xattrs), InlineBytes(refs, x.kind), data);
    HasParts(img, place, head, XattrBytes(refs, x.xattrs), area);
  }

  function ViewIn(p: Plan, k: nat): View
    requires k < |p.inodes|
  {
    ViewOf(p.inodes[k], k, p.mm, WordOf(p, k), InodePlace(p, k))
  }

  /** Inode `k` reads back at its node id, and its attributes and inline data stand where the view says. */
  lemma {:induction false} InodeReads(p: Plan, k: nat)
    requires Closed(p) && k < |p.inodes| && Sized(p.inodes[k], k, WordOf(p, k))
    ensures InodeIn(KnownRefs(p), p.inodes[k])
    ensures var img, v, x := FinalImage(p), ViewIn(p, k), p.inodes[k];
            && ReadInode(img, Nid(KnownRefs(p), k), p.mm) == Some(v)
            && AreaSize(v.icount) == x.xattrs.ByteSize()
            && Has(img, v.area, XattrBytes(KnownRefs(p), x.xattrs))
            && Has(img, v.data, InlineBytes(KnownRefs(p), x.kind))
  {
    var refs, img, x, v := KnownRefs(p), FinalImage(p), p.inodes[k], ViewIn(p, k);
    LayoutCovers(p);
    BodyStands(p, refs, k);
    NidIsPlace(p, k);
    BodySplits(img, refs, x, k, p.mm, InodePlace(p, k), v.area, v.data);
    HeaderReads(img, Nid(refs, k), x, k, p.mm, WordOf(p, k));
  }

  // --- Attributes -------------------------------------------------------------

  lemma {:induction false} RefPlace(end: nat, pos: nat, base: nat, ref: nat)
    requires end <= pos && Rem(pos, 4) == 0
    requires base == Quot(end, 4096) && ref == Quot(Rem(end, 4096) + (pos - end), 4)
    ensures TablePos(base, ref) == pos
    ensures 4 * ref <= pos - end + 4096
  {
    var whole, part := 4096 * base, Rem(end, 4096) + (pos - end);
    QuotRem4096(end);
    RemOf4096(base);
    RemOf4(1024);
    RemOfMultiple(whole, 4096, 4);
    RemAdd(whole, part, 4);
    assert whole + part == pos;
    QuotRem4(part);
  }

  /** A reference to entry `r` of the table names the place of that entry. */
  lemma {:induction false} RefIsPlace(p: Plan, r: nat)
    requires r < |p.shared|
    ensures TablePos(XattrBlock(KnownRefs(p)), XattrRef(KnownRefs(p), r)) == XattrsLen(p, r)
    ensures 4 * XattrRef(KnownRefs(p), r) <= XattrsLen(p, r) - XattrsLen(p, 0) + 4096
  {
    var end, pos := XattrsLen(p, 0), XattrsLen(p, r);
    XattrsLenGrows(p, 0, r);
    XattrsLenAligned(p, r);
    RefPlace(end, pos, XattrBlock(KnownRefs(p)), XattrRef(KnownRefs(p), r));
  }

  /** The shared table fits the 32-bit references, and its entries fit their fields. */
  ghost predicate TableFits(p: Plan) {
    Writable(p.shared) && XattrsLen(p, |p.shared|) - XattrsLen(p, 0) <= 0x3_FFFF_0000
  }

  lemma {:induction false} TableEntryReads(p: Plan, r: nat)
    requires Closed(p) && TableFits(p) && r < |p.shared|
    ensures XattrRef(KnownRefs(p), r) < 0x1_0000_0000
    ensures Entries(FinalImage(p))(TablePos(XattrBlock(KnownRefs(p)), XattrRef(KnownRefs(p), r))) == Some(p.shared[r])
  {
    LayoutCovers(p);
    RefIsPlace(p, r);
    XattrsLenGrows(p, r, |p.shared|);
    EntryStands(p, KnownRefs(p), r);
    assert p.shared[r] in p.shared;
    EntryReads(FinalImage(p), XattrsLen(p, r), p.shared[r]);
  }

  ghost predicate XattrsFine(p: Plan, xs: XattrSet) {
    && |xs.shared| <= 128 && (forall i :: 0 <= i < |xs.shared| ==> xs.shared[i] < |p.shared|)
    && Writable(xs.local) && (xs.filter == {} ==> xs.local == [] && xs.shared == [])
  }

  lemma {:induction false} RefsAreGood(p: Plan, shared: seq<nat>)
    requires Closed(p) && TableFits(p) && forall i :: 0 <= i < |shared| ==> shared[i] < |p.shared|
    ensures RefsIn(KnownRefs(p), shared)
    ensures RefsGood(FinalImage(p), KnownRefs(p), XattrBlock(KnownRefs(p)), shared, p.shared)
  {
    forall i | 0 <= i < |shared|
      ensures XattrRef(KnownRefs(p), shared[i]) < 0x1_0000_0000
      ensures Entries(FinalImage(p))(TablePos(XattrBlock(KnownRefs(p)), XattrRef(KnownRefs(p), shared[i])))
              == Some(p.shared[shared[i]])
    {
      TableEntryReads(p, shared[i]);
    }
  }

  /** The attributes of inode `k` read back: the shared ones it references, then its own. */
  lemma {:induction false} XattrsRead(p: Plan, k: nat)
    requires Closed(p) && TableFits(p) && k < |p.inodes|
    requires Sized(p.inodes[k], k, WordOf(p, k)) && XattrsFine(p, p.inodes[k].xattrs)
    ensures var xs := p.inodes[k].xattrs;
            ReadXattrs(FinalImage(p), ViewIn(p, k), XattrBlock(KnownRefs(p))) ==
                Some(Pick(p.shared, xs.shared) + xs.local)
  {
    InodeReads(p, k);
    RefsAreGood(p, p.inodes[k].xattrs.shared);
    AreaReads(FinalImage(p), ViewIn(p, k), XattrBlock(KnownRefs(p)), KnownRefs(p), p.inodes[k].xattrs, p.shared);
  }

  // --- Directories ------------------------------------------------------------

  function BlockPos(base: nat, i: nat): nat { base + 4096 * i }

  type BlockReader = nat -> Option<seq<Dirent>>

  function BlocksFrom(img: Blob, base: nat): BlockReader {
    (i: nat) => ReadDirBlock(img, BlockPos(base, i), 4096)
  }

  /** The entries of the first `k` blocks. */
  function ReadBlocks(read: BlockReader, k: nat): Option<seq<Dirent>> {
    if k == 0 then Some([]) else
    match (ReadBlocks(read, k - 1), read(k - 1))
    case (Some(ds), Some(es)) => Some(ds + es)
    case _ => None
  }

  /** The tail of a directory: after the attributes in the inline layout, else in a block of its own. */
  function TailPos(v: View): nat {
    if v.layout == LAYOUT_FLAT_INLINE then v.data else BlockPos(4096 * v.word, Quot(v.size, 4096))
  }

  /** The entries of a directory: those of its whole blocks, then those of its tail. */
  function ReadDir(img: Blob, v: View): Option<seq<Dirent>> {
    match ReadBlocks(BlocksFrom(img, 4096 * v.word), Quot(v.size, 4096))
    case None => None
    case Some(ds) =>
      if Rem(v.size, 4096) == 0 then Some(ds) else
      match ReadDirBlock(img, TailPos(v), Rem(v.size, 4096))
      case None => None
      case Some(es) => Some(ds + es)
  }

  /** The last name has no zero byte. */
  predicate EndsPlain(es: seq<DirEnt>) {
    es != [] ==> 0 !in es[|es| - 1].name
  }

  ghost predicate EntsGood(refs: Refs, es: seq<DirEnt>) {
    EntsIn(refs, es) && EntsFit(refs, es)
  }

  /** A standing block gives its own entries, or others for the same inodes, or none. */
  lemma {:induction false} BlockReads(img: Blob, off: nat, max: nat, refs: Refs, es: seq<DirEnt>)
    requires EntsGood(refs, es) && BlockStands(img, off, max, refs, es)
    ensures ReadDirBlock(img, off, max) == Some(DirentsOf(refs, es)) <==> EndsPlain(es)
    ensures ReadDirBlock(img, off, max).Some? ==> SameTargets(ReadDirBlock(img, off, max).value, DirentsOf(refs, es))
  {
    DirBlockReads(img, off, max, refs, es);
    DirBlockTargets(img, off, max, refs, es);
  }

  lemma {:induction false} DirentsConcat(refs: Refs, a: seq<DirEnt>, b: seq<DirEnt>)
    requires EntsIn(refs, a) && EntsIn(refs, b)
    ensures EntsIn(refs, a + b) && DirentsOf(refs, a + b) == DirentsOf(refs, a) + DirentsOf(refs, b)
  {
  }

  /** Two lists in a row are as wanted exactly if each is, given the targets. */
  lemma {:induction false} BothRead(x: Option<seq<Dirent>>, y: Option<seq<Dirent>>, all: Option<seq<Dirent>>,
                                    a: seq<Dirent>, b: seq<Dirent>)
    requires x.Some? ==> SameTargets(x.value, a)
    requires y.Some? ==> SameTargets(y.value, b)
    requires all == if x.Some? && y.Some? then Some(x.value + y.value) else None
    ensures all == Some(a + b) <==> x == Some(a) && y == Some(b)
    ensures all.Some? ==> SameTargets(all.value, a + b)
  {
    if x.Some? && y.Some? {
      TargetsConcat(x.value, a, y.value, b);
    }
    if all == Some(a + b) {
      assert x.value == (x.value + y.value)[..|a|] == (a + b)[..|a|] == a;
      assert y.value == (x.value + y.value)[|a|..] == (a + b)[|a|..] == b;
    }
  }

  lemma {:induction false} TargetsConcat(x: seq<Dirent>, a: seq<Dirent>, y: seq<Dirent>, b: seq<Dirent>)
    requires SameTargets(x, a) && SameTargets(y, b)
    ensures SameTargets(x + y, a + b)
  {
    var z := x + y;
    forall i {:trigger z[i]} | 0 <= i < |z|
      ensures z[i].nid == (a + b)[i].nid && z[i].fileType == (a + b)[i].fileType
    {
      assert i < |x| ==> z[i] == x[i];
      assert i >= |x| ==> z[i] == y[i - |x|];
    }
  }

  function Join(parts: seq<seq<Dirent>>): seq<Dirent> {
    if parts == [] then [] else Join(parts[..|parts| - 1]) + parts[|parts| - 1]
  }

  lemma {:induction false} BlocksRead(read: BlockReader, parts: seq<seq<Dirent>>, k: nat)
    requires k <= |parts|
    requires forall i {:trigger parts[i]} :: 0 <= i < |parts| && read(i).Some? ==> SameTargets(read(i).value, parts[i])
    ensures ReadBlocks(read, k) == Some(Join(parts[..k])) <==>
            forall i {:trigger parts[i]} :: 0 <= i < k ==> read(i) == Some(parts[i])
    ensures ReadBlocks(read, k).Some? ==> SameTargets(ReadBlocks(read, k).value, Join(parts[..k]))
  {
    if k > 0 {
      var j := k - 1;
      BlocksRead(read, parts, j);
      assert parts[..k][..j] == parts[..j] && parts[j] == parts[..k][j];
      BothRead(ReadBlocks(read, j), read(j), ReadBlocks(read, k), Join(parts[..j]), parts[j]);
    }
  }

  ghost predicate AllGood(refs: Refs, blocks: seq<seq<DirEnt>>) {
    forall i :: 0 <= i < |blocks| ==> EntsGood(refs, blocks[i]) && FullBlock(blocks[i])
  }

  predicate AllPlain(blocks: seq<seq<DirEnt>>) {
    forall i :: 0 <= i < |blocks| ==> EndsPlain(blocks[i])
  }

  function PartsOf(refs: Refs, blocks: seq<seq<DirEnt>>): (r: seq<seq<Dirent>>)
    requires forall i :: 0 <= i < |blocks| ==> EntsIn(refs, blocks[i])
    ensures |r| == |blocks| && forall i {:trigger r[i]} :: 0 <= i < |blocks| ==> r[i] == DirentsOf(refs, blocks[i])
  {
    seq(|blocks|, i requires 0 <= i < |blocks| => DirentsOf(refs, blocks[i]))
  }

  lemma {:induction false} JoinOfParts(refs: Refs, blocks: seq<seq<DirEnt>>)
    requires forall i :: 0 <= i < |blocks| ==> EntsIn(refs, blocks[i])
    ensures EntsIn(refs, Flatten(blocks)) && Join(PartsOf(refs, blocks)) == DirentsOf(refs, Flatten(blocks))
  {
    if blocks != [] {
      var init, last := blocks[..|blocks| - 1], blocks[|blocks| - 1];
      JoinOfParts(refs, init);
      assert PartsOf(refs, blocks)[..|blocks| - 1] == PartsOf(refs, init);
      DirentsConcat(refs, Flatten(init), last);
    }
  }

  lemma {:induction false} PaddedStands(img: Blob, at: nat, refs: Refs, es: seq<DirEnt>, end: nat)
    requires EntsIn(refs, es) && FullBlock(es) && end == at + Span(es)
    requires Has(img, at, DirBlockBytes(refs, es)) && Has(img, end, Zero4096(Span(es)))
    ensures BlockStands(img, at, 4096, refs, es)
  {
    var z := Zero4096(Span(es));
    forall k {:trigger img[k]} | at + Span(es) <= k < at + 4096
      ensures img[k] == 0
    {
      assert z[k - end] == 0;
    }
  }

  lemma {:induction false} ThreeParts(img: Blob, base: nat, before: Blob, block: Blob, zeros: Blob, at: nat, end: nat)
    requires Has(img, base, (before + block) + zeros) && at == base + |before| && end == at + |block|
    ensures Has(img, base, before) && Has(img, at, block) && Has(img, end, zeros)
  {
    HasParts(img, base, before + block, zeros, end);
    HasParts(img, base, before, block, at);
  }

  /** The bytes of a run are those of the blocks before the last, of the last, and of its padding. */
  lemma {:induction false} RunParts(refs: Refs, blocks: seq<seq<DirEnt>>, k: nat, last: seq<DirEnt>)
    requires 0 < k <= |blocks| && forall i :: 0 <= i < |blocks| ==> EntsIn(refs, blocks[i]) && FullBlock(blocks[i])
    requires last == blocks[k - 1]
    ensures DirBlocksTo(refs, blocks, k) ==
            DirBlocksTo(refs, blocks, k - 1) + DirBlockBytes(refs, last) + Zero4096(Span(last))
  {
  }

  /** The last block of a run stands at its place, after the blocks before it. */
  lemma {:induction false} LastInRun(img: Blob, base: nat, refs: Refs, blocks: seq<seq<DirEnt>>, k: nat, j: nat,
                                     at: nat, end: nat)
    requires AllGood(refs, blocks) && j < |blocks| && k == j + 1 && Has(img, base, DirBlocksTo(refs, blocks, k))
    requires at == BlockPos(base, j) && end == at + Span(blocks[j])
    ensures Has(img, base, DirBlocksTo(refs, blocks, j))
    ensures Has(img, at, DirBlockBytes(refs, blocks[j])) && Has(img, end, Zero4096(Span(blocks[j])))
  {
    RunParts(refs, blocks, k, blocks[j]);
    DirBlockLength(refs, blocks[j]);
    ThreeParts(img, base, DirBlocksTo(refs, blocks, j), DirBlockBytes(refs, blocks[j]), Zero4096(Span(blocks[j])), at,
        end);
  }

  /** A run starts with the shorter runs. */
  lemma {:induction false} RunStarts(img: Blob, base: nat, refs: Refs, blocks: seq<seq<DirEnt>>, k: nat, m: nat)
    requires AllGood(refs, blocks) && m <= k <= |blocks| && Has(img, base, DirBlocksTo(refs, blocks, k))
    ensures Has(img, base, DirBlocksTo(refs, blocks, m))
  {
    if m < k {
      var j := k - 1;
      LastInRun(img, base, refs, blocks, k, j, BlockPos(base, j), BlockPos(base, j) + Span(blocks[j]));
      RunStarts(img, base, refs, blocks, j, m);
    }
  }

  lemma {:induction false} BlockInRun(img: Blob, base: nat, refs: Refs, blocks: seq<seq<DirEnt>>, i: nat, at: nat,
                                      end: nat)
    requires AllGood(refs, blocks) && i < |blocks| && Has(img, base, DirBlocksTo(refs, blocks, |blocks|))
    requires at == BlockPos(base, i) && end == at + Span(blocks[i])
    ensures BlockStands(img, at, 4096, refs, blocks[i])
  {
    RunStarts(img, base, refs, blocks, |blocks|, i + 1);
    LastInRun(img, base, refs, blocks, i + 1, i, at, end);
    PaddedStands(img, at, refs, blocks[i], end);
  }

  lemma {:induction false} OneBlockReads(img: Blob, base: nat, refs: Refs, blocks: seq<seq<DirEnt>>, i: nat)
    requires AllGood(refs, blocks) && i < |blocks| && Has(img, base, DirBlocksTo(refs, blocks, |blocks|))
    ensures BlocksFrom(img, base)(i) == Some(DirentsOf(refs, blocks[i])) <==> EndsPlain(blocks[i])
    ensures BlocksFrom(img, base)(i).Some? ==> SameTargets(BlocksFrom(img, base)(i).value, DirentsOf(refs, blocks[i]))
  {
    BlockInRun(img, base, refs, blocks, i, BlockPos(base, i), BlockPos(base, i) + Span(blocks[i]));
    BlockReads(img, BlockPos(base, i), 4096, refs, blocks[i]);
  }

  ghost predicate ReadsRun(read: BlockReader, refs: Refs, blocks: seq<seq<DirEnt>>)
    requires EntsIn(refs, Flatten(blocks))
  {
    && (ReadBlocks(read, |blocks|) == Some(DirentsOf(refs, Flatten(blocks))) <==> AllPlain(blocks))
    && (ReadBlocks(read, |blocks|).Some? ==>
          SameTargets(ReadBlocks(read, |blocks|).value, DirentsOf(refs, Flatten(blocks))))
  }

  lemma {:induction false} PartsRead(read: BlockReader, refs: Refs, blocks: seq<seq<DirEnt>>, parts: seq<seq<Dirent>>)
    requires (forall i :: 0 <= i < |blocks| ==> EntsIn(refs, blocks[i])) && parts == PartsOf(refs, blocks)
    requires forall i {:trigger parts[i]} :: 0 <= i < |parts| ==>
               && (read(i) == Some(parts[i]) <==> EndsPlain(blocks[i]))
               && (read(i).Some? ==> SameTargets(read(i).value, parts[i]))
    ensures EntsIn(refs, Flatten(blocks)) && ReadsRun(read, refs, blocks)
  {
    BlocksRead(read, parts, |blocks|);
    assert parts[..|blocks|] == parts;
    JoinOfParts(refs, blocks);
    if forall i {:trigger parts[i]} :: 0 <= i < |parts| ==> read(i) == Some(parts[i]) {
      forall i | 0 <= i < |blocks|
        ensures EndsPlain(blocks[i])
      {
        assert read(i) == Some(parts[i]);
      }
    }
  }

  /** The data blocks read back exactly if the last name of each has no zero byte. */
  lemma {:induction false} RunReads(img: Blob, base: nat, refs: Refs, blocks: seq<seq<DirEnt>>)
    requires AllGood(refs, blocks) && Has(img, base, DirBlocksTo(refs, blocks, |blocks|))
    ensures EntsIn(refs, Flatten(blocks)) && ReadsRun(BlocksFrom(img, base), refs, blocks)
  {
    var read, parts := BlocksFrom(img, base), PartsOf(refs, blocks);
    forall i {:trigger parts[i]} | 0 <= i < |parts|
      ensures read(i) == Some(parts[i]) <==> EndsPlain(blocks[i])
      ensures read(i).Some? ==> SameTargets(read(i).value, parts[i])
    {
      OneBlockReads(img, base, refs, blocks, i);
    }
    PartsRead(read, refs, blocks, parts);
  }

  /** What the packing gives of every directory. */
  ghost predicate DirFine(d: DirData) {
    && d.size == 4096 * |d.blocks| + Span(d.inline) && Span(d.inline) <= 2048
    && (forall i :: 0 <= i < |d.blocks| ==> FullBlock(d.blocks[i]) && Typed(d.blocks[i]))
    && Typed(d.inline)
  }

  predicate Typed(es: seq<DirEnt>) {
    forall i {:trigger es[i]} :: 0 <= i < |es| ==> es[i].fileType < 256
  }

  /** No last name of a block or of the tail has a zero byte. */
  predicate DirPlain(d: DirData) { AllPlain(d.blocks) && EndsPlain(d.inline) }

  function DirList(d: DirData): seq<DirEnt> { Flatten(d.blocks) + d.inline }

  lemma {:induction false} SizeSplits(b: nat, s: nat, m: nat)
    requires s < 4096 && m == 4096 * b + s
    ensures Quot(m, 4096) == b && Rem(m, 4096) == s
  {
    if b > 0 {
      SizeSplits(b - 1, s, m - 4096);
    }
  }

  lemma {:induction false} SpanZero(es: seq<DirEnt>)
    ensures Span(es) == 0 <==> es == []
  {
  }

  /** The two parts of a directory read back together. */
  lemma {:induction false} DirJoins(img: Blob, v: View, base: nat, refs: Refs, d: DirData)
    requires EntsIn(refs, Flatten(d.blocks)) && EntsGood(refs, d.inline) && DirFine(d) && v.size == d.size
    requires d.blocks != [] ==> 4096 * v.word == base
    requires ReadsRun(BlocksFrom(img, base), refs, d.blocks)
    requires d.inline != [] ==>
            v.layout == LAYOUT_FLAT_INLINE && BlockStands(img, v.data, Span(d.inline), refs, d.inline)
    ensures EntsIn(refs, DirList(d))
    ensures ReadDir(img, v) == Some(DirentsOf(refs, DirList(d))) <==> DirPlain(d)
    ensures ReadDir(img, v).Some? ==> SameTargets(ReadDir(img, v).value, DirentsOf(refs, DirList(d)))
  {
    SizeSplits(|d.blocks|, Span(d.inline), v.size);
    SpanZero(d.inline);
    DirentsConcat(refs, Flatten(d.blocks), d.inline);
    var blocks := ReadBlocks(BlocksFrom(img, 4096 * v.word), |d.blocks|);
    if d.blocks == [] {
      assert blocks == Some([]);
    }
    if d.inline == [] {
      assert DirList(d) == Flatten(d.blocks);
    } else {
      BlockReads(img, v.data, Span(d.inline), refs, d.inline);
      BothRead(blocks, ReadDirBlock(img, v.data, Span(d.inline)), ReadDir(img, v),
               DirentsOf(refs, Flatten(d.blocks)), DirentsOf(refs, d.inline));
    }
  }

  /** The image is within the reach of 64-bit offsets. */
  ghost predicate InReach(p: Plan) { BlocksLen(p, |p.inodes|) < 0x1_0000_0000_0000_0000 }

  lemma {:induction false} NidFits(p: Plan, k: nat)
    requires Closed(p) && InReach(p) && k < |p.inodes|
    ensures Nid(KnownRefs(p), k) < 0x1_0000_0000_0000_0000
  {
    LayoutCovers(p);
    BodyStands(p, KnownRefs(p), k);
    NidIsPlace(p, k);
  }

  lemma {:induction false} ListGood(p: Plan, es: seq<DirEnt>)
    requires Closed(p) && InReach(p) && EntsClosed(p, es) && Typed(es)
    ensures EntsGood(KnownRefs(p), es)
  {
    forall i {:trigger es[i]} | 0 <= i < |es|
      ensures Nid(KnownRefs(p), es[i].inode) < 0x1_0000_0000_0000_0000
    {
      NidFits(p, es[i].inode);
    }
  }

  lemma {:induction false} DirGood(p: Plan, k: nat)
    requires Closed(p) && InReach(p) && k < |p.inodes| && p.inodes[k].kind.DirKind? && DirFine(p.inodes[k].kind.dir)
    ensures AllGood(KnownRefs(p), p.inodes[k].kind.dir.blocks) && EntsGood(KnownRefs(p), p.inodes[k].kind.dir.inline)
  {
    var d := p.inodes[k].kind.dir;
    assert InodeClosed(p, p.inodes[k]);
    ListGood(p, d.inline);
    forall i | 0 <= i < |d.blocks|
      ensures EntsGood(KnownRefs(p), d.blocks[i]) && FullBlock(d.blocks[i])
    {
      ListGood(p, d.blocks[i]);
    }
  }

  lemma {:induction false} TailStands(img: Blob, at: nat, refs: Refs, es: seq<DirEnt>)
    requires EntsIn(refs, es) && es != [] && Span(es) <= 4096 && Has(img, at, DirBlockBytes(refs, es))
    ensures BlockStands(img, at, Span(es), refs, es)
  {
    DirBlockLength(refs, es);
  }

  lemma {:induction false} WordIsBlocks(p: Plan, k: nat)
    requires k < |p.inodes| && p.inodes[k].kind.DirKind? && p.inodes[k].kind.dir.blocks != []
    ensures 4096 * WordOf(p, k) == BlocksLen(p, k)
  {
    BlocksLenAligned(p, k);
    QuotRem4096(BlocksLen(p, k));
  }

  /**
   A directory reads back as its whole entry list exactly if no last name of a
   block or of the tail has a zero byte. In any case its entries name the right inodes.
   */
  lemma {:induction false} DirReads(p: Plan, k: nat)
    requires Closed(p) && InReach(p) && k < |p.inodes| && Sized(p.inodes[k], k, WordOf(p, k))
    requires p.inodes[k].kind.DirKind? && DirFine(p.inodes[k].kind.dir)
    ensures var d := p.inodes[k].kind.dir;
            && EntsIn(KnownRefs(p), DirList(d))
            && (ReadDir(FinalImage(p), ViewIn(p, k)) == Some(DirentsOf(KnownRefs(p), DirList(d))) <==> DirPlain(d))
            && (ReadDir(FinalImage(p), ViewIn(p, k)).Some? ==>
                  SameTargets(ReadDir(FinalImage(p), ViewIn(p, k)).value, DirentsOf(KnownRefs(p), DirList(d))))
  {
    var refs, img, d := KnownRefs(p), FinalImage(p), p.inodes[k].kind.dir;
    LayoutCovers(p);
    DirGood(p, k);
    InodeReads(p, k);
    BlocksStand(p, refs, k);
    RunReads(img, BlocksLen(p, k), refs, d.blocks);
    if d.blocks != [] {
      WordIsBlocks(p, k);
    }
    if d.inline != [] {
      TailStands(img, ViewIn(p, k).data, refs, d.inline);
    }
    DirJoins(img, ViewIn(p, k), BlocksLen(p, k), refs, d);
  }

  // --- The superblock ---------------------------------------------------------

  /** What the superblock says: the root node, the inode count, the time, the block count, the table block. */
  datatype Super = Super(root: nat, inos: nat, mm: Mtime, blocks: nat, table: nat)

  function ReadSuper(img: Blob): Super {
    var f := Fields(img);
    Super(f(At(1024, 14), 2), f(At(1024, 16), 8), (f(At(1024, 24), 8), f(At(1024, 32), 4)),
          f(At(1024, 36), 4), f(At(1024, 44), 4))
  }

  lemma {:induction false} SuperParts(img: Blob, off: nat, root: nat, inos: nat, blocks: nat, mm: Mtime, table: nat)
    requires Has(img, off, SuperBytes(root, inos, blocks, mm, table))
    ensures Has(img, At(off, 14), Le(root, 2)) && Has(img, At(off, 16), Le(inos, 8))
    ensures Has(img, At(off, 24), Le(mm.0, 8)) && Has(img, At(off, 32), Le(mm.1, 4))
    ensures Has(img, At(off, 36), Le(blocks, 4)) && Has(img, At(off, 44), Le(table, 4))
  {
    var front := Le(0xE0F5_E1E2, 4) + Zeros(4) + Le(6, 4) + Le(12, 1) + Zeros(1);
    var h1 := front + Le(root, 2);
    var h2 := h1 + Le(inos, 8);
    var h3 := h2 + Le(mm.0, 8);
    var h4 := h3 + Le(mm.1, 4);
    var h5 := h4 + Le(blocks, 4);
    var h6 := h5 + Zeros(4);
    HasParts(img, off, h6 + Le(table, 4), Zeros(80), At(off, 48));
    HasParts(img, off, h6, Le(table, 4), At(off, 44));
    HasParts(img, off, h5, Zeros(4), At(off, 40));
    HasParts(img, off, h4, Le(blocks, 4), At(off, 36));
    HasParts(img, off, h3, Le(mm.1, 4), At(off, 32));
    HasParts(img, off, h2, Le(mm.0, 8), At(off, 24));
    HasParts(img, off, h1, Le(inos, 8), At(off, 16));
    HasParts(img, off, front, Le(root, 2), At(off, 14));
  }

  /** The root is the first inode, so its node id fits the 16-bit field. */
  lemma {:induction false} RootNidFits(p: Plan)
    requires p.inodes != []
    ensures Nid(KnownRefs(p), 0) < 0x1_0000
  {
    var x, slot := p.inodes[0], RoundUp(InodesLen(p, 0), 32);
    PlaceIs(p, 0, InodesLen(p, 0));
    PadBounded(x.kind, HeaderSize(x, p.mm) + x.xattrs.ByteSize(), slot);
    NidIsPlace(p, 0);
  }

  lemma {:induction false} PadBounded(kind: Kind, head: nat, slot: nat)
    ensures HeadPad(kind, head, slot) <= 4128
  {
  }

  ghost predicate SuperFits(p: Plan) {
    && |p.inodes| < 0x1_0000_0000_0000_0000 && BlocksLen(p, |p.inodes|) < 0x1000_0000_0000
    && p.mm.0 < 0x1_0000_0000_0000_0000 && p.mm.1 < 0x1_0000_0000
  }

  lemma {:induction false} BlockNumbersFit(p: Plan)
    requires SuperFits(p)
    ensures BlockCount(KnownRefs(p)) < 0x1_0000_0000 && XattrBlock(KnownRefs(p)) < 0x1_0000_0000
  {
    QuotRem4096(BlocksLen(p, |p.inodes|));
    QuotRem4096(XattrsLen(p, 0));
    XattrsLenGrows(p, 0, |p.shared|);
    BlocksLenGrows(p, 0, |p.inodes|);
  }

  lemma {:induction false} BlocksLenGrows(p: Plan, a: nat, b: nat)
    requires a <= b <= |p.inodes|
    ensures BlocksLen(p, a) <= BlocksLen(p, b)
  {
    if a < b {
      BlocksLenGrows(p, a, b - 1);
    }
  }

  /** The superblock reads back, with the exact root, counts, time and table block. */
  lemma {:induction false} SuperReads(p: Plan)
    requires Closed(p) && SuperFits(p)
    ensures ReadSuper(FinalImage(p)) ==
            Super(Nid(KnownRefs(p), 0), |p.inodes|, p.mm, BlockCount(KnownRefs(p)), XattrBlock(KnownRefs(p)))
  {
    var refs, img := KnownRefs(p), FinalImage(p);
    LayoutCovers(p);
    FrontStands(p, refs);
    SuperParts(img, 1024, Nid(refs, 0), |p.inodes|, BlockCount(refs), p.mm, XattrBlock(refs));
    RootNidFits(p);
    BlockNumbersFit(p);
    Pow256Values();
    HasFieldOf(img, At(1024, 14), Nid(refs, 0), 2);
    HasFieldOf(img, At(1024, 16), |p.inodes|, 8);
    HasFieldOf(img, At(1024, 24), p.mm.0, 8);
    HasFieldOf(img, At(1024, 32), p.mm.1, 4);
    HasFieldOf(img, At(1024, 36), BlockCount(refs), 4);
    HasFieldOf(img, At(1024, 44), XattrBlock(refs), 4);
  }

  // --- Placement --------------------------------------------------------------

  /** The `n` bytes at `pos` are in one block. */
  predicate InOneBlock(pos: nat, n: nat) { n > 0 ==> Rem(pos, 4096) + n <= 4096 }

  lemma {:induction false} BoundaryRem(pos: nat, end: nat)
    requires end == pos + ToBoundary(pos)
    ensures Rem(end, 4096) == 0
  {
    if pos >= 4096 {
      BoundaryRem(pos - 4096, end - 4096);
    }
  }

  lemma {:induction false} SlotOfBlock(pos: nat)
    ensures Rem(pos, 32) == Rem(Rem(pos, 4096), 32)
  {
    if pos >= 4096 {
      BlockIsSlots();
      RemAdd(4096, pos - 4096, 32);
      SlotOfBlock(pos - 4096);
    }
  }

  lemma {:induction false} RoundUpRest(r: nat)
    requires r < 4096
    ensures Rem(r, 32) <= r && RoundUp(4096 - r, 32) == 4096 - r + Rem(r, 32)
  {
    if r >= 32 {
      RoundUpRest(r - 32);
    } else {
      BlockIsSlots();
      RoundUpLow(4096, r);
    }
  }

  lemma {:induction false} RoundUpLow(m: nat, s: nat)
    requires s < 32 && m >= 4096 && Rem(m, 32) == 0
    ensures RoundUp(m - s, 32) == m
  {
    RoundUpAligned(m - s, 32);
    var up := RoundUp(m - s, 32);
    if up < m {
      RemAdd(up, m - up, 32);
    } else if up > m {
      RemAdd(m, up - m, 32);
    }
  }

  /**
   The tail padding keeps a tail in one block exactly if the block has room for
   it after the part of a slot that the header and the attributes end in.
   */
  lemma {:induction false} TailFits(pos: nat, tail: nat, at: nat)
    requires 0 < tail && at == pos + TailPad(pos, tail)
    ensures InOneBlock(at, tail) <==> tail + Rem(pos, 32) <= 4096
  {
    var r := Rem(pos, 4096);
    SlotOfBlock(pos);
    RoundUpRest(r);
    if 0 < ToBoundary(pos) < tail {
      BoundaryRem(pos, pos + ToBoundary(pos));
      RemAdd(pos + ToBoundary(pos), Rem(r, 32), 4096);
      assert at == (pos + ToBoundary(pos)) + Rem(r, 32);
    }
  }

  lemma {:induction false} SymlinkFits(slot: nat, head: nat, target: Blob, place: nat)
    requires head + |target| < 4096
    requires place == slot + HeadPad(SymlinkKind(target), head, slot)
    ensures InOneBlock(place, head + |target|)
  {
    BoundaryRem(slot, slot + ToBoundary(slot));
  }

  /** The part of a slot that the header and the attributes of an inode end in. */
  function Overhang(x: Inode): nat { Rem(x.xattrs.ByteSize(), 32) }

  lemma {:induction false} HeadEnds(at: nat, header: nat, area: nat, pos: nat)
    requires (header == 32 || header == 64) && pos == RoundUp(at, 32) + (header + area)
    ensures Rem(pos, 32) == Rem(area, 32)
  {
    RoundUpAligned(at, 32);
    RemAdd(RoundUp(at, 32), header + area, 32);
    RemAdd(header, area, 32);
  }

  /**
   Where the parts of an inode stand: the header on a 32-byte slot, an inline
   directory tail in one block, a chunk index in one block exactly if it fits
   beside the overhang, and a symlink as a whole in one block if it passed the
   size check.
   */
  lemma {:induction false} Placement(p: Plan, k: nat)
    requires k < |p.inodes|
    ensures Rem(InodePlace(p, k), 32) == 0
    ensures var x, v := p.inodes[k], ViewIn(p, k);
            match x.kind
            case DirKind(d) => d.inline != [] && DirFine(d) ==> InOneBlock(v.data, Span(d.inline))
            case BackedReg(_, tail) => tail > 0 ==> (InOneBlock(v.data, tail) <==> tail + Overhang(x) <= 4096)
            case SymlinkKind(target) =>
              HeaderSize(x, p.mm) + x.xattrs.ByteSize() + |target| < 4096 ==>
                InOneBlock(InodePlace(p, k), HeaderSize(x, p.mm) + x.xattrs.ByteSize() + |target|)
            case _ => true
  {
    var x, at := p.inodes[k], InodesLen(p, k);
    var slot, head := RoundUp(at, 32), HeaderSize(x, p.mm) + x.xattrs.ByteSize();
    PlaceIs(p, k, at);
    HeaderAligned(x, p.mm, at);
    HeadEnds(at, HeaderSize(x, p.mm), x.xattrs.ByteSize(), slot + head);
    match x.kind
    case DirKind(d) =>
      if d.inline != [] && DirFine(d) {
        SpanZero(d.inline);
        SizeSplits(|d.blocks|, Span(d.inline), d.size);
        TailFits(slot + head, Span(d.inline), ViewIn(p, k).data);
      }
    case BackedReg(_, tail) =>
      if 0 < tail {
        TailFits(slot + head, tail, ViewIn(p, k).data);
      }
    case SymlinkKind(target) =>
      if head + |target| < 4096 {
        SymlinkFits(slot, head, target, InodePlace(p, k));
      }
    case _ =>
  }
}
