/**
 The bytes of the image as a function of the inode list, the shared table and
 the references, and the places of its parts, which do not depend on references.
 */
module Image {
  import opened Bytes
  import opened Xattrs
  import opened DirPack
  import opened Inodes

  // --- References -------------------------------------------------------------

  /** The offsets that the sizing pass notes. */
  datatype Layout = Layout(inodes: seq<nat>, inodesEnd: Option<nat>, xattrs: seq<nat>, blocks: seq<nat>,
      end: Option<nat>)

  const NO_LAYOUT: Layout := Layout([], None, [], [], None)

  /** What a pass knows of the layout: nothing, or all of it. */
  datatype Refs = Blank | Known(layout: Layout)

  function Dims(l: Layout): (nat, nat, nat, bool, bool) {
    (|l.inodes|, |l.blocks|, |l.xattrs|, l.inodesEnd.Some?, l.end.Some?)
  }

  /** The layout has a place for each of `inodes` inodes and `xattrs` shared entries. */
  predicate Covers(refs: Refs, inodes: nat, xattrs: nat) {
    refs.Known? ==> Dims(refs.layout) == (inodes, inodes, xattrs, true, true)
  }

  function Nid(refs: Refs, idx: nat): nat
    requires refs.Known? ==> idx < |refs.layout.inodes|
  {
    match refs case Blank => 0 case Known(l) => Quot(l.inodes[idx], 32)
  }

  function BlockStart(refs: Refs, idx: nat): nat
    requires refs.Known? ==> idx < |refs.layout.blocks|
  {
    match refs case Blank => 0 case Known(l) => l.blocks[idx]
  }

  /** The 4-byte units from the start of the first xattr block to the entry. */
  function XattrRef(refs: Refs, idx: nat): nat
    requires refs.Known? ==> idx < |refs.layout.xattrs|
  {
    match refs
    case Blank => 0
    case Known(l) =>
      if l.inodesEnd.Some? && l.xattrs[idx] >= l.inodesEnd.value
      then Quot(Rem(l.inodesEnd.value, 4096) + (l.xattrs[idx] - l.inodesEnd.value), 4)
      else 0
  }

  function XattrBlock(refs: Refs): nat {
    match refs
    case Blank => 0
    case Known(l) => if l.inodesEnd.Some? then Quot(l.inodesEnd.value, 4096) else 0
  }

  function BlockCount(refs: Refs): nat {
    match refs
    case Blank => 0
    case Known(l) => if l.end.Some? then Quot(l.end.value, 4096) else 0
  }

  // --- Xattrs -----------------------------------------------------------------

  /** The four bytes of the inverted name filter. */
  function FilterByte(filter: set<nat>, i: nat): byte {
    (if 8 * i in filter then 0 else 1) + (if 8 * i + 1 in filter then 0 else 2)
    + (if 8 * i + 2 in filter then 0 else 4) + (if 8 * i + 3 in filter then 0 else 8)
    + (if 8 * i + 4 in filter then 0 else 16) + (if 8 * i + 5 in filter then 0 else 32)
    + (if 8 * i + 6 in filter then 0 else 64) + (if 8 * i + 7 in filter then 0 else 128)
  }

  function FilterBytes(filter: set<nat>): (b: Blob)
    ensures |b| == 4
  {
    [FilterByte(filter, 0), FilterByte(filter, 1), FilterByte(filter, 2), FilterByte(filter, 3)]
  }

  /** One entry: lengths and prefix, suffix, value, zeros up to a multiple of 4. */
  function EntryBody(x: LocalXattr): (b: Blob)
    ensures |b| == 4 + |x.suffix| + |x.value|
  {
    Le(|x.suffix|, 1) + Le(x.prefix, 1) + Le(|x.value|, 2) + x.suffix + x.value
  }

  function EntryBytes(x: LocalXattr): (b: Blob)
    ensures |b| == x.EntrySize()
  {
    EntryBody(x) + Zeros(x.EntrySize() - (4 + |x.suffix| + |x.value|))
  }

  function EntriesBytes(xs: seq<LocalXattr>): (b: Blob)
    ensures |b| == Sizes(xs)
  {
    if xs == [] then [] else EntriesBytes(xs[..|xs| - 1]) + EntryBytes(xs[|xs| - 1])
  }

  ghost predicate RefsIn(refs: Refs, shared: seq<nat>) {
    refs.Known? ==> forall i :: 0 <= i < |shared| ==> shared[i] < |refs.layout.xattrs|
  }

  function SharedBytes(refs: Refs, shared: seq<nat>): (b: Blob)
    requires RefsIn(refs, shared)
    ensures |b| == 4 * |shared|
  {
    if shared == [] then []
    else SharedBytes(refs, shared[..|shared| - 1]) + Le(XattrRef(refs, shared[|shared| - 1]), 4)
  }

  function XattrHead(xs: XattrSet): (b: Blob)
    ensures |b| == 12
  {
    FilterBytes(xs.filter) + Le(|xs.shared|, 1) + Zeros(7)
  }

  /** The xattr area of an inode. */
  function XattrBytes(refs: Refs, xs: XattrSet): (b: Blob)
    requires RefsIn(refs, xs.shared)
    ensures |b| == xs.ByteSize()
  {
    if xs.filter == {} then []
    else XattrHead(xs) + SharedBytes(refs, xs.shared) + EntriesBytes(xs.local)
  }

  // --- Directory blocks -------------------------------------------------------

  function NameBytes(es: seq<DirEnt>): Blob {
    if es == [] then [] else NameBytes(es[..|es| - 1]) + es[|es| - 1].name
  }

  ghost predicate EntsIn(refs: Refs, es: seq<DirEnt>) {
    refs.Known? ==> forall i :: 0 <= i < |es| ==> es[i].inode < |refs.layout.inodes|
  }

  function HeadBytes(refs: Refs, e: DirEnt, nameOff: nat): (b: Blob)
    requires refs.Known? ==> e.inode < |refs.layout.inodes|
    ensures |b| == 12
  {
    Le(Nid(refs, e.inode), 8) + Le(nameOff, 2) + Le(e.fileType, 1) + [0]
  }

  /** The heads of the first `k` entries of a block. */
  function HeadsTo(refs: Refs, es: seq<DirEnt>, k: nat): (b: Blob)
    requires k <= |es| && EntsIn(refs, es)
    ensures |b| == 12 * k
  {
    if k == 0 then []
    else HeadsTo(refs, es, k - 1) + HeadBytes(refs, es[k - 1], 12 * |es| + |NameBytes(es[..k - 1])|)
  }

  function DirBlockBytes(refs: Refs, es: seq<DirEnt>): Blob
    requires EntsIn(refs, es)
  {
    HeadsTo(refs, es, |es|) + NameBytes(es)
  }

  lemma {:induction false} NameBytesLength(es: seq<DirEnt>)
    ensures 12 * |es| + |NameBytes(es)| == Span(es)
  {
    if es != [] {
      NameBytesLength(es[..|es| - 1]);
    }
  }

  lemma {:induction false} DirBlockLength(refs: Refs, es: seq<DirEnt>)
    requires EntsIn(refs, es)
    ensures |DirBlockBytes(refs, es)| == Span(es)
  {
    NameBytesLength(es);
  }

  function Zero4096(n: nat): (z: Blob)
    requires n <= 4096
    ensures |z| == 4096 - n
  {
    Zeros(4096 - n)
  }

  /** The first `k` data blocks of a directory, each padded to 4096 bytes. */
  function DirBlocksTo(refs: Refs, blocks: seq<seq<DirEnt>>, k: nat): (b: Blob)
    requires k <= |blocks| && forall i :: 0 <= i < |blocks| ==> EntsIn(refs, blocks[i]) && FullBlock(blocks[i])
    ensures |b| == 4096 * k
  {
    if k == 0 then []
    else
      DirBlockLength(refs, blocks[k - 1]);
      DirBlocksTo(refs, blocks, k - 1) + DirBlockBytes(refs, blocks[k - 1]) + Zero4096(Span(blocks[k - 1]))
  }

  // --- Inodes -----------------------------------------------------------------

  type Mtime = (nat, nat)

  function LayoutBits(kind: Kind): nat {
    match kind
    case DirKind(dir) => if dir.inline == [] then LAYOUT_FLAT_PLAIN else LAYOUT_FLAT_INLINE
    case EmptyReg => LAYOUT_FLAT_PLAIN
    case BackedReg(_, _) => LAYOUT_CHUNK_BASED
    case SymlinkKind(_) => LAYOUT_FLAT_INLINE
    case WhiteoutKind => LAYOUT_FLAT_PLAIN
  }

  /** The word that names the data: a block address, or a chunk format. */
  function DataWord(kind: Kind, blockStart: nat): nat {
    match kind
    case DirKind(dir) => if dir.inline == [] || dir.blocks != [] then Quot(blockStart, 4096) else 0
    case BackedReg(size, _) => ChunkFormat(size)
    case _ => 0
  }

  function SizeOf(kind: Kind): nat {
    match kind
    case DirKind(dir) => dir.size
    case EmptyReg => 0
    case BackedReg(size, _) => size
    case SymlinkKind(target) => |target|
    case WhiteoutKind => 0
  }

  function LinksOf(kind: Kind): nat {
    if kind.DirKind? then kind.dir.nlink else 1
  }

  predicate Compact(x: Inode, mm: Mtime) {
    x.mtime == mm && LinksOf(x.kind) <= 0xFFFF && x.uid <= 0xFFFF && x.gid <= 0xFFFF && SizeOf(x.kind) <= 0xFFFF_FFFF
  }

  function HeaderSize(x: Inode, mm: Mtime): (n: nat)
    ensures n == 32 || n == 64
  {
    if Compact(x, mm) then 32 else 64
  }

  function InlineSize(kind: Kind): nat {
    match kind
    case DirKind(dir) => Span(dir.inline)
    case BackedReg(_, tail) => 4 * Quot(tail, 4)
    case SymlinkKind(target) => |target|
    case _ => 0
  }

  /** The bytes left in the block, or 0 at its start. */
  function ToBoundary(pos: nat): nat {
    if Rem(pos, 4096) == 0 then 0 else 4096 - Rem(pos, 4096)
  }

  /** The tail padding: a tail that does not fit the rest of the block moves on by whole slots. */
  function TailPad(pos: nat, tail: nat): nat {
    if 0 < ToBoundary(pos) < tail then RoundUp(ToBoundary(pos), 32) else 0
  }

  /** The padding before the header, from the slot and the size of header and xattr area. */
  function HeadPad(kind: Kind, head: nat, slot: nat): nat {
    match kind
    case BackedReg(_, tail) => if tail > 0 then TailPad(slot + head, tail) else 0
    case SymlinkKind(target) => if Rem(slot, 4096) + head + Rem(|target|, 4096) > 4096 then ToBoundary(slot) else 0
    case DirKind(dir) => if dir.inline != [] then TailPad(slot + head, Rem(dir.size, 4096)) else 0
    case _ => 0
  }

  /** Where the header of an inode goes if the last one ended at `at`. */
  function HeaderAt(x: Inode, mm: Mtime, at: nat): (p: nat)
    ensures p >= at
  {
    RoundUp(at, 32) + HeadPad(x.kind, HeaderSize(x, mm) + x.xattrs.ByteSize(), RoundUp(at, 32))
  }

  function InodeMode(x: Inode): nat { TypeBits(x.kind) + x.perms }

  function HeaderBytes(x: Inode, idx: nat, mm: Mtime, word: nat): (b: Blob)
    ensures |b| == HeaderSize(x, mm)
  {
    if Compact(x, mm) then
      Le(LayoutBits(x.kind), 2) + Le(x.xattrs.Icount(), 2) + Le(InodeMode(x), 2) + Le(LinksOf(x.kind), 2)
      + Le(SizeOf(x.kind), 4) + Zeros(4) + Le(word, 4) + Le(idx, 4) + Le(x.uid, 2) + Le(x.gid, 2) + Zeros(4)
    else ExtendedFront(x, idx, word) + ExtendedBack(x)
  }

  function ExtendedFront(x: Inode, idx: nat, word: nat): (b: Blob)
    ensures |b| == 32
  {
    Le(1 + LayoutBits(x.kind), 2) + Le(x.xattrs.Icount(), 2) + Le(InodeMode(x), 2) + Zeros(2)
    + Le(SizeOf(x.kind), 8) + Le(word, 4) + Le(idx, 4) + Le(x.uid, 4) + Le(x.gid, 4)
  }

  function ExtendedBack(x: Inode): (b: Blob)
    ensures |b| == 32
  {
    Le(x.mtime.0, 8) + Le(x.mtime.1, 4) + Le(LinksOf(x.kind), 4) + Zeros(16)
  }

  function Index(n: nat): (b: Blob)
    ensures |b| == 4 * n
  {
    seq(4 * n, _ => 255 as byte)
  }

  ghost predicate InodeIn(refs: Refs, x: Inode) {
    && RefsIn(refs, x.xattrs.shared)
    && (x.kind.DirKind? ==>
          && EntsIn(refs, x.kind.dir.inline)
          && forall i :: 0 <= i < |x.kind.dir.blocks| ==>
               EntsIn(refs, x.kind.dir.blocks[i]) && FullBlock(x.kind.dir.blocks[i]))
  }

  function InlineBytes(refs: Refs, kind: Kind): (b: Blob)
    requires kind.DirKind? ==> EntsIn(refs, kind.dir.inline)
    ensures |b| == InlineSize(kind)
  {
    match kind
    case DirKind(dir) =>
      DirBlockLength(refs, dir.inline);
      DirBlockBytes(refs, dir.inline)
    case BackedReg(_, tail) => Index(Quot(tail, 4))
    case SymlinkKind(target) => target
    case _ => []
  }

  /** The bytes of header, xattr area and inline data. */
  function BodySize(x: Inode, mm: Mtime): nat {
    HeaderSize(x, mm) + x.xattrs.ByteSize() + InlineSize(x.kind)
  }

  function InodeEnd(place: nat, size: nat): nat { RoundUp(place + size, 32) }

  /** Header, xattr area and inline data. */
  function BodyBytes(refs: Refs, x: Inode, idx: nat, mm: Mtime): (b: Blob)
    requires InodeIn(refs, x) && (refs.Known? ==> idx < |refs.layout.blocks|)
    ensures |b| == BodySize(x, mm)
  {
    HeaderBytes(x, idx, mm, DataWord(x.kind, BlockStart(refs, idx)))
    + XattrBytes(refs, x.xattrs) + InlineBytes(refs, x.kind)
  }

  /** The bytes of an inode whose header goes at `place`, from `at` to the next slot. */
  function InodeBytes(refs: Refs, x: Inode, idx: nat, mm: Mtime, at: nat, place: nat): (b: Blob)
    requires InodeIn(refs, x) && (refs.Known? ==> idx < |refs.layout.blocks|) && at <= place
    ensures at + |b| == InodeEnd(place, BodySize(x, mm))
  {
    Zeros(place - at) + BodyBytes(refs, x, idx, mm)
    + Zeros(InodeEnd(place, BodySize(x, mm)) - (place + BodySize(x, mm)))
  }

  // --- The image --------------------------------------------------------------

  datatype Plan = Plan(inodes: seq<Inode>, shared: seq<LocalXattr>, mm: Mtime, flags: nat)

  function CfsHeader(flags: nat): (b: Blob)
    ensures |b| == 1024
  {
    Le(0xD078_629A, 4) + Le(1, 4) + Le(flags, 4) + Le(0, 4) + Zeros(16) + Zeros(992)
  }

  /** The 128 bytes of the EROFS superblock. */
  function SuperBytes(rootNid: nat, inos: nat, blocks: nat, mm: Mtime, xattrBlock: nat): (b: Blob)
    ensures |b| == 128
  {
    Le(0xE0F5_E1E2, 4) + Zeros(4) + Le(6, 4) + Le(12, 1) + Zeros(1) + Le(rootNid, 2) + Le(inos, 8)
    + Le(mm.0, 8) + Le(mm.1, 4) + Le(blocks, 4) + Zeros(4) + Le(xattrBlock, 4) + Zeros(80)
  }

  /** Every reference of the plan is inside it. */
  ghost predicate Closed(p: Plan) {
    && p.inodes != []
    && forall i :: 0 <= i < |p.inodes| ==> InodeClosed(p, p.inodes[i])
  }

  ghost predicate EntsClosed(p: Plan, es: seq<DirEnt>) {
    forall i :: 0 <= i < |es| ==> es[i].inode < |p.inodes|
  }

  ghost predicate InodeClosed(p: Plan, x: Inode) {
    && (forall i :: 0 <= i < |x.xattrs.shared| ==> x.xattrs.shared[i] < |p.shared|)
    && (x.kind.DirKind? ==>
          && EntsClosed(p, x.kind.dir.inline)
          && forall i :: 0 <= i < |x.kind.dir.blocks| ==>
               EntsClosed(p, x.kind.dir.blocks[i]) && FullBlock(x.kind.dir.blocks[i]))
  }

  lemma {:induction false} ClosedInode(p: Plan, refs: Refs, i: nat)
    requires Closed(p) && Covers(refs, |p.inodes|, |p.shared|) && i < |p.inodes|
    ensures InodeIn(refs, p.inodes[i]) && (refs.Known? ==> i < |refs.layout.blocks|)
  {
    assert InodeClosed(p, p.inodes[i]);
  }

  function FrontBytes(p: Plan, refs: Refs): (b: Blob)
    requires p.inodes != [] && Covers(refs, |p.inodes|, |p.shared|)
    ensures |b| == 1152
  {
    CfsHeader(p.flags) + SuperBytes(Nid(refs, 0), |p.inodes|, BlockCount(refs), p.mm, XattrBlock(refs))
  }

  // --- Places -----------------------------------------------------------------

  /** The end of the first `k` inodes. */
  function InodesLen(p: Plan, k: nat): nat
    requires k <= |p.inodes|
    decreases k, 0
  {
    if k == 0 then |CfsHeader(p.flags)| + 128 else InodeEnd(InodePlace(p, k - 1), BodySize(p.inodes[k - 1], p.mm))
  }

  /** The padding before the header of inode `k`. */
  function InodePad(p: Plan, k: nat): nat
    requires k < |p.inodes|
    decreases k, 1
  {
    HeaderAt(p.inodes[k], p.mm, InodesLen(p, k)) - InodesLen(p, k)
  }

  /** Where the header of inode `k` goes. */
  function InodePlace(p: Plan, k: nat): nat
    requires k < |p.inodes|
    decreases k, 2
  {
    InodesLen(p, k) + InodePad(p, k)
  }

  function XattrsLen(p: Plan, k: nat): nat
    requires k <= |p.shared|
  {
    if k == 0 then RoundUp(InodesLen(p, |p.inodes|), 32) else XattrsLen(p, k - 1) + p.shared[k - 1].EntrySize()
  }

  function BlocksOf(x: Inode): nat { if x.kind.DirKind? then |x.kind.dir.blocks| else 0 }

  function BlocksLen(p: Plan, k: nat): nat
    requires k <= |p.inodes|
  {
    if k == 0 then RoundUp(XattrsLen(p, |p.shared|), 4096) else BlocksLen(p, k - 1) + 4096 * BlocksOf(p.inodes[k - 1])
  }

  // --- The stages of the image ------------------------------------------------

  /** The image up to inode `k`. */
  function InodesTo(p: Plan, refs: Refs, k: nat): (b: Blob)
    requires Closed(p) && Covers(refs, |p.inodes|, |p.shared|) && k <= |p.inodes|
    ensures |b| == InodesLen(p, k)
    decreases k, 0
  {
    if k == 0 then FrontBytes(p, refs) else InodesTo(p, refs, k - 1) + InodePart(p, refs, k - 1)
  }

  /** What inode `k` adds to the image. */
  function InodePart(p: Plan, refs: Refs, k: nat): (b: Blob)
    requires Closed(p) && Covers(refs, |p.inodes|, |p.shared|) && k < |p.inodes|
    ensures InodesLen(p, k) + |b| == InodesLen(p, k + 1)
    decreases k, 1
  {
    ClosedInode(p, refs, k);
    InodeBytes(refs, p.inodes[k], k, p.mm, |InodesTo(p, refs, k)|, InodePlace(p, k))
  }

  /** The image up to entry `k` of the shared table. */
  function XattrsTo(p: Plan, refs: Refs, k: nat): (b: Blob)
    requires Closed(p) && Covers(refs, |p.inodes|, |p.shared|) && k <= |p.shared|
    ensures |b| == XattrsLen(p, k)
  {
    if k == 0 then
      var b := InodesTo(p, refs, |p.inodes|);
      b + Zeros(RoundUp(|b|, 32) - |b|)
    else XattrsTo(p, refs, k - 1) + EntryBytes(p.shared[k - 1])
  }

  function BlockBytes(refs: Refs, x: Inode): (b: Blob)
    requires InodeIn(refs, x)
    ensures |b| == 4096 * (if x.kind.DirKind? then |x.kind.dir.blocks| else 0)
  {
    if x.kind.DirKind? then DirBlocksTo(refs, x.kind.dir.blocks, |x.kind.dir.blocks|) else []
  }

  /** The image up to the data blocks of inode `k`. */
  function BlocksTo(p: Plan, refs: Refs, k: nat): (b: Blob)
    requires Closed(p) && Covers(refs, |p.inodes|, |p.shared|) && k <= |p.inodes|
    ensures |b| == BlocksLen(p, k)
  {
    if k == 0 then
      var b := XattrsTo(p, refs, |p.shared|);
      b + Zeros(RoundUp(|b|, 4096) - |b|)
    else
      ClosedInode(p, refs, k - 1);
      BlocksTo(p, refs, k - 1) + BlockBytes(refs, p.inodes[k - 1])
  }

  function ImageBytes(p: Plan, refs: Refs): Blob
    requires Closed(p) && Covers(refs, |p.inodes|, |p.shared|)
  {
    BlocksTo(p, refs, |p.inodes|)
  }

  // --- The layout -------------------------------------------------------------

  function InodePlaces(p: Plan, k: nat): (r: seq<nat>)
    requires k <= |p.inodes|
    ensures |r| == k && forall i :: 0 <= i < k ==> r[i] == InodePlace(p, i)
  {
    if k == 0 then [] else InodePlaces(p, k - 1) + [InodePlace(p, k - 1)]
  }

  function XattrPlaces(p: Plan, k: nat): (r: seq<nat>)
    requires k <= |p.shared|
    ensures |r| == k && forall i :: 0 <= i < k ==> r[i] == XattrsLen(p, i)
  {
    if k == 0 then [] else XattrPlaces(p, k - 1) + [XattrsLen(p, k - 1)]
  }

  function BlockPlaces(p: Plan, k: nat): (r: seq<nat>)
    requires k <= |p.inodes|
    ensures |r| == k && forall i :: 0 <= i < k ==> r[i] == BlocksLen(p, i)
  {
    if k == 0 then [] else BlockPlaces(p, k - 1) + [BlocksLen(p, k - 1)]
  }

  /** The layout of the plan: where the sizing pass finds each part. */
  function LayoutOf(p: Plan): Layout {
    Layout(InodePlaces(p, |p.inodes|), Some(XattrsLen(p, 0)), XattrPlaces(p, |p.shared|),
           BlockPlaces(p, |p.inodes|), Some(BlocksLen(p, |p.inodes|)))
  }

  lemma {:induction false} XattrsLenGrows(p: Plan, a: nat, b: nat)
    requires a <= b <= |p.shared|
    ensures XattrsLen(p, a) <= XattrsLen(p, b)
  {
    if a < b {
      XattrsLenGrows(p, a, b - 1);
    }
  }

  /** The rest of a block from a slot on is whole slots. */
  lemma {:induction false} BoundaryAligned(slot: nat)
    requires Rem(slot, 32) == 0
    ensures Rem(ToBoundary(slot), 32) == 0
  {
    BlockIsSlots();
    if slot >= 4096 {
      RemAdd(4096, slot - 4096, 32);
      BoundaryAligned(slot - 4096);
    } else if slot > 0 {
      RemAdd(slot, 4096 - slot, 32);
    }
  }

  lemma {:induction false} HeadPadAligned(kind: Kind, head: nat, slot: nat)
    requires Rem(slot, 32) == 0
    ensures Rem(HeadPad(kind, head, slot), 32) == 0
  {
    RoundUpAligned(ToBoundary(slot + head), 32);
    BoundaryAligned(slot);
  }

  lemma {:induction false} HeaderAligned(x: Inode, mm: Mtime, at: nat)
    ensures Rem(HeaderAt(x, mm, at), 32) == 0
  {
    var slot, head := RoundUp(at, 32), HeaderSize(x, mm) + x.xattrs.ByteSize();
    RoundUpAligned(at, 32);
    HeadPadAligned(x.kind, head, slot);
    RemAdd(slot, HeadPad(x.kind, head, slot), 32);
  }

  lemma {:induction false} SlotAligned(n: nat)
    ensures Rem(RoundUp(n, 32), 4) == 0
  {
    RoundUpAligned(n, 32);
    RemOfMultiple(RoundUp(n, 32), 32, 4);
  }

  lemma {:induction false} XattrsLenAligned(p: Plan, k: nat)
    requires k <= |p.shared|
    ensures Rem(XattrsLen(p, k), 4) == 0
  {
    if k == 0 {
      SlotAligned(InodesLen(p, |p.inodes|));
    } else {
      XattrsLenAligned(p, k - 1);
      RoundUpAligned(4 + |p.shared[k - 1].suffix| + |p.shared[k - 1].value|, 4);
      RemAdd(XattrsLen(p, k - 1), p.shared[k - 1].EntrySize(), 4);
    }
  }

  lemma {:induction false} BlocksLenAligned(p: Plan, k: nat)
    requires k <= |p.inodes|
    ensures Rem(BlocksLen(p, k), 4096) == 0
  {
    if k == 0 {
      RoundUpAligned(XattrsLen(p, |p.shared|), 4096);
    } else {
      BlocksLenAligned(p, k - 1);
      RemOf4096(BlocksOf(p.inodes[k - 1]));
      RemAdd(BlocksLen(p, k - 1), 4096 * BlocksOf(p.inodes[k - 1]), 4096);
    }
  }

  lemma {:induction false} LayoutCovers(p: Plan)
    ensures Covers(Known(LayoutOf(p)), |p.inodes|, |p.shared|)
  {
  }

  /** A place depends only on the end of the inode before. */
  lemma {:induction false} PlaceIs(p: Plan, k: nat, at: nat)
    requires k < |p.inodes| && at == InodesLen(p, k)
    ensures InodePlace(p, k) == HeaderAt(p.inodes[k], p.mm, at)
  {
  }

  lemma {:induction false} InodesStep(p: Plan, refs: Refs, k: nat)
    requires Closed(p) && Covers(refs, |p.inodes|, |p.shared|) && k < |p.inodes|
    ensures InodeIn(refs, p.inodes[k]) && (refs.Known? ==> k < |refs.layout.blocks|)
    ensures |InodesTo(p, refs, k)| == InodesLen(p, k)
    ensures InodesTo(p, refs, k + 1) ==
            InodesTo(p, refs, k) + InodeBytes(refs, p.inodes[k], k, p.mm, InodesLen(p, k), InodePlace(p, k))
  {
    ClosedInode(p, refs, k);
  }

  lemma {:induction false} XattrsStep(p: Plan, refs: Refs, k: nat)
    requires Closed(p) && Covers(refs, |p.inodes|, |p.shared|) && k < |p.shared|
    ensures |XattrsTo(p, refs, k)| == XattrsLen(p, k)
    ensures XattrsTo(p, refs, k + 1) == XattrsTo(p, refs, k) + EntryBytes(p.shared[k])
  {
  }

  lemma {:induction false} BlocksStep(p: Plan, refs: Refs, k: nat)
    requires Closed(p) && Covers(refs, |p.inodes|, |p.shared|) && k < |p.inodes|
    ensures InodeIn(refs, p.inodes[k])
    ensures |BlocksTo(p, refs, k)| == BlocksLen(p, k)
    ensures BlocksTo(p, refs, k + 1) == BlocksTo(p, refs, k) + BlockBytes(refs, p.inodes[k])
  {
    ClosedInode(p, refs, k);
  }

  /**
   The two passes agree: at the start of every inode, of every shared entry and of
   every block run the image has the length of the layout, whatever the references
   are. The induction is in the postconditions of `InodesTo`, `XattrsTo` and
   `BlocksTo`, which this lemma compares for two sets of references.
   */
  lemma {:induction false} PassesAgree(p: Plan, refs: Refs)
    requires Closed(p) && Covers(refs, |p.inodes|, |p.shared|)
    ensures forall k :: 0 <= k <= |p.inodes| ==> |InodesTo(p, refs, k)| == |InodesTo(p, Blank, k)|
    ensures forall k :: 0 <= k <= |p.shared| ==> |XattrsTo(p, refs, k)| == |XattrsTo(p, Blank, k)|
    ensures forall k :: 0 <= k <= |p.inodes| ==> |BlocksTo(p, refs, k)| == |BlocksTo(p, Blank, k)|
    ensures |ImageBytes(p, refs)| == BlocksLen(p, |p.inodes|)
  {
  }

  /** The image that the emitting pass writes. */
  function FinalImage(p: Plan): Blob
    requires Closed(p)
  {
    LayoutCovers(p);
    ImageBytes(p, Known(LayoutOf(p)))
  }
}
