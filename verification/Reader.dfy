/**
 A reader of the image bytes by the EROFS on-disk rules, and the proof that it
 finds in the written image exactly what the plan holds.
 */
module Reader {
  import opened Bytes
  import opened Xattrs
  import opened DirPack
  import opened Inodes
  import opened Image

  // --- The written image extends each of its stages ----------------------------

  lemma {:induction false} PrefixPart(a: Blob, b: Blob, img: Blob)
    requires a + b <= img
    ensures a <= img
  {
    assert a <= a + b;
  }

  // A prefix of the image that ends with stage `k` has every earlier stage as a prefix.

  lemma {:induction false} InodesBack(p: Plan, refs: Refs, img: Blob, k: nat, prev: nat)
    requires Closed(p) && Covers(refs, |p.inodes|, |p.shared|) && k <= |p.inodes| && prev == k - 1
    requires InodesTo(p, refs, k) <= img
    ensures InodesTo(p, refs, prev) <= img
    ensures InodesTo(p, refs, prev) + InodePart(p, refs, prev) <= img
  {
    PrefixPart(InodesTo(p, refs, prev), InodePart(p, refs, prev), img);
  }

  ghost predicate DownAt(at: nat -> bool, i: nat) { at(i + 1) ==> at(i) }

  lemma {:induction false} Down(at: nat -> bool, j: nat, k: nat)
    requires j <= k && at(k) && forall i {:trigger DownAt(at, i)} :: j <= i < k ==> DownAt(at, i)
    ensures at(j)
    decreases k - j
  {
    if j < k {
      assert DownAt(at, k - 1);
      Down(at, j, k - 1);
    }
  }

  ghost function InodesStand(p: Plan, refs: Refs, img: Blob): nat -> bool
    requires Closed(p) && Covers(refs, |p.inodes|, |p.shared|)
  {
    (i: nat) => i <= |p.inodes| && InodesTo(p, refs, i) <= img
  }

  lemma {:induction false} InodesDown(p: Plan, refs: Refs, img: Blob, i: nat)
    requires Closed(p) && Covers(refs, |p.inodes|, |p.shared|)
    ensures DownAt(InodesStand(p, refs, img), i)
  {
    var next := i + 1;
    if next <= |p.inodes| && InodesTo(p, refs, next) <= img {
      InodesBack(p, refs, img, next, i);
    }
  }

  lemma {:induction false} InodesIn(p: Plan, refs: Refs, img: Blob, j: nat, k: nat)
    requires Closed(p) && Covers(refs, |p.inodes|, |p.shared|) && j <= k <= |p.inodes|
    requires InodesTo(p, refs, k) <= img
    ensures InodesTo(p, refs, j) <= img
  {
    var at := InodesStand(p, refs, img);
    forall i {:trigger DownAt(at, i)} | j <= i < k
      ensures DownAt(at, i)
    {
      InodesDown(p, refs, img, i);
    }
    Down(at, j, k);
  }

  lemma {:induction false} XattrsBack(p: Plan, refs: Refs, img: Blob, k: nat, prev: nat)
    requires Closed(p) && Covers(refs, |p.inodes|, |p.shared|) && k <= |p.shared| && prev == k - 1
    requires XattrsTo(p, refs, k) <= img
    ensures XattrsTo(p, refs, prev) <= img
    ensures XattrsTo(p, refs, prev) + EntryBytes(p.shared[prev]) <= img
  {
    PrefixPart(XattrsTo(p, refs, prev), EntryBytes(p.shared[prev]), img);
  }

  lemma {:induction false} XattrsIn(p: Plan, refs: Refs, img: Blob, j: nat, k: nat)
    requires Closed(p) && Covers(refs, |p.inodes|, |p.shared|) && j <= k <= |p.shared|
    requires XattrsTo(p, refs, k) <= img
    ensures XattrsTo(p, refs, j) <= img
  {
    if j < k {
      var prev := k - 1;
      XattrsBack(p, refs, img, k, prev);
      XattrsIn(p, refs, img, j, prev);
    }
  }

  lemma {:induction false} BlocksBack(p: Plan, refs: Refs, img: Blob, k: nat, prev: nat)
    requires Closed(p) && Covers(refs, |p.inodes|, |p.shared|) && k <= |p.inodes| && prev == k - 1
    requires BlocksTo(p, refs, k) <= img
    ensures InodeIn(refs, p.inodes[prev])
    ensures BlocksTo(p, refs, prev) <= img
    ensures BlocksTo(p, refs, prev) + BlockBytes(refs, p.inodes[prev]) <= img
  {
    ClosedInode(p, refs, prev);
    PrefixPart(BlocksTo(p, refs, prev), BlockBytes(refs, p.inodes[prev]), img);
  }

  lemma {:induction false} BlocksIn(p: Plan, refs: Refs, img: Blob, j: nat, k: nat)
    requires Closed(p) && Covers(refs, |p.inodes|, |p.shared|) && j <= k <= |p.inodes|
    requires BlocksTo(p, refs, k) <= img
    ensures BlocksTo(p, refs, j) <= img
  {
    if j < k {
      var prev := k - 1;
      BlocksBack(p, refs, img, k, prev);
      BlocksIn(p, refs, img, j, prev);
    }
  }

  lemma {:induction false} StagesMeet(p: Plan, refs: Refs, img: Blob)
    requires Closed(p) && Covers(refs, |p.inodes|, |p.shared|) && img == ImageBytes(p, refs)
    ensures BlocksTo(p, refs, |p.inodes|) <= img
    ensures XattrsTo(p, refs, |p.shared|) <= img
    ensures InodesTo(p, refs, |p.inodes|) <= img
  {
    BlocksIn(p, refs, img, 0, |p.inodes|);
    var b := XattrsTo(p, refs, |p.shared|);
    PrefixPart(b, Zeros(RoundUp(|b|, 4096) - |b|), img);
    XattrsIn(p, refs, img, 0, |p.shared|);
    var a := InodesTo(p, refs, |p.inodes|);
    PrefixPart(a, Zeros(RoundUp(|a|, 32) - |a|), img);
  }

  lemma {:induction false} InodeStarts(p: Plan, refs: Refs, img: Blob, i: nat)
    requires Closed(p) && Covers(refs, |p.inodes|, |p.shared|) && i < |p.inodes|
    requires InodesTo(p, refs, |p.inodes|) <= img
    ensures InodesTo(p, refs, i) + InodePart(p, refs, i) <= img
  {
    var next := i + 1;
    InodesIn(p, refs, img, next, |p.inodes|);
    InodesBack(p, refs, img, next, i);
  }

  /** The body of inode `i` stands at its place. */
  lemma {:induction false} BodyStands(p: Plan, refs: Refs, i: nat)
    requires Closed(p) && Covers(refs, |p.inodes|, |p.shared|) && i < |p.inodes|
    ensures InodeIn(refs, p.inodes[i]) && (refs.Known? ==> i < |refs.layout.blocks|)
    ensures Has(ImageBytes(p, refs), InodePlace(p, i), BodyBytes(refs, p.inodes[i], i, p.mm))
  {
    StagesMeet(p, refs, ImageBytes(p, refs));
    InodeStarts(p, refs, ImageBytes(p, refs), i);
    ClosedInode(p, refs, i);
    HasOfPrefix(ImageBytes(p, refs), InodesTo(p, refs, i), InodePart(p, refs, i));
    BodyInInode(ImageBytes(p, refs), refs, p.inodes[i], i, p.mm, InodesLen(p, i), InodePlace(p, i));
  }

  lemma {:induction false} BodyInInode(img: Blob, refs: Refs, x: Inode, idx: nat, mm: Mtime, at: nat, place: nat)
    requires InodeIn(refs, x) && (refs.Known? ==> idx < |refs.layout.blocks|) && at <= place
    requires Has(img, at, InodeBytes(refs, x, idx, mm, at, place))
    ensures Has(img, place, BodyBytes(refs, x, idx, mm))
  {
    var lead, body := Zeros(place - at), BodyBytes(refs, x, idx, mm);
    var tail := Zeros(InodeEnd(place, BodySize(x, mm)) - (place + BodySize(x, mm)));
    HasParts(img, at, lead + body, tail, place + BodySize(x, mm));
    HasParts(img, at, lead, body, place);
  }

  lemma {:induction false} EntryStarts(p: Plan, refs: Refs, img: Blob, k: nat)
    requires Closed(p) && Covers(refs, |p.inodes|, |p.shared|) && k < |p.shared|
    requires XattrsTo(p, refs, |p.shared|) <= img
    ensures XattrsTo(p, refs, k) + EntryBytes(p.shared[k]) <= img
  {
    var next := k + 1;
    XattrsIn(p, refs, img, next, |p.shared|);
    XattrsBack(p, refs, img, next, k);
  }

  /** Entry `k` of the shared table stands at its place. */
  lemma {:induction false} EntryStands(p: Plan, refs: Refs, k: nat)
    requires Closed(p) && Covers(refs, |p.inodes|, |p.shared|) && k < |p.shared|
    ensures Has(ImageBytes(p, refs), XattrsLen(p, k), EntryBytes(p.shared[k]))
  {
    StagesMeet(p, refs, ImageBytes(p, refs));
    EntryStarts(p, refs, ImageBytes(p, refs), k);
    HasOfPrefix(ImageBytes(p, refs), XattrsTo(p, refs, k), EntryBytes(p.shared[k]));
  }

  lemma {:induction false} RunStarts(p: Plan, refs: Refs, i: nat)
    requires Closed(p) && Covers(refs, |p.inodes|, |p.shared|) && i < |p.inodes|
    ensures InodeIn(refs, p.inodes[i])
    ensures BlocksTo(p, refs, i) + BlockBytes(refs, p.inodes[i]) <= ImageBytes(p, refs)
  {
    ClosedInode(p, refs, i);
    var next := i + 1;
    BlocksIn(p, refs, ImageBytes(p, refs), next, |p.inodes|);
    BlocksBack(p, refs, ImageBytes(p, refs), next, i);
  }

  /** The data blocks of inode `i` stand at their place. */
  lemma {:induction false} BlocksStand(p: Plan, refs: Refs, i: nat)
    requires Closed(p) && Covers(refs, |p.inodes|, |p.shared|) && i < |p.inodes|
    ensures InodeIn(refs, p.inodes[i])
    ensures Has(ImageBytes(p, refs), BlocksLen(p, i), BlockBytes(refs, p.inodes[i]))
  {
    RunStarts(p, refs, i);
    HasOfPrefix(ImageBytes(p, refs), BlocksTo(p, refs, i), BlockBytes(refs, p.inodes[i]));
  }

  lemma {:induction false} FrontStands(p: Plan, refs: Refs)
    requires Closed(p) && Covers(refs, |p.inodes|, |p.shared|)
    ensures Has(ImageBytes(p, refs), 1024,
                SuperBytes(Nid(refs, 0), |p.inodes|, BlockCount(refs), p.mm, XattrBlock(refs)))
  {
    StagesMeet(p, refs, ImageBytes(p, refs));
    InodesIn(p, refs, ImageBytes(p, refs), 0, |p.inodes|);
    var super := SuperBytes(Nid(refs, 0), |p.inodes|, BlockCount(refs), p.mm, XattrBlock(refs));
    HasOfPrefix(ImageBytes(p, refs), CfsHeader(p.flags), super);
  }

  // --- Inode headers ----------------------------------------------------------

  /** What the header of an inode says. */
  datatype View = View(layout: nat, mode: nat, links: nat, size: nat, word: nat, ino: nat, uid: nat, gid: nat,
                       mtime: Mtime, area: nat, icount: nat, data: nat)

  /** The size of the xattr area by its count field. */
  function AreaSize(icount: nat): nat { if icount == 0 then 0 else 12 + 4 * (icount - 1) }

  function AreaEnd(v: View): nat { v.area + AreaSize(v.icount) }

  type FieldReader = (nat, nat) -> nat

  function Fields(img: Blob): FieldReader {
    (off: nat, width: nat) => if off + width <= |img| then Field(img, off, width) else 0
  }

  /** The header at `off`, in its compact or its extended form. */
  function ViewAt(f: FieldReader, off: nat, mm: Mtime): View {
    var format, icount := f(off, 2), f(At(off, 2), 2);
    if format % 2 == 0 then
      View(format, f(At(off, 4), 2), f(At(off, 6), 2), f(At(off, 8), 4), f(At(off, 16), 4), f(At(off, 20), 4),
           f(At(off, 24), 2), f(At(off, 26), 2), mm, At(off, 32), icount, At(off, 32) + AreaSize(icount))
    else
      View(format - 1, f(At(off, 4), 2), f(At(off, 44), 4), f(At(off, 8), 8), f(At(off, 16), 4), f(At(off, 20), 4),
           f(At(off, 24), 4), f(At(off, 28), 4), (f(At(off, 32), 8), f(At(off, 40), 4)), At(off, 64), icount,
           At(off, 64) + AreaSize(icount))
  }

  /** The inode of a node id. */
  function ReadInode(img: Blob, nid: nat, mm: Mtime): Option<View> {
    if 32 * nid + 32 > |img| then None
    else if Fields(img)(32 * nid, 2) % 2 == 1 && 32 * nid + 64 > |img| then None
    else Some(ViewAt(Fields(img), 32 * nid, mm))
  }

  /** The numbers of an inode fit the fields of its header. */
  predicate Sized(x: Inode, idx: nat, word: nat) {
    && x.perms < 0x1000 && x.uid < 0x1_0000_0000 && x.gid < 0x1_0000_0000
    && x.mtime.0 < 0x1_0000_0000_0000_0000 && x.mtime.1 < 0x1_0000_0000
    && SizeOf(x.kind) < 0x1_0000_0000_0000_0000 && LinksOf(x.kind) < 0x1_0000_0000
    && x.xattrs.Icount() <= 0xFFFF && idx < 0x1_0000_0000 && word < 0x1_0000_0000
  }

  function ViewOf(x: Inode, idx: nat, mm: Mtime, word: nat, off: nat): View {
    View(LayoutBits(x.kind), InodeMode(x), LinksOf(x.kind), SizeOf(x.kind), word, idx, x.uid, x.gid, x.mtime,
         off + HeaderSize(x, mm), x.xattrs.Icount(), off + HeaderSize(x, mm) + x.xattrs.ByteSize())
  }

  ghost predicate CompactSays(f: FieldReader, off: nat, x: Inode, idx: nat, word: nat) {
    && f(off, 2) == LayoutBits(x.kind) && f(At(off, 2), 2) == x.xattrs.Icount()
    && f(At(off, 4), 2) == InodeMode(x) && f(At(off, 6), 2) == LinksOf(x.kind)
    && f(At(off, 8), 4) == SizeOf(x.kind) && f(At(off, 16), 4) == word
    && f(At(off, 20), 4) == idx && f(At(off, 24), 2) == x.uid && f(At(off, 26), 2) == x.gid
  }

  ghost predicate FrontSays(f: FieldReader, off: nat, x: Inode, idx: nat, word: nat) {
    && f(off, 2) == 1 + LayoutBits(x.kind) && f(At(off, 2), 2) == x.xattrs.Icount()
    && f(At(off, 4), 2) == InodeMode(x) && f(At(off, 8), 8) == SizeOf(x.kind)
    && f(At(off, 16), 4) == word && f(At(off, 20), 4) == idx
    && f(At(off, 24), 4) == x.uid && f(At(off, 28), 4) == x.gid
  }

  ghost predicate BackSays(f: FieldReader, off: nat, x: Inode) {
    f(off, 8) == x.mtime.0 && f(At(off, 8), 4) == x.mtime.1 && f(At(off, 12), 4) == LinksOf(x.kind)
  }

  ghost predicate ExtendedSays(f: FieldReader, off: nat, x: Inode, idx: nat, word: nat) {
    FrontSays(f, off, x, idx, word) && BackSays(f, At(off, 32), x)
  }

  lemma {:induction false} CompactFields(img: Blob, off: nat, x: Inode, idx: nat, mm: Mtime, word: nat)
    requires Compact(x, mm) && Sized(x, idx, word) && Has(img, off, HeaderBytes(x, idx, mm, word))
    ensures At(off, 32) <= |img| && CompactSays(Fields(img), off, x, idx, word)
  {
    var format, icount := Le(LayoutBits(x.kind), 2), Le(x.xattrs.Icount(), 2);
    var mode, links := Le(InodeMode(x), 2), Le(LinksOf(x.kind), 2);
    var size, data, ino, uid, gid := Le(SizeOf(x.kind), 4), Le(word, 4), Le(idx, 4), Le(x.uid, 2), Le(x.gid, 2);
    var h2 := format + icount;
    var h3 := h2 + mode;
    var h4 := h3 + links;
    var h5 := h4 + size;
    var h6 := h5 + Zeros(4);
    var h7 := h6 + data;
    var h8 := h7 + ino;
    var h9 := h8 + uid;
    var h10 := h9 + gid;
    assert HeaderBytes(x, idx, mm, word) == h10 + Zeros(4);
    HasParts(img, off, h10, Zeros(4), At(off, 28));
    HasParts(img, off, h9, gid, At(off, 26));
    HasParts(img, off, h8, uid, At(off, 24));
    HasParts(img, off, h7, ino, At(off, 20));
    HasParts(img, off, h6, data, At(off, 16));
    HasParts(img, off, h5, Zeros(4), At(off, 12));
    HasParts(img, off, h4, size, At(off, 8));
    HasParts(img, off, h3, links, At(off, 6));
    HasParts(img, off, h2, mode, At(off, 4));
    HasParts(img, off, format, icount, At(off, 2));
    Pow256Values();
    HasFieldOf(img, off, LayoutBits(x.kind), 2);
    HasFieldOf(img, At(off, 2), x.xattrs.Icount(), 2);
    HasFieldOf(img, At(off, 4), InodeMode(x), 2);
    HasFieldOf(img, At(off, 6), LinksOf(x.kind), 2);
    HasFieldOf(img, At(off, 8), SizeOf(x.kind), 4);
    HasFieldOf(img, At(off, 16), word, 4);
    HasFieldOf(img, At(off, 20), idx, 4);
    HasFieldOf(img, At(off, 24), x.uid, 2);
    HasFieldOf(img, At(off, 26), x.gid, 2);
  }

  lemma {:induction false} ExtendedFields(img: Blob, off: nat, x: Inode, idx: nat, mm: Mtime, word: nat)
    requires !Compact(x, mm) && Sized(x, idx, word) && Has(img, off, HeaderBytes(x, idx, mm, word))
    ensures At(off, 64) <= |img| && ExtendedSays(Fields(img), off, x, idx, word)
  {
    HasParts(img, off, ExtendedFront(x, idx, word), ExtendedBack(x), At(off, 32));
    FrontFields(img, off, x, idx, word);
    BackFields(img, At(off, 32), x);
  }

  lemma {:induction false} FrontFields(img: Blob, off: nat, x: Inode, idx: nat, word: nat)
    requires Sized(x, idx, word) && Has(img, off, ExtendedFront(x, idx, word))
    ensures At(off, 32) <= |img| && FrontSays(Fields(img), off, x, idx, word)
  {
    var format, icount, mode := Le(1 + LayoutBits(x.kind), 2), Le(x.xattrs.Icount(), 2), Le(InodeMode(x), 2);
    var size, data, ino, uid, gid := Le(SizeOf(x.kind), 8), Le(word, 4), Le(idx, 4), Le(x.uid, 4), Le(x.gid, 4);
    var h2 := format + icount;
    var h3 := h2 + mode;
    var h4 := h3 + Zeros(2);
    var h5 := h4 + size;
    var h6 := h5 + data;
    var h7 := h6 + ino;
    var h8 := h7 + uid;
    assert ExtendedFront(x, idx, word) == h8 + gid;
    HasParts(img, off, h8, gid, At(off, 28));
    HasParts(img, off, h7, uid, At(off, 24));
    HasParts(img, off, h6, ino, At(off, 20));
    HasParts(img, off, h5, data, At(off, 16));
    HasParts(img, off, h4, size, At(off, 8));
    HasParts(img, off, h3, Zeros(2), At(off, 6));
    HasParts(img, off, h2, mode, At(off, 4));
    HasParts(img, off, format, icount, At(off, 2));
    Pow256Values();
    HasFieldOf(img, off, 1 + LayoutBits(x.kind), 2);
    HasFieldOf(img, At(off, 2), x.xattrs.Icount(), 2);
    HasFieldOf(img, At(off, 4), InodeMode(x), 2);
    HasFieldOf(img, At(off, 8), SizeOf(x.kind), 8);
    HasFieldOf(img, At(off, 16), word, 4);
    HasFieldOf(img, At(off, 20), idx, 4);
    HasFieldOf(img, At(off, 24), x.uid, 4);
    HasFieldOf(img, At(off, 28), x.gid, 4);
  }

  lemma {:induction false} BackFields(img: Blob, off: nat, x: Inode)
    requires Sized(x, 0, 0) && Has(img, off, ExtendedBack(x))
    ensures At(off, 32) <= |img| && BackSays(Fields(img), off, x)
  {
    var secs, nanos, links := Le(x.mtime.0, 8), Le(x.mtime.1, 4), Le(LinksOf(x.kind), 4);
    HasParts(img, off, secs + nanos + links, Zeros(16), At(off, 16));
    HasParts(img, off, secs + nanos, links, At(off, 12));
    HasParts(img, off, secs, nanos, At(off, 8));
    Pow256Values();
    HasFieldOf(img, off, x.mtime.0, 8);
    HasFieldOf(img, At(off, 8), x.mtime.1, 4);
    HasFieldOf(img, At(off, 12), LinksOf(x.kind), 4);
  }

  lemma {:induction false} HasFieldOf(img: Blob, off: nat, n: nat, width: nat)
    requires Has(img, off, Le(n, width)) && n < Pow256(width)
    ensures off + width <= |img| && Fields(img)(off, width) == n
  {
    HasField(img, off, n, width);
  }

  lemma {:induction false} CompactView(f: FieldReader, off: nat, x: Inode, idx: nat, mm: Mtime, word: nat)
    requires Compact(x, mm) && AreaSize(x.xattrs.Icount()) == x.xattrs.ByteSize()
    requires CompactSays(f, off, x, idx, word)
    ensures ViewAt(f, off, mm) == ViewOf(x, idx, mm, word, off)
  {
  }

  lemma {:induction false} ExtendedView(f: FieldReader, off: nat, x: Inode, idx: nat, mm: Mtime, word: nat)
    requires !Compact(x, mm) && AreaSize(x.xattrs.Icount()) == x.xattrs.ByteSize()
    requires ExtendedSays(f, off, x, idx, word)
    ensures ViewAt(f, off, mm) == ViewOf(x, idx, mm, word, off)
  {
  }

  /** The header at a node id reads back as the inode it was written for. */
  lemma {:induction false} HeaderReads(img: Blob, nid: nat, x: Inode, idx: nat, mm: Mtime, word: nat)
    requires Sized(x, idx, word) && Has(img, 32 * nid, HeaderBytes(x, idx, mm, word))
    ensures ReadInode(img, nid, mm) == Some(ViewOf(x, idx, mm, word, 32 * nid))
    ensures AreaSize(x.xattrs.Icount()) == x.xattrs.ByteSize()
  {
    IcountRecoversSize(x.xattrs);
    if Compact(x, mm) {
      CompactFields(img, 32 * nid, x, idx, mm, word);
      CompactView(Fields(img), 32 * nid, x, idx, mm, word);
    } else {
      ExtendedFields(img, 32 * nid, x, idx, mm, word);
      ExtendedView(Fields(img), 32 * nid, x, idx, mm, word);
    }
  }

  // --- Xattrs -----------------------------------------------------------------

  /** The xattr entry at an offset. */
  function ReadEntry(img: Blob, off: nat): Option<LocalXattr> {
    if At(off, 4) > |img| then None else
    var nameLen, valueLen := img[off] as nat, Field(img, At(off, 2), 2);
    if At(At(off, 4), nameLen) + valueLen > |img| then None else
    Some(LocalXattr(img[At(off, 1)] as nat, Slice(img, At(off, 4), nameLen),
                    Slice(img, At(At(off, 4), nameLen), valueLen)))
  }

  lemma {:induction false} EntryReads(img: Blob, off: nat, x: LocalXattr)
    requires |x.suffix| <= 255 && |x.value| <= 65535 && x.prefix < 7 && Has(img, off, EntryBytes(x))
    ensures ReadEntry(img, off) == Some(x)
  {
    var a, b, c := Le(|x.suffix|, 1), Le(x.prefix, 1), Le(|x.value|, 2);
    HasParts(img, off, EntryBody(x), Zeros(x.EntrySize() - (4 + |x.suffix| + |x.value|)),
             At(At(off, 4), |x.suffix|) + |x.value|);
    HasParts(img, off, a + b + c + x.suffix, x.value, At(At(off, 4), |x.suffix|));
    HasParts(img, off, a + b + c, x.suffix, At(off, 4));
    HasParts(img, off, a + b, c, At(off, 2));
    HasParts(img, off, a, b, At(off, 1));
    Pow256Values();
    HasField(img, At(off, 2), |x.value|, 2);
    HasByte(img, off, |x.suffix|);
    HasByte(img, At(off, 1), x.prefix);
    HasSlice(img, At(off, 4), x.suffix);
    HasSlice(img, At(At(off, 4), |x.suffix|), x.value);
  }

  lemma {:induction false} HasByte(img: Blob, off: nat, n: nat)
    requires n < 256 && Has(img, off, Le(n, 1))
    ensures off < |img| && img[off] == n
  {
    assert Le(n, 1)[0] == n;
  }

  type EntryReader = nat -> Option<LocalXattr>

  function Entries(img: Blob): EntryReader { (off: nat) => ReadEntry(img, off) }

  /** The entries from `off` to `end`, one after the other. */
  function ReadLocals(read: EntryReader, off: nat, end: nat): seq<LocalXattr>
    decreases end - off
  {
    if off >= end then [] else
    match read(off)
    case None => []
    case Some(x) => [x] + ReadLocals(read, off + x.EntrySize(), end)
  }

  ghost predicate Writable(xs: seq<LocalXattr>) {
    forall x :: x in xs ==> |x.suffix| <= 255 && |x.value| <= 65535 && x.prefix < 7
  }

  /** `pos` are the places of the entries of a run, and its end, and the reader finds the entries there. */
  ghost predicate FindsAll(read: EntryReader, pos: seq<nat>, xs: seq<LocalXattr>) {
    && |pos| == |xs| + 1
    && forall i {:trigger xs[i]} :: 0 <= i < |xs| ==>
         read(pos[i]) == Some(xs[i]) && pos[i + 1] == pos[i] + xs[i].EntrySize()
  }

  ghost function RunPlaces(off: nat, xs: seq<LocalXattr>): (pos: seq<nat>)
    ensures |pos| == |xs| + 1 && pos[0] == off && pos[|xs|] == off + Sizes(xs)
    ensures forall i {:trigger xs[i]} :: 0 <= i < |xs| ==> pos[i + 1] == pos[i] + xs[i].EntrySize()
  {
    if xs == [] then [off]
    else RunPlaces(off, xs[..|xs| - 1]) + [off + Sizes(xs)]
  }

  /** Entry `i` of a run of entries stands after the entries before it. */
  lemma {:induction false} EntryInRun(img: Blob, off: nat, xs: seq<LocalXattr>, i: nat)
    requires i < |xs| && Has(img, off, EntriesBytes(xs))
    ensures Has(img, RunPlaces(off, xs)[i], EntryBytes(xs[i]))
  {
    var n := |xs| - 1;
    HasParts(img, off, EntriesBytes(xs[..n]), EntryBytes(xs[n]), off + Sizes(xs[..n]));
    if i < n {
      EntryInRun(img, off, xs[..n], i);
    }
  }

  lemma {:induction false} RunIsFound(img: Blob, off: nat, xs: seq<LocalXattr>)
    requires Writable(xs) && Has(img, off, EntriesBytes(xs))
    ensures FindsAll(Entries(img), RunPlaces(off, xs), xs)
  {
    var pos := RunPlaces(off, xs);
    forall i | 0 <= i < |xs|
      ensures Entries(img)(pos[i]) == Some(xs[i])
    {
      assert xs[i] in xs;
      EntryInRun(img, off, xs, i);
      EntryReads(img, pos[i], xs[i]);
    }
  }

  lemma {:induction false} LocalsStep(read: EntryReader, at: nat, end: nat, x: LocalXattr, rest: seq<LocalXattr>)
    requires at + x.EntrySize() <= end && read(at) == Some(x)
    requires ReadLocals(read, at + x.EntrySize(), end) == rest
    ensures ReadLocals(read, at, end) == [x] + rest
  {
  }

  lemma {:induction false} LocalsFrom(read: EntryReader, pos: seq<nat>, xs: seq<LocalXattr>, i: nat)
    requires i <= |xs| && FindsAll(read, pos, xs)
    ensures pos[i] <= pos[|xs|]
    ensures ReadLocals(read, pos[i], pos[|xs|]) == xs[i..]
    decreases |xs| - i
  {
    if i < |xs| {
      LocalsFrom(read, pos, xs, i + 1);
      LocalsStep(read, pos[i], pos[|xs|], xs[i], xs[i + 1..]);
      assert xs[i..] == [xs[i]] + xs[i + 1..];
    } else {
      assert xs[i..] == [];
    }
  }

  lemma {:induction false} FoundIsRead(read: EntryReader, pos: seq<nat>, xs: seq<LocalXattr>)
    requires FindsAll(read, pos, xs)
    ensures ReadLocals(read, pos[0], pos[|xs|]) == xs
  {
    LocalsFrom(read, pos, xs, 0);
    assert xs[0..] == xs;
  }

  lemma {:induction false} FoundBetween(read: EntryReader, pos: seq<nat>, xs: seq<LocalXattr>, off: nat, end: nat)
    requires FindsAll(read, pos, xs) && pos[0] == off && pos[|xs|] == end
    ensures ReadLocals(read, off, end) == xs
  {
    FoundIsRead(read, pos, xs);
  }

  /** A run of entries reads back. */
  lemma {:induction false} LocalsRead(img: Blob, off: nat, end: nat, xs: seq<LocalXattr>)
    requires Writable(xs) && Has(img, off, EntriesBytes(xs)) && end == off + Sizes(xs)
    ensures ReadLocals(Entries(img), off, end) == xs
  {
    RunIsFound(img, off, xs);
    FoundBetween(Entries(img), RunPlaces(off, xs), xs, off, end);
  }

  /** The table entries that a list of references names. */
  function Pick(table: seq<LocalXattr>, shared: seq<nat>): (r: seq<LocalXattr>)
    requires forall i :: 0 <= i < |shared| ==> shared[i] < |table|
    ensures |r| == |shared| && forall i :: 0 <= i < |shared| ==> r[i] == table[shared[i]]
  {
    if shared == [] then [] else Pick(table, shared[..|shared| - 1]) + [table[shared[|shared| - 1]]]
  }

  /** The place of a reference: 4-byte units from the table block `base` on. */
  function TablePos(base: nat, ref: nat): nat { 4096 * base + 4 * ref }

  function RefPos(off: nat, i: nat): nat { off + 4 * i }

  /** The 4-byte reference fields from `off` on. */
  function RefFields(img: Blob, off: nat): nat -> nat {
    (i: nat) => if RefPos(off, i) + 4 <= |img| then Field(img, RefPos(off, i), 4) else |img|
  }

  /** Where the entries of an area with `n` references start. */
  function EntriesPos(area: nat, n: nat): nat { area + 12 + 4 * n }

  /** The entries that references `k` to `n` name, then the entries from `off` to `end`. */
  function ReadArea(read: EntryReader, fields: nat -> nat, k: nat, n: nat, base: nat, off: nat,
                    end: nat): Option<seq<LocalXattr>>
    decreases n - k
  {
    if k >= n then Some(ReadLocals(read, off, end)) else
    match (read(TablePos(base, fields(k))), ReadArea(read, fields, k + 1, n, base, off, end))
    case (Some(x), Some(xs)) => Some([x] + xs)
    case _ => None
  }

  /** The attributes of an inode: the shared ones it references, then its own. */
  function ReadXattrs(img: Blob, v: View, base: nat): Option<seq<LocalXattr>> {
    if v.icount == 0 then Some([]) else
    if At(v.area, 12) > |img| then None else
    ReadArea(Entries(img), RefFields(img, At(v.area, 12)), 0, img[At(v.area, 4)] as nat, base,
             EntriesPos(v.area, img[At(v.area, 4)] as nat), AreaEnd(v))
  }

  /** Each reference names the place of its table entry. */
  ghost predicate NamesAll(read: EntryReader, fields: nat -> nat, base: nat, shared: seq<nat>, table: seq<LocalXattr>) {
    forall i {:trigger shared[i]} :: 0 <= i < |shared| ==>
      shared[i] < |table| && read(TablePos(base, fields(i))) == Some(table[shared[i]])
  }

  lemma {:induction false} AreaFrom(read: EntryReader, fields: nat -> nat, base: nat, shared: seq<nat>,
                                    table: seq<LocalXattr>, k: nat, off: nat, end: nat, local: seq<LocalXattr>)
    requires k <= |shared| && NamesAll(read, fields, base, shared, table) && ReadLocals(read, off, end) == local
    ensures forall i {:trigger shared[i]} :: 0 <= i < |shared| ==> shared[i] < |table|
    ensures ReadArea(read, fields, k, |shared|, base, off, end) == Some(Pick(table, shared)[k..] + local)
    decreases |shared| - k
  {
    var all := Pick(table, shared);
    if k < |shared| {
      AreaFrom(read, fields, base, shared, table, k + 1, off, end, local);
      assert all[k..] + local == [table[shared[k]]] + (all[k + 1..] + local);
    } else {
      assert all[k..] + local == local;
    }
  }

  /** Reference `i` of a run of references stands at its place. */
  lemma {:induction false} RefInRun(img: Blob, off: nat, refs: Refs, shared: seq<nat>, i: nat)
    requires RefsIn(refs, shared) && i < |shared| && Has(img, off, SharedBytes(refs, shared))
    ensures Has(img, RefPos(off, i), Le(XattrRef(refs, shared[i]), 4))
  {
    var n := |shared| - 1;
    HasParts(img, off, SharedBytes(refs, shared[..n]), Le(XattrRef(refs, shared[n]), 4), RefPos(off, n));
    if i < n {
      RefInRun(img, off, refs, shared[..n], i);
    }
  }

  lemma {:induction false} RefReads(img: Blob, off: nat, refs: Refs, shared: seq<nat>, i: nat)
    requires RefsIn(refs, shared) && i < |shared| && Has(img, off, SharedBytes(refs, shared))
    requires XattrRef(refs, shared[i]) < 0x1_0000_0000
    ensures RefFields(img, off)(i) == XattrRef(refs, shared[i])
  {
    RefInRun(img, off, refs, shared, i);
    Pow256Values();
    HasField(img, RefPos(off, i), XattrRef(refs, shared[i]), 4);
  }

  lemma {:induction false} AreaParts(img: Blob, at: nat, refs: Refs, xs: XattrSet)
    requires RefsIn(refs, xs.shared) && xs.filter != {} && |xs.shared| < 256
    requires Has(img, at, XattrBytes(refs, xs))
    ensures At(at, 12) <= |img| && img[At(at, 4)] == |xs.shared|
    ensures Has(img, At(at, 12), SharedBytes(refs, xs.shared))
    ensures Has(img, EntriesPos(at, |xs.shared|), EntriesBytes(xs.local))
  {
    var head, shared := XattrHead(xs), SharedBytes(refs, xs.shared);
    HasParts(img, at, head + shared, EntriesBytes(xs.local), EntriesPos(at, |xs.shared|));
    HasParts(img, at, head, shared, At(at, 12));
    HasParts(img, at, FilterBytes(xs.filter) + Le(|xs.shared|, 1), Zeros(7), At(at, 5));
    HasParts(img, at, FilterBytes(xs.filter), Le(|xs.shared|, 1), At(at, 4));
    HasByte(img, At(at, 4), |xs.shared|);
  }

  /** Every reference of the list fits its field and names the place of its table entry. */
  ghost predicate RefsGood(img: Blob, refs: Refs, base: nat, shared: seq<nat>, table: seq<LocalXattr>)
    requires RefsIn(refs, shared)
  {
    forall i {:trigger shared[i]} :: 0 <= i < |shared| ==>
      && shared[i] < |table| && XattrRef(refs, shared[i]) < 0x1_0000_0000
      && Entries(img)(TablePos(base, XattrRef(refs, shared[i]))) == Some(table[shared[i]])
  }

  lemma {:induction false} RefsName(img: Blob, off: nat, base: nat, refs: Refs, shared: seq<nat>,
                                    table: seq<LocalXattr>)
    requires RefsIn(refs, shared) && Has(img, off, SharedBytes(refs, shared))
            && RefsGood(img, refs, base, shared, table)
    ensures NamesAll(Entries(img), RefFields(img, off), base, shared, table)
  {
    forall i | 0 <= i < |shared|
      ensures shared[i] < |table|
      ensures Entries(img)(TablePos(base, RefFields(img, off)(i))) == Some(table[shared[i]])
    {
      RefReads(img, off, refs, shared, i);
    }
  }

  lemma {:induction false} AreaIs(img: Blob, v: View, base: nat, n: nat)
    requires v.icount > 0 && At(v.area, 12) <= |img| && img[At(v.area, 4)] == n
    ensures ReadXattrs(img, v, base) == ReadArea(Entries(img), RefFields(img, At(v.area, 12)), 0, n, base,
                                                 EntriesPos(v.area, n), AreaEnd(v))
  {
  }

  lemma {:induction false} FullAreaReads(img: Blob, first: nat, off: nat, end: nat, base: nat,
                                         refs: Refs, xs: XattrSet, table: seq<LocalXattr>)
    requires RefsIn(refs, xs.shared) && Writable(xs.local)
    requires Has(img, first, SharedBytes(refs, xs.shared)) && RefsGood(img, refs, base, xs.shared, table)
    requires Has(img, off, EntriesBytes(xs.local)) && end == off + Sizes(xs.local)
    ensures ReadArea(Entries(img), RefFields(img, first), 0, |xs.shared|, base, off, end)
            == Some(Pick(table, xs.shared) + xs.local)
  {
    RefsName(img, first, base, refs, xs.shared, table);
    LocalsRead(img, off, end, xs.local);
    AreaFrom(Entries(img), RefFields(img, first), base, xs.shared, table, 0, off, end, xs.local);
    assert Pick(table, xs.shared)[0..] == Pick(table, xs.shared);
  }

  lemma {:induction false} OpenAreaReads(img: Blob, v: View, base: nat, refs: Refs, xs: XattrSet,
                                         table: seq<LocalXattr>)
    requires RefsIn(refs, xs.shared) && Writable(xs.local)
    requires v.icount > 0 && AreaSize(v.icount) == 12 + 4 * |xs.shared| + Sizes(xs.local)
    requires At(v.area, 12) <= |img| && img[At(v.area, 4)] == |xs.shared|
    requires Has(img, At(v.area, 12), SharedBytes(refs, xs.shared)) && RefsGood(img, refs, base, xs.shared, table)
    requires Has(img, EntriesPos(v.area, |xs.shared|), EntriesBytes(xs.local))
    ensures ReadXattrs(img, v, base) == Some(Pick(table, xs.shared) + xs.local)
  {
    AreaIs(img, v, base, |xs.shared|);
    FullAreaReads(img, At(v.area, 12), EntriesPos(v.area, |xs.shared|), AreaEnd(v), base, refs, xs, table);
  }

  /** The xattr area reads back as the table entries it references and its own entries. */
  lemma {:induction false} AreaReads(img: Blob, v: View, base: nat, refs: Refs, xs: XattrSet, table: seq<LocalXattr>)
    requires RefsIn(refs, xs.shared) && |xs.shared| <= 128 && Writable(xs.local)
    requires xs.filter == {} ==> xs.local == [] && xs.shared == []
    requires v.icount == xs.Icount() && AreaSize(v.icount) == xs.ByteSize()
    requires Has(img, v.area, XattrBytes(refs, xs)) && RefsGood(img, refs, base, xs.shared, table)
    ensures ReadXattrs(img, v, base) == Some(Pick(table, xs.shared) + xs.local)
  {
    if xs.filter != {} {
      AreaParts(img, v.area, refs, xs);
      OpenAreaReads(img, v, base, refs, xs, table);
    } else {
      assert Pick(table, xs.shared) + xs.local == [];
    }
  }

  // --- Directory blocks -------------------------------------------------------

  datatype Dirent = Dirent(name: Blob, nid: nat, fileType: nat)

  /** The first zero byte from `at` on, or `end`: the end of a name that no next name bounds. */
  function NulEnd(img: Blob, at: nat, end: nat): (r: nat)
    requires at <= end <= |img|
    ensures at <= r <= end
    decreases end - at
  {
    if at == end || img[at] == 0 then at else NulEnd(img, At(at, 1), end)
  }

  /** Where the head of entry `i` of the block at `off` stands. */
  function HeadPos(off: nat, i: nat): nat { off + 12 * i }

  /** Where the names of a block with `n` entries start. */
  function NamesPos(off: nat, n: nat): nat { off + 12 * n }

  /** The end of name `i`: the start of the next name, or the first zero byte after the last name's start. */
  function NameStop(img: Blob, f: FieldReader, off: nat, max: nat, n: nat, i: nat, from: nat): nat
    requires At(off, max) <= |img|
  {
    if i + 1 < n then f(At(HeadPos(off, i + 1), 8), 2)
    else if from > max then 0
    else NulEnd(img, At(off, from), At(off, max)) - off
  }

  /** Entry `i` of the `n` entries of the directory block of `max` bytes at `off`. */
  function ReadDirent(img: Blob, f: FieldReader, off: nat, max: nat, n: nat, i: nat): Option<Dirent>
    requires At(off, max) <= |img|
  {
    var from := f(At(HeadPos(off, i), 8), 2);
    var to := NameStop(img, f, off, max, n, i, from);
    if !(from <= to <= max) then None
    else Some(Dirent(Slice(img, At(off, from), to - from), f(HeadPos(off, i), 8), f(At(HeadPos(off, i), 10), 1)))
  }

  function Gather(ent: nat -> Option<Dirent>, k: nat): Option<seq<Dirent>> {
    if k == 0 then Some([]) else
    match (Gather(ent, k - 1), ent(k - 1))
    case (Some(ds), Some(d)) => Some(ds + [d])
    case _ => None
  }

  function Dirents(img: Blob, f: FieldReader, off: nat, max: nat, n: nat): nat -> Option<Dirent>
    requires At(off, max) <= |img|
  {
    (i: nat) => ReadDirent(img, f, off, max, n, i)
  }

  /** The directory block of `max` bytes at `off`. The first name offset tells the count. */
  function ReadDirBlock(img: Blob, off: nat, max: nat): Option<seq<Dirent>> {
    if At(off, max) > |img| then None else
    var n := Quot(Fields(img)(At(HeadPos(off, 0), 8), 2), 12);
    Gather(Dirents(img, Fields(img), off, max, n), n)
  }

  lemma {:induction false} GatherAll(ent: nat -> Option<Dirent>, ds: seq<Dirent>, k: nat)
    requires k <= |ds| && forall i {:trigger ds[i]} :: 0 <= i < k ==> ent(i) == Some(ds[i])
    ensures Gather(ent, k) == Some(ds[..k])
  {
    if k > 0 {
      GatherAll(ent, ds, k - 1);
      assert ds[..k] == ds[..k - 1] + [ds[k - 1]];
    }
  }

  lemma {:induction false} GatherSnoc(ent: nat -> Option<Dirent>, k: nat, ds: seq<Dirent>, d: Dirent)
    requires Gather(ent, k) == Some(ds)
    ensures Gather(ent, k + 1) == Some(ds + [d]) <==> ent(k) == Some(d)
  {
    if ent(k).Some? && ent(k).value != d {
      assert (ds + [ent(k).value])[|ds|] != (ds + [d])[|ds|];
    }
  }

  /** The last entry decides: the rest of the block reads back, and so does all of it if the last does. */
  lemma {:induction false} GatherLast(ent: nat -> Option<Dirent>, ds: seq<Dirent>)
    requires ds != [] && forall i {:trigger ds[i]} :: 0 <= i < |ds| - 1 ==> ent(i) == Some(ds[i])
    ensures Gather(ent, |ds|) == Some(ds) <==> ent(|ds| - 1) == Some(ds[|ds| - 1])
  {
    var n := |ds| - 1;
    assert ds == ds[..n] + [ds[n]];
    GatherAll(ent, ds, n);
    GatherSnoc(ent, n, ds[..n], ds[n]);
  }

  lemma {:induction false} NulEndAt(img: Blob, at: nat, end: nat, name: Blob)
    requires Has(img, at, name) && at + |name| <= end <= |img|
    requires forall k :: at + |name| <= k < end ==> img[k] == 0
    ensures NulEnd(img, at, end) == at + |name| <==> 0 !in name
    decreases |name|
  {
    if name == [] {
      assert at == end || img[at] == 0;
    } else {
      assert img[At(at, 0)] == name[0];
      if name[0] != 0 {
        HasParts(img, at, [name[0]], name[1..], At(at, 1));
        NulEndAt(img, At(at, 1), end, name[1..]);
        assert name == [name[0]] + name[1..];
      }
    }
  }

  function NameOff(es: seq<DirEnt>, i: nat): nat
    requires i <= |es|
  {
    12 * |es| + |NameBytes(es[..i])|
  }

  lemma {:induction false} NameOffStep(es: seq<DirEnt>, i: nat)
    requires i < |es|
    ensures NameOff(es, i + 1) == NameOff(es, i) + |es[i].name|
  {
    assert es[..i + 1][..i] == es[..i];
  }

  lemma {:induction false} NameOffEnds(es: seq<DirEnt>, i: nat)
    requires i <= |es|
    ensures NameOff(es, i) <= NameOff(es, |es|)
    ensures NameOff(es, |es|) == Span(es)
    decreases |es| - i
  {
    if i < |es| {
      NameOffStep(es, i);
      NameOffEnds(es, i + 1);
    } else {
      assert es[..i] == es;
      NameBytesLength(es);
    }
  }

  lemma {:induction false} HeadInRun(img: Blob, off: nat, refs: Refs, es: seq<DirEnt>, k: nat, i: nat)
    requires EntsIn(refs, es) && i < k <= |es| && Has(img, off, HeadsTo(refs, es, k))
    ensures Has(img, HeadPos(off, i), HeadBytes(refs, es[i], NameOff(es, i)))
  {
    HasParts(img, off, HeadsTo(refs, es, k - 1), HeadBytes(refs, es[k - 1], NameOff(es, k - 1)), HeadPos(off, k - 1));
    if i < k - 1 {
      HeadInRun(img, off, refs, es, k - 1, i);
    }
  }

  lemma {:induction false} NameInRun(img: Blob, off: nat, es: seq<DirEnt>, i: nat, at: nat)
    requires i < |es| && Has(img, off, NameBytes(es)) && at == off + |NameBytes(es[..i])|
    ensures Has(img, at, es[i].name)
  {
    var n := |es| - 1;
    if i < n {
      HasParts(img, off, NameBytes(es[..n]), es[n].name, off + |NameBytes(es[..n])|);
      assert es[..n][..i] == es[..i];
      NameInRun(img, off, es[..n], i, at);
    } else {
      HasParts(img, off, NameBytes(es[..n]), es[n].name, at);
    }
  }

  lemma {:induction false} HeadSays(img: Blob, at: nat, refs: Refs, e: DirEnt, nameOff: nat)
    requires refs.Known? ==> e.inode < |refs.layout.inodes|
    requires Has(img, at, HeadBytes(refs, e, nameOff))
    requires Nid(refs, e.inode) < 0x1_0000_0000_0000_0000 && nameOff < 0x1_0000 && e.fileType < 256
    ensures Fields(img)(at, 8) == Nid(refs, e.inode) && Fields(img)(At(at, 8), 2) == nameOff
    ensures Fields(img)(At(at, 10), 1) == e.fileType
  {
    var nid, name, ty := Le(Nid(refs, e.inode), 8), Le(nameOff, 2), Le(e.fileType, 1);
    HasParts(img, at, nid + name + ty, [0], At(at, 11));
    HasParts(img, at, nid + name, ty, At(at, 10));
    HasParts(img, at, nid, name, At(at, 8));
    Pow256Values();
    HasFieldOf(img, at, Nid(refs, e.inode), 8);
    HasFieldOf(img, At(at, 8), nameOff, 2);
    HasFieldOf(img, At(at, 10), e.fileType, 1);
  }

  /** The numbers of a directory block fit its fields. */
  ghost predicate EntsFit(refs: Refs, es: seq<DirEnt>)
    requires EntsIn(refs, es)
  {
    forall i {:trigger es[i]} :: 0 <= i < |es| ==>
      Nid(refs, es[i].inode) < 0x1_0000_0000_0000_0000 && es[i].fileType < 256
  }

  function DirentOf(refs: Refs, e: DirEnt): Dirent
    requires refs.Known? ==> e.inode < |refs.layout.inodes|
  {
    Dirent(e.name, Nid(refs, e.inode), e.fileType)
  }

  function DirentsOf(refs: Refs, es: seq<DirEnt>): (r: seq<Dirent>)
    requires EntsIn(refs, es)
    ensures |r| == |es| && forall i {:trigger r[i]} :: 0 <= i < |es| ==> r[i] == DirentOf(refs, es[i])
  {
    seq(|es|, i requires 0 <= i < |es| => DirentOf(refs, es[i]))
  }

  /** The block of `es` stands at `off`, with zeros up to `max`. */
  ghost predicate BlockStands(img: Blob, off: nat, max: nat, refs: Refs, es: seq<DirEnt>)
    requires EntsIn(refs, es)
  {
    && es != [] && Span(es) <= max <= 4096 && At(off, max) <= |img|
    && Has(img, off, DirBlockBytes(refs, es))
    && forall k {:trigger img[k]} :: off + Span(es) <= k < At(off, max) ==> img[k] == 0
  }

  lemma {:induction false} HeadOfBlock(img: Blob, off: nat, max: nat, refs: Refs, es: seq<DirEnt>, i: nat)
    requires EntsIn(refs, es) && EntsFit(refs, es) && BlockStands(img, off, max, refs, es) && i < |es|
    ensures Fields(img)(HeadPos(off, i), 8) == Nid(refs, es[i].inode)
    ensures Fields(img)(At(HeadPos(off, i), 8), 2) == NameOff(es, i)
    ensures Fields(img)(At(HeadPos(off, i), 10), 1) == es[i].fileType
  {
    HeadAt(img, off, refs, es, i);
    NameOffEnds(es, i);
    HeadSays(img, HeadPos(off, i), refs, es[i], NameOff(es, i));
  }

  lemma {:induction false} HeadAt(img: Blob, off: nat, refs: Refs, es: seq<DirEnt>, i: nat)
    requires EntsIn(refs, es) && Has(img, off, DirBlockBytes(refs, es)) && i < |es|
    ensures Has(img, HeadPos(off, i), HeadBytes(refs, es[i], NameOff(es, i)))
  {
    HasParts(img, off, HeadsTo(refs, es, |es|), NameBytes(es), NamesPos(off, |es|));
    HeadInRun(img, off, refs, es, |es|, i);
  }

  lemma {:induction false} NameFits(es: seq<DirEnt>, i: nat)
    requires i < |es|
    ensures NameOff(es, i) + |es[i].name| <= Span(es)
    ensures i == |es| - 1 ==> NameOff(es, i) + |es[i].name| == Span(es)
  {
    NameOffStep(es, i);
    NameOffEnds(es, i + 1);
  }

  lemma {:induction false} NamesOfBlock(img: Blob, off: nat, refs: Refs, es: seq<DirEnt>)
    requires EntsIn(refs, es) && Has(img, off, DirBlockBytes(refs, es))
    ensures Has(img, NamesPos(off, |es|), NameBytes(es))
  {
    HasParts(img, off, HeadsTo(refs, es, |es|), NameBytes(es), NamesPos(off, |es|));
  }

  lemma {:induction false} NameOfBlock(img: Blob, off: nat, refs: Refs, es: seq<DirEnt>, i: nat, at: nat)
    requires EntsIn(refs, es) && Has(img, off, DirBlockBytes(refs, es)) && i < |es| && at == off + NameOff(es, i)
    ensures Has(img, at, es[i].name)
  {
    NamesOfBlock(img, off, refs, es);
    NameInRun(img, NamesPos(off, |es|), es, i, at);
  }

  lemma {:induction false} DirentIs(img: Blob, f: FieldReader, off: nat, max: nat, n: nat, i: nat, d: Dirent,
                                    from: nat, to: nat)
    requires At(off, max) <= |img|
    requires d.nid == f(HeadPos(off, i), 8) && f(At(HeadPos(off, i), 8), 2) == from
            && d.fileType == f(At(HeadPos(off, i), 10), 1)
    requires to == NameStop(img, f, off, max, n, i, from)
    requires from + |d.name| <= max && Has(img, At(off, from), d.name)
    ensures ReadDirent(img, f, off, max, n, i) == Some(d) <==> to == from + |d.name|
  {
    HasSlice(img, At(off, from), d.name);
    if from <= to <= max {
      assert |Slice(img, At(off, from), to - from)| == to - from;
    }
  }

  lemma {:induction false} InnerStop(img: Blob, off: nat, max: nat, refs: Refs, es: seq<DirEnt>, i: nat, from: nat,
                                     to: nat)
    requires EntsIn(refs, es) && EntsFit(refs, es) && BlockStands(img, off, max, refs, es)
    requires i + 1 < |es| && to == NameOff(es, i + 1)
    ensures to == NameStop(img, Fields(img), off, max, |es|, i, from)
  {
    HeadOfBlock(img, off, max, refs, es, i + 1);
  }

  /** An entry before the last one reads back. */
  lemma {:induction false} InnerDirent(img: Blob, off: nat, max: nat, refs: Refs, es: seq<DirEnt>, i: nat)
    requires EntsIn(refs, es) && EntsFit(refs, es) && BlockStands(img, off, max, refs, es) && i + 1 < |es|
    ensures ReadDirent(img, Fields(img), off, max, |es|, i) == Some(DirentOf(refs, es[i]))
  {
    var from, to := NameOff(es, i), NameOff(es, i + 1);
    HeadOfBlock(img, off, max, refs, es, i);
    InnerStop(img, off, max, refs, es, i, from, to);
    NameOfBlock(img, off, refs, es, i, At(off, from));
    NameFits(es, i);
    NameOffStep(es, i);
    DirentIs(img, Fields(img), off, max, |es|, i, DirentOf(refs, es[i]), from, to);
  }

  lemma {:induction false} LastNameStop(img: Blob, f: FieldReader, off: nat, max: nat, n: nat, i: nat, from: nat,
                                        to: nat)
    requires At(off, max) <= |img| && i + 1 == n && from <= max && to == NulEnd(img, At(off, from), At(off, max)) - off
    ensures to == NameStop(img, f, off, max, n, i, from)
  {
  }

  lemma {:induction false} LastStop(img: Blob, off: nat, max: nat, from: nat, name: Blob)
    requires Has(img, At(off, from), name) && from + |name| <= max && At(off, max) <= |img|
    requires forall k {:trigger img[k]} :: off + from + |name| <= k < At(off, max) ==> img[k] == 0
    ensures NulEnd(img, At(off, from), At(off, max)) - off == from + |name| <==> 0 !in name
  {
    NulEndAt(img, At(off, from), At(off, max), name);
  }

  /** The last entry reads back exactly if its name has no zero byte. */
  lemma {:induction false} LastDirent(img: Blob, off: nat, max: nat, refs: Refs, es: seq<DirEnt>, i: nat)
    requires EntsIn(refs, es) && EntsFit(refs, es) && BlockStands(img, off, max, refs, es) && i + 1 == |es|
    ensures ReadDirent(img, Fields(img), off, max, |es|, i) == Some(DirentOf(refs, es[i])) <==> 0 !in es[i].name
  {
    var from := NameOff(es, i);
    HeadOfBlock(img, off, max, refs, es, i);
    NameOfBlock(img, off, refs, es, i, At(off, from));
    NameFits(es, i);
    LastStop(img, off, max, from, es[i].name);
    var to := NulEnd(img, At(off, from), At(off, max)) - off;
    LastNameStop(img, Fields(img), off, max, |es|, i, from, to);
    DirentIs(img, Fields(img), off, max, |es|, i, DirentOf(refs, es[i]), from, to);
  }

  lemma {:induction false} FirstOff(es: seq<DirEnt>)
    ensures NameOff(es, 0) == 12 * |es|
  {
    assert es[..0] == [];
  }

  lemma {:induction false} FirstHead(img: Blob, off: nat, max: nat, refs: Refs, es: seq<DirEnt>)
    requires EntsIn(refs, es) && EntsFit(refs, es) && BlockStands(img, off, max, refs, es)
    ensures Quot(Fields(img)(At(HeadPos(off, 0), 8), 2), 12) == |es|
  {
    HeadOfBlock(img, off, max, refs, es, 0);
    FirstOff(es);
    QuotOf12(|es|, NameOff(es, 0));
  }

  /**
   A directory block reads back as its entries exactly if its last name has no
   zero byte: the reader finds the end of that name by the first zero byte.
   */
  lemma {:induction false} DirBlockReads(img: Blob, off: nat, max: nat, refs: Refs, es: seq<DirEnt>)
    requires EntsIn(refs, es) && EntsFit(refs, es) && BlockStands(img, off, max, refs, es)
    ensures ReadDirBlock(img, off, max) == Some(DirentsOf(refs, es)) <==> 0 !in es[|es| - 1].name
  {
    var n := |es|;
    FirstHead(img, off, max, refs, es);
    var ent, ds := Dirents(img, Fields(img), off, max, n), DirentsOf(refs, es);
    forall i | 0 <= i < n - 1
      ensures ent(i) == Some(ds[i])
    {
      InnerDirent(img, off, max, refs, es, i);
    }
    LastDirent(img, off, max, refs, es, n - 1);
    GatherLast(ent, ds);
  }

  /** The same node ids and types, whatever the names. */
  predicate SameTargets(a: seq<Dirent>, b: seq<Dirent>) {
    |a| == |b| && forall i {:trigger a[i]} :: 0 <= i < |a| ==> a[i].nid == b[i].nid && a[i].fileType == b[i].fileType
  }

  lemma {:induction false} GatherAt(ent: nat -> Option<Dirent>, k: nat)
    requires Gather(ent, k).Some?
    ensures |Gather(ent, k).value| == k
    ensures forall i {:trigger Gather(ent, k).value[i]} :: 0 <= i < k ==> ent(i) == Some(Gather(ent, k).value[i])
  {
    if k > 0 {
      GatherAt(ent, k - 1);
    }
  }

  lemma {:induction false} DirentTarget(img: Blob, off: nat, max: nat, refs: Refs, es: seq<DirEnt>, i: nat)
    requires EntsIn(refs, es) && EntsFit(refs, es) && BlockStands(img, off, max, refs, es) && i < |es|
    ensures var d := ReadDirent(img, Fields(img), off, max, |es|, i);
            d.Some? ==> d.value.nid == Nid(refs, es[i].inode) && d.value.fileType == es[i].fileType
  {
    HeadOfBlock(img, off, max, refs, es, i);
  }

  /** Whatever a standing block reads as, it names the inodes of its entries, with their types. */
  lemma {:induction false} DirBlockTargets(img: Blob, off: nat, max: nat, refs: Refs, es: seq<DirEnt>)
    requires EntsIn(refs, es) && EntsFit(refs, es) && BlockStands(img, off, max, refs, es)
    ensures ReadDirBlock(img, off, max).Some? ==> SameTargets(ReadDirBlock(img, off, max).value, DirentsOf(refs, es))
  {
    FirstHead(img, off, max, refs, es);
    var ent, n := Dirents(img, Fields(img), off, max, |es|), |es|;
    if Gather(ent, n).Some? {
      GatherAt(ent, n);
      var a, b := Gather(ent, n).value, DirentsOf(refs, es);
      forall i {:trigger a[i]} | 0 <= i < n
        ensures a[i].nid == b[i].nid && a[i].fileType == b[i].fileType
      {
        DirentTarget(img, off, max, refs, es, i);
        assert ent(i) == Some(a[i]);
      }
    }
  }
}
