/** Where the parts of every node of an accepted tree stand in the blocks of the image. */
module Places {
  import opened Bytes
  import opened Xattrs
  import opened DirPack
  import opened Tree
  import opened Inodes
  import opened Collect
  import opened Image
  import opened Reader
  import opened Readback
  import opened Compose
  import opened Shown

  /** The bytes of a symlink inode: header, attributes and target. */
  function SymlinkSize(x: Inode, mm: Mtime): nat
    requires x.kind.SymlinkKind?
  {
    HeaderSize(x, mm) + x.xattrs.ByteSize() + |x.kind.target|
  }

  /** The chunk index of a file fits a block beside the end of its attributes. */
  predicate IndexFits(x: Inode, size: nat) { 4 * ChunkCount(size) + Overhang(x) <= 4096 }

  /**
   For every node of an accepted tree: the header stands on a 32-byte slot, the
   inline tail of a directory is in one block, header, attributes and target of a
   symlink are in one block, and so is the chunk index of every file of up to
   8 TiB. The index of a larger file is in one block exactly if it fits.
   */
  lemma {:induction false} TreePlacement(root: Node, w: Walk, p: Plan, i: nat)
    requires Accepted(root, w, p) && i < |p.inodes|
    ensures Rem(InodePlace(p, i), 32) == 0
    ensures var x, v := p.inodes[i], ViewIn(p, i);
            match w.srcs[i]
            case Real(Directory(_, _)) => x.kind.DirKind? && InOneBlock(v.data, Span(x.kind.dir.inline))
            case Real(Symlink(_, _)) => x.kind.SymlinkKind? && InOneBlock(InodePlace(p, i), SymlinkSize(x, p.mm))
            case Real(Regular(_, Backed(size, _, _))) =>
              && (size <= 0x800_0000_0000 ==> InOneBlock(v.data, 4 * ChunkCount(size)))
              && (InOneBlock(v.data, 4 * ChunkCount(size)) <==> IndexFits(x, size))
            case _ => true
  {
    assert InodeBase(root, w, i, p.inodes[i]) && SymlinkOk(p.inodes[i], p.mm);
    Placement(p, i);
    match w.srcs[i]
    case Real(Directory(_, _)) =>
      ComposedDir(root, w, p, i);
      SpanZero(p.inodes[i].kind.dir.inline);
    case Real(Regular(_, Backed(size, _, _))) =>
      if size <= 0x800_0000_0000 {
        OneChunk(size);
      }
    case _ =>
  }

  /** A file of 1025 chunks of 8 TiB has an index that no block holds. */
  lemma {:induction false} LargeIndexIsSplit(x: Inode)
    ensures var size := 1025 * 0x800_0000_0000; size < U64 && ChunkCount(size) == 1025 && !IndexFits(x, size)
  {
    var size := 1025 * 0x800_0000_0000;
    Pow2Of43();
    ChunkBitsOfLarge(size);
  }

  lemma {:induction false} ChunkBitsOfLarge(size: nat)
    requires size > 0x800_0000_0000
    ensures ChunkBits(size) == 43
  {
    Pow2Of43();
    BelowPow2(size - 1);
    if BitLength(size - 1) < 43 {
      Pow2Grows(BitLength(size - 1), 43);
    }
  }
}
