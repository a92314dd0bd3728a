/** Inodes, chunk sizing, and the inode that each node of the tree gets. */
module Inodes {
  import opened Bytes
  import opened Xattrs
  import opened DirPack
  import opened Tree

  const LAYOUT_FLAT_PLAIN: nat := 0
  const LAYOUT_FLAT_INLINE: nat := 4
  const LAYOUT_CHUNK_BASED: nat := 8

  const S_IFCHR: nat := 0x2000
  const S_IFDIR: nat := 0x4000
  const S_IFREG: nat := 0x8000
  const S_IFLNK: nat := 0xA000

  // --- Chunk sizing -----------------------------------------------------------

  function Pow2(k: nat): (p: nat)
    ensures p > 0
  {
    if k == 0 then 1 else 2 * Pow2(k - 1)
  }

  /** The number of significant bits: 64 minus the leading zeros of a `u64`. */
  function BitLength(n: nat): nat {
    if n == 0 then 0 else 1 + BitLength(n / 2)
  }

  function ChunkBits(size: nat): (bits: nat)
    ensures 12 <= bits <= 43
  {
    var bits := if size > 1 then BitLength(size - 1) else 1;
    if bits < 12 then 12 else if bits - 12 > 31 then 43 else bits
  }

  function ChunkFormat(size: nat): nat { ChunkBits(size) - 12 }

  /** The count of chunks, cast to `u32`. */
  function ChunkCount(size: nat): nat {
    var chunk := Pow2(ChunkBits(size));
    ((size + chunk - 1) / chunk) % 0x1_0000_0000
  }

  lemma {:induction false} BelowPow2(n: nat)
    ensures n < Pow2(BitLength(n))
  {
    if n > 0 {
      BelowPow2(n / 2);
    }
  }

  lemma {:induction false} Pow2Grows(a: nat, b: nat)
    requires a <= b
    ensures Pow2(a) <= Pow2(b)
  {
    if a < b {
      Pow2Grows(a, b - 1);
    }
  }

  lemma {:induction false} DivIsOne(x: nat, p: nat)
    requires p <= x < 2 * p
    ensures x / p == 1
  {
  }

  lemma {:induction false} DivIsZero(x: nat, p: nat)
    requires x < p
    ensures x / p == 0
  {
  }

  lemma {:induction false} Pow2Times4(k: nat)
    ensures Pow2(k + 4) == 16 * Pow2(k)
  {
    assert Pow2(k + 4) == 2 * Pow2(k + 3) && Pow2(k + 2) == 2 * Pow2(k + 1);
  }

  lemma {:induction false} Pow2Of43()
    ensures Pow2(43) == 0x800_0000_0000
  {
    assert Pow2(3) == 2 * Pow2(2) && Pow2(1) == 2 * Pow2(0);
    Pow2Times4(3);
    Pow2Times4(7);
    Pow2Times4(11);
    Pow2Times4(15);
    Pow2Times4(19);
    Pow2Times4(23);
    Pow2Times4(27);
    Pow2Times4(31);
    Pow2Times4(35);
    Pow2Times4(39);
  }

  lemma {:induction false} ChunkCovers(size: nat)
    requires size <= 0x800_0000_0000
    ensures size <= Pow2(ChunkBits(size))
  {
    Pow2Of43();
    if size > 1 {
      BelowPow2(size - 1);
      if BitLength(size - 1) <= 43 {
        Pow2Grows(BitLength(size - 1), ChunkBits(size));
      }
    }
  }

  lemma {:induction false} CeilOfOneChunk(size: nat, chunk: nat)
    requires 0 < chunk && size <= chunk
    ensures (size + chunk - 1) / chunk == if size == 0 then 0 else 1
  {
    if size == 0 {
      DivIsZero(chunk - 1, chunk);
    } else {
      DivIsOne(size + chunk - 1, chunk);
    }
  }

  /** One chunk covers any file of up to 8 TiB, so its index is one 4-byte entry. */
  lemma {:induction false} OneChunk(size: nat)
    requires size <= 0x800_0000_0000
    ensures ChunkCount(size) == if size == 0 then 0 else 1
  {
    ChunkCovers(size);
    var chunk := Pow2(ChunkBits(size));
    CeilOfOneChunk(size, chunk);
    assert ChunkCount(size) == ((size + chunk - 1) / chunk) % 0x1_0000_0000;
  }

  // --- Inodes -----------------------------------------------------------------

  datatype Kind =
    | DirKind(dir: DirData)
    | EmptyReg
    | BackedReg(size: nat, inlineTail: nat)
    | SymlinkKind(target: Blob)
    | WhiteoutKind

  datatype Inode = Inode(perms: nat, uid: nat, gid: nat, mtime: (nat, nat), xattrs: XattrSet, kind: Kind)

  function TypeBits(kind: Kind): nat {
    match kind
    case DirKind(_) => S_IFDIR
    case EmptyReg => S_IFREG
    case BackedReg(_, _) => S_IFREG
    case SymlinkKind(_) => S_IFLNK
    case WhiteoutKind => S_IFCHR
  }

  /** A child of a directory: a node of the tree, or an overlay whiteout stub. */
  datatype Source = Real(node: Node) | Whiteout

  function FileType(src: Source): nat {
    match src
    case Real(Directory(_, _)) => FT_DIR
    case Real(Symlink(_, _)) => FT_LNK
    case Real(Regular(_, _)) => FT_REG
    case Whiteout => FT_CHR
  }

  // --- The xattrs of a node ---------------------------------------------------

  const METACOPY: Blob := Ascii("trusted.overlay.metacopy")
  const REDIRECT: Blob := Ascii("trusted.overlay.redirect")
  const OPAQUE: Blob := Ascii("trusted.overlay.opaque")
  const OVERLAY: Blob := Ascii("trusted.overlay.")
  const OVERLAY_ESCAPED: Blob := Ascii("trusted.overlay.overlay.")
  const SELINUX: Blob := Ascii("security.selinux")

  /** `trusted.overlay.X` becomes `trusted.overlay.overlay.X`. */
  function Escape(name: Blob): Blob {
    if OVERLAY <= name then OVERLAY_ESCAPED + name[|OVERLAY|..] else name
  }

  function Escaped(pairs: seq<(Blob, Blob)>): (r: seq<(Blob, Blob)>)
    ensures |r| == |pairs|
  {
    if pairs == [] then []
    else
      var (name, value) := pairs[|pairs| - 1];
      Escaped(pairs[..|pairs| - 1]) + [(Escape(name), value)]
  }

  /** The 36-byte overlay metacopy record, or no bytes without a digest. */
  function MetacopyRecord(verity: Option<Blob>): Blob {
    match verity
    case Some(v) => [0, 36, 0, 1] + v
    case None => []
  }

  function Selinux(pairs: seq<(Blob, Blob)>): seq<(Blob, Blob)> {
    if pairs == [] then []
    else
      var last := pairs[|pairs| - 1];
      Selinux(pairs[..|pairs| - 1]) + (if last.0 == SELINUX then [last] else [])
  }

  /** The names and values that the inode of a source gets, in the order of the adds. */
  function Pairs(root: Metadata, src: Source): seq<(Blob, Blob)> {
    match src
    case Whiteout => Selinux(root.xattrs)
    case Real(Regular(meta, Backed(_, redirect, verity))) =>
      [(METACOPY, MetacopyRecord(verity)), (REDIRECT, redirect)] + Escaped(meta.xattrs)
    case Real(node) => Escaped(node.meta.xattrs)
  }

  const NO_ENTRIES: DirData := DirData([], [], 0, 0)

  /** The kind of a fresh inode. A directory gets its entries later. */
  function FreshKind(src: Source): Kind {
    match src
    case Whiteout => WhiteoutKind
    case Real(Directory(_, _)) => DirKind(NO_ENTRIES)
    case Real(Symlink(_, target)) => SymlinkKind(target)
    case Real(Regular(_, Empty)) => EmptyReg
    case Real(Regular(_, Backed(size, _, _))) => BackedReg(size, 4 * ChunkCount(size))
  }

  function MetaOf(root: Metadata, src: Source): Metadata {
    if src.Real? then src.node.meta else root.(mode := 0x1A4)
  }

  function InodeOf(xxh: Xxh, root: Metadata, src: Source): Inode {
    var meta := MetaOf(root, src);
    Inode(meta.mode % 0x1000, meta.uid, meta.gid, meta.mtime,
          AddAll(xxh, NO_XATTRS, Pairs(root, src)), FreshKind(src))
  }

  /** The attributes of an inode are within the limits of their length fields. */
  function Fitter(root: Metadata): Source -> bool {
    (src: Source) => AllFit(Pairs(root, src))
  }

  predicate TreeFits(fit: Source -> bool, n: Node) {
    fit(Real(n)) && (n.Directory? ==> forall i :: 0 <= i < |n.children| ==> TreeFits(fit, n.children[i].node))
  }

  /** The documented limits of the attributes of every node of the tree. */
  predicate XattrsFit(root: Metadata, n: Node) { TreeFits(Fitter(root), n) }
}
