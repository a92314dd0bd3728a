/**
 The image shows the tree: a reader that starts at the root node of the
 superblock and follows the directory entries finds every node of the tree, with
 its metadata, attributes and data, and the root stubs that no child replaces.
 */
module Shown {
  import opened Bytes
  import opened Order
  import opened Xattrs
  import opened DirPack
  import opened Tree
  import opened Inodes
  import opened Collect
  import opened Image
  import opened Reader
  import opened Readback
  import opened Compose
  import opened Plain

  // --- The numbers fit their fields -------------------------------------------

  /** The bounds that the casts of the writer rest on. */
  ghost predicate Bounded(p: Plan) {
    && |p.inodes| <= 0xFFFF_FFF0 && BlocksLen(p, |p.inodes|) < 0x1000_0000_0000
    && XattrsLen(p, |p.shared|) - XattrsLen(p, 0) <= 0x3_FFFF_0000
  }

  /** A plan that the writer emits. */
  ghost predicate Accepted(root: Node, w: Walk, p: Plan) {
    Composed(root, w, p) && LeastTime(p.inodes, p.mm) && SymlinksOk(p) && AreasOk(p) && Bounded(p)
  }

  lemma {:induction false} MetaFits(root: Node, w: Walk, i: nat)
    requires WalkInv(root, w) && GoodSources(root, w.srcs) && i < |w.srcs|
    ensures ValidMeta(MetaOf(root.meta, w.srcs[i]))
    ensures w.srcs[i].Real? ==> ValidNode(w.srcs[i].node)
  {
    assert w.srcs[i] in w.srcs && w.srcs[0] in w.srcs;
  }

  lemma {:induction false} DirsBounded(es: seq<DirEnt>)
    ensures Dirs(es) <= |es|
  {
    if es != [] {
      DirsBounded(es[..|es| - 1]);
    }
  }

  lemma {:induction false} DirLinks(root: Node, w: Walk, p: Plan, i: nat)
    requires Composed(root, w, p) && i < |p.inodes| && IsDir(w.srcs[i])
    ensures p.inodes[i].kind.DirKind? && p.inodes[i].kind.dir.nlink <= |p.inodes| + 2
  {
    ComposedDir(root, w, p, i);
    assert Placed(w, i);
    DirsBounded(DirEntries(i, w.pars[i], w.bases[i], ChildrenOf(w, i)));
  }

  lemma {:induction false} DirSizeFits(p: Plan, i: nat)
    requires i < |p.inodes| && p.inodes[i].kind.DirKind? && DirFine(p.inodes[i].kind.dir)
    requires BlocksLen(p, |p.inodes|) < 0x1000_0000_0000
    ensures p.inodes[i].kind.dir.size < 0x1000_0000_1000
  {
    BlocksLenGrows(p, i + 1, |p.inodes|);
  }

  lemma {:induction false} WordFits(p: Plan, i: nat)
    requires i < |p.inodes| && BlocksLen(p, |p.inodes|) < 0x1000_0000_0000
    ensures WordOf(p, i) < 0x1_0000_0000
  {
    BlocksLenGrows(p, i, |p.inodes|);
    QuotRem4096(BlocksLen(p, i));
  }

  lemma {:induction false} FreshSizeFits(src: Source, x: Inode, mm: Mtime)
    requires !IsDir(src) && x.kind == FreshKind(src) && SymlinkOk(x, mm) && (src.Real? ==> ValidNode(src.node))
    ensures SizeOf(x.kind) < 0x1_0000_0000_0000_0000 && LinksOf(x.kind) < 0x1_0000_0000
  {
  }

  lemma {:induction false} DirNumbersFit(root: Node, w: Walk, p: Plan, i: nat)
    requires Composed(root, w, p) && Bounded(p) && i < |p.inodes| && IsDir(w.srcs[i])
    ensures SizeOf(p.inodes[i].kind) < 0x1_0000_0000_0000_0000 && LinksOf(p.inodes[i].kind) < 0x1_0000_0000
  {
    ComposedDir(root, w, p, i);
    DirLinks(root, w, p, i);
    DirSizeFits(p, i);
  }

  lemma {:induction false} SizeFits(root: Node, w: Walk, p: Plan, i: nat)
    requires Accepted(root, w, p) && i < |p.inodes|
    ensures SizeOf(p.inodes[i].kind) < 0x1_0000_0000_0000_0000 && LinksOf(p.inodes[i].kind) < 0x1_0000_0000
  {
    if IsDir(w.srcs[i]) {
      DirNumbersFit(root, w, p, i);
    } else {
      assert InodeBase(root, w, i, p.inodes[i]) && SymlinkOk(p.inodes[i], p.mm);
      MetaFits(root, w, i);
      FreshSizeFits(w.srcs[i], p.inodes[i], p.mm);
    }
  }

  lemma {:induction false} InodeSized(root: Node, w: Walk, p: Plan, i: nat)
    requires Accepted(root, w, p) && i < |p.inodes|
    ensures Sized(p.inodes[i], i, WordOf(p, i))
  {
    assert InodeBase(root, w, i, p.inodes[i]);
    MetaFits(root, w, i);
    SizeFits(root, w, p, i);
    WordFits(p, i);
  }

  lemma {:induction false} TimeFits(root: Node, w: Walk, p: Plan)
    requires Accepted(root, w, p)
    ensures SuperFits(p) && InReach(p) && TableFits(p)
  {
    var i :| 0 <= i < |p.inodes| && p.inodes[i].mtime == p.mm;
    assert InodeBase(root, w, i, p.inodes[i]);
    MetaFits(root, w, i);
  }

  // --- One node ---------------------------------------------------------------

  function TypeOf(src: Source): nat {
    match src
    case Real(Directory(_, _)) => S_IFDIR
    case Real(Symlink(_, _)) => S_IFLNK
    case Real(Regular(_, _)) => S_IFREG
    case Whiteout => S_IFCHR
  }

  /** Mode, owner and time of the source. */
  ghost predicate MetaShown(v: View, root: Metadata, src: Source) {
    var meta := MetaOf(root, src);
    && v.mode == TypeOf(src) + meta.mode % 0x1000 && v.uid == meta.uid && v.gid == meta.gid && v.mtime == meta.mtime
    && (!IsDir(src) ==> v.links == 1)
  }

  /** Exactly the given names and values. */
  ghost predicate AttrsShown(img: Blob, v: View, pairs: seq<(Blob, Blob)>) {
    match ReadXattrs(img, v, ReadSuper(img).table)
    case None => false
    case Some(xs) => (forall x :: x in xs ==> x.prefix < 7) && multiset(Names(xs)) == multiset(pairs)
  }

  /** The target of a symlink, or the size and the chunk index of a file. */
  ghost predicate DataShown(img: Blob, v: View, src: Source) {
    match src
    case Real(Symlink(_, target)) =>
      v.layout == LAYOUT_FLAT_INLINE && v.size == |target| && Has(img, v.data, target)
    case Real(Regular(_, Empty)) => v.layout == LAYOUT_FLAT_PLAIN && v.size == 0
    case Real(Regular(_, Backed(size, _, _))) =>
      && v.layout == LAYOUT_CHUNK_BASED && v.size == size && v.word == ChunkFormat(size)
      && Has(img, v.data, Index(ChunkCount(size)))
    case Real(Directory(_, _)) => true
    case Whiteout => v.size == 0 && v.word == 0
  }

  function InodeAt(img: Blob, nid: nat): Option<View> { ReadInode(img, nid, ReadSuper(img).mm) }

  ghost predicate NodeShown(img: Blob, root: Metadata, src: Source, isRoot: bool, nid: nat) {
    match InodeAt(img, nid)
    case None => false
    case Some(v) => MetaShown(v, root, src) && AttrsShown(img, v, PairsAt(root, src, isRoot)) && DataShown(img, v, src)
  }

  lemma {:induction false} IndexIsCount(n: nat)
    ensures Quot(4 * n, 4) == n
  {
    RemOf4(n);
    QuotRem4(4 * n);
  }

  lemma {:induction false} DataIsShown(p: Plan, k: nat, src: Source)
    requires Closed(p) && k < |p.inodes| && Sized(p.inodes[k], k, WordOf(p, k))
    requires !IsDir(src) && p.inodes[k].kind == FreshKind(src)
    ensures DataShown(FinalImage(p), ViewIn(p, k), src)
  {
    InodeReads(p, k);
    if src.Real? && src.node.Regular? && src.node.content.Backed? {
      IndexIsCount(ChunkCount(src.node.content.size));
    }
  }

  lemma {:induction false} InodeIsAt(root: Node, w: Walk, p: Plan, i: nat)
    requires Accepted(root, w, p) && i < |p.inodes|
    ensures Closed(p) && InodeAt(FinalImage(p), Nid(KnownRefs(p), i)) == Some(ViewIn(p, i))
  {
    ComposedCloses(root, w, p);
    InodeSized(root, w, p, i);
    TimeFits(root, w, p);
    SuperReads(p);
    InodeReads(p, i);
  }

  lemma {:induction false} AttrsAreShown(root: Node, w: Walk, p: Plan, i: nat)
    requires Accepted(root, w, p) && i < |p.inodes|
    ensures Closed(p) && AttrsShown(FinalImage(p), ViewIn(p, i), PairsAt(root.meta, w.srcs[i], i == 0))
  {
    ComposedCloses(root, w, p);
    InodeSized(root, w, p, i);
    TimeFits(root, w, p);
    assert AttrsAt(root, w, p, i);
    SuperReads(p);
    XattrsRead(p, i);
  }

  lemma {:induction false} MetaIsShown(root: Node, w: Walk, p: Plan, i: nat)
    requires Composed(root, w, p) && i < |p.inodes|
    ensures MetaShown(ViewIn(p, i), root.meta, w.srcs[i])
  {
    BaseShows(root, w, i, p.inodes[i], p.mm, WordOf(p, i), InodePlace(p, i));
  }

  lemma {:induction false} KindShows(src: Source, kind: Kind)
    requires if IsDir(src) then kind.DirKind? else kind == FreshKind(src)
    ensures TypeBits(kind) == TypeOf(src) && (!IsDir(src) ==> LinksOf(kind) == 1)
  {
  }

  lemma {:induction false} BaseShows(root: Node, w: Walk, i: nat, x: Inode, mm: Mtime, word: nat, off: nat)
    requires InodeBase(root, w, i, x)
    ensures MetaShown(ViewOf(x, i, mm, word, off), root.meta, w.srcs[i])
  {
    KindShows(w.srcs[i], x.kind);
  }

  /** Every inode shows its source. */
  lemma {:induction false} NodeIsShown(root: Node, w: Walk, p: Plan, i: nat)
    requires Accepted(root, w, p) && i < |p.inodes|
    ensures Closed(p) && NodeShown(FinalImage(p), root.meta, w.srcs[i], i == 0, Nid(KnownRefs(p), i))
  {
    InodeIsAt(root, w, p, i);
    AttrsAreShown(root, w, p, i);
    MetaIsShown(root, w, p, i);
    if !IsDir(w.srcs[i]) {
      assert InodeBase(root, w, i, p.inodes[i]);
      InodeSized(root, w, p, i);
      DataIsShown(p, i, w.srcs[i]);
    }
  }

  // --- Directories ------------------------------------------------------------

  predicate SortedNames(ds: seq<Dirent>) {
    forall i, j :: 0 <= i < j < |ds| ==> Less(ds[i].name, ds[j].name)
  }

  /** The entry list of the directory at a node id. */
  function DirAt(img: Blob, nid: nat): Option<seq<Dirent>> {
    match InodeAt(img, nid)
    case None => None
    case Some(v) => ReadDir(img, v)
  }

  function SubDirs(cs: seq<Child>): nat {
    if cs == [] then 0 else (if cs[0].node.Directory? then 1 else 0) + SubDirs(cs[1..])
  }

  /** No name of the tree has a zero byte. */
  predicate NulFree(n: Node) {
    n.Directory? ==> forall k :: 0 <= k < |n.children| ==> 0 !in n.children[k].name && NulFree(n.children[k].node)
  }

  /** The names of a directory as its entry list holds them. */
  function DirNames(cs: seq<Child>, isRoot: bool): seq<Blob> {
    NamesOf(DirEntries(0, 0, 0, Merged(cs, isRoot)))
  }

  /** No name of the tree that ends a directory block has a zero byte. */
  predicate TreePlain(n: Node, isRoot: bool) {
    n.Directory? ==>
      && PlainNames(DirNames(n.children, isRoot))
      && forall k :: 0 <= k < |n.children| ==> TreePlain(n.children[k].node, false)
  }

  lemma {:induction false} StubPlain(k: nat)
    requires k < 256
    ensures 0 !in StubName(k)
  {
  }

  lemma {:induction false} MergedPlain(cs: seq<Child>, isRoot: bool, e: Entry)
    requires StrictlySorted(cs) && e in Merged(cs, isRoot)
    requires forall k :: 0 <= k < |cs| ==> 0 !in cs[k].name
    ensures 0 !in e.name
  {
    MergedHolds(cs, isRoot);
    if IsStub(cs, e) {
      var k :| 0 <= k < 256 && e.name == StubName(k);
      StubPlain(k);
    }
  }

  function EntFor(ms: seq<Entry>, base: nat, m: nat): DirEnt
    requires m < |ms|
  {
    DirEnt(ms[m].name, base + m, FileType(ms[m].source))
  }

  /** The sorted list: itself, its parent, and one entry for each child. */
  ghost predicate EntriesFor(es: seq<DirEnt>, me: nat, parent: nat, base: nat, ms: seq<Entry>) {
    && StrictKeys(EntName, es) && |es| == |ms| + 2
    && DirEnt(DOT, me, FT_DIR) in es && DirEnt(DOTDOT, parent, FT_DIR) in es
    && (forall m :: 0 <= m < |ms| ==> EntFor(ms, base, m) in es)
    && (forall e :: e in es && e.name != DOT && e.name != DOTDOT ==>
        exists m :: 0 <= m < |ms| && e == EntFor(ms, base, m))
  }

  lemma {:induction false} UnsortedFor(me: nat, parent: nat, base: nat, ms: seq<Entry>, all: seq<DirEnt>)
    requires all == [DirEnt(DOT, me, FT_DIR), DirEnt(DOTDOT, parent, FT_DIR)] + EntsOf(ms, base)
    ensures |all| == |ms| + 2 && all[0] == DirEnt(DOT, me, FT_DIR) && all[1] == DirEnt(DOTDOT, parent, FT_DIR)
    ensures forall m :: 0 <= m < |ms| ==> all[m + 2] == EntFor(ms, base, m)
  {
  }

  lemma {:induction false} EntriesHold(me: nat, parent: nat, base: nat, ms: seq<Entry>, es: seq<DirEnt>)
    requires StrictKeys(EntryName, ms) && (forall e :: e in ms ==> NameOk(e.name))
            && es == DirEntries(me, parent, base, ms)
    ensures EntriesFor(es, me, parent, base, ms)
  {
    DirEntriesHold(me, parent, base, ms);
    var all := [DirEnt(DOT, me, FT_DIR), DirEnt(DOTDOT, parent, FT_DIR)] + EntsOf(ms, base);
    UnsortedFor(me, parent, base, ms, all);
    SameElements(es, all);
    SortedFor(es, all, me, parent, base, ms);
  }

  lemma {:induction false} SortedFor(es: seq<DirEnt>, all: seq<DirEnt>, me: nat, parent: nat, base: nat, ms: seq<Entry>)
    requires StrictKeys(EntName, es) && |es| == |all| && forall e :: e in es <==> e in all
    requires |all| == |ms| + 2 && all[0] == DirEnt(DOT, me, FT_DIR) && all[1] == DirEnt(DOTDOT, parent, FT_DIR)
    requires forall m :: 0 <= m < |ms| ==> all[m + 2] == EntFor(ms, base, m)
    ensures EntriesFor(es, me, parent, base, ms)
  {
    assert all[0] in all && all[1] in all;
    forall m | 0 <= m < |ms|
      ensures EntFor(ms, base, m) in es
    {
      assert all[m + 2] in all;
    }
    forall e | e in es && e.name != DOT && e.name != DOTDOT
      ensures exists m :: 0 <= m < |ms| && e == EntFor(ms, base, m)
    {
      var q :| 0 <= q < |all| && all[q] == e;
      assert q >= 2 && ms[q - 2] == ms[q - 2] && e == EntFor(ms, base, q - 2);
    }
  }

  /** The names of two lists for the same children are the same, whatever the inodes. */
  lemma {:induction false} NamesAre(es: seq<DirEnt>, me: nat, parent: nat, base: nat,
                                    fs: seq<DirEnt>, me2: nat, parent2: nat, base2: nat, ms: seq<Entry>)
    requires EntriesFor(es, me, parent, base, ms) && EntriesFor(fs, me2, parent2, base2, ms)
    ensures NamesOf(es) == NamesOf(fs)
  {
    NamesAscend(es);
    NamesAscend(fs);
    var b := NamesOf(fs);
    forall x | x in NamesOf(es)
      ensures x in b
    {
      var k :| 0 <= k < |es| && NamesOf(es)[k] == x;
      NameIsIn(es, k, me, parent, base, fs, me2, parent2, base2, ms);
    }
    SameAscending(NamesOf(es), b);
  }

  lemma {:induction false} NamesAscend(es: seq<DirEnt>)
    requires StrictKeys(EntName, es)
    ensures Ascending(NamesOf(es))
  {
    forall i, j | 0 <= i < j < |es|
      ensures Less(NamesOf(es)[i], NamesOf(es)[j])
    {
      assert Less(EntName(es[i]), EntName(es[j]));
    }
  }

  lemma {:induction false} InNames(es: seq<DirEnt>, e: DirEnt)
    requires e in es
    ensures e.name in NamesOf(es)
  {
    var k :| 0 <= k < |es| && es[k] == e;
    assert NamesOf(es)[k] == e.name;
  }

  lemma {:induction false} NameIsIn(es: seq<DirEnt>, k: nat, me: nat, parent: nat, base: nat,
                                    fs: seq<DirEnt>, me2: nat, parent2: nat, base2: nat, ms: seq<Entry>)
    requires EntriesFor(es, me, parent, base, ms) && EntriesFor(fs, me2, parent2, base2, ms) && k < |es|
    ensures es[k].name in NamesOf(fs)
  {
    var e := es[k];
    assert e in es;
    if e.name == DOT {
      InNames(fs, DirEnt(DOT, me2, FT_DIR));
    } else if e.name == DOTDOT {
      InNames(fs, DirEnt(DOTDOT, parent2, FT_DIR));
    } else {
      var m :| 0 <= m < |ms| && e == EntFor(ms, base, m);
      InNames(fs, EntFor(ms, base2, m));
    }
  }

  lemma {:induction false} DirNamesHold(cs: seq<Child>, isRoot: bool)
    requires StrictlySorted(cs) && NamesOk(cs)
    ensures EntriesFor(DirEntries(0, 0, 0, Merged(cs, isRoot)), 0, 0, 0, Merged(cs, isRoot))
  {
    MergedHolds(cs, isRoot);
    MergedNamesOk(cs, isRoot);
    EntriesHold(0, 0, 0, Merged(cs, isRoot), DirEntries(0, 0, 0, Merged(cs, isRoot)));
  }

  lemma {:induction false} NoneLost(names: seq<Blob>)
    requires forall k :: 0 <= k < |names| ==> 0 !in names[k]
    ensures PlainNames(names)
  {
    var k := Fill(names, 0);
    if k > 0 {
      NoneLost(names[k..]);
    }
  }

  lemma {:induction false} NulFreeNames(cs: seq<Child>, isRoot: bool)
    requires StrictlySorted(cs) && NamesOk(cs) && forall k :: 0 <= k < |cs| ==> 0 !in cs[k].name
    ensures PlainNames(DirNames(cs, isRoot))
  {
    DirNamesHold(cs, isRoot);
    var ms, es := Merged(cs, isRoot), DirEntries(0, 0, 0, Merged(cs, isRoot));
    forall k | 0 <= k < |es|
      ensures 0 !in NamesOf(es)[k]
    {
      if es[k].name != DOT && es[k].name != DOTDOT {
        assert es[k] in es;
        var m :| 0 <= m < |ms| && es[k] == EntFor(ms, 0, m);
        assert ms[m] in ms;
        MergedPlain(cs, isRoot, ms[m]);
      }
    }
    NoneLost(NamesOf(es));
  }

  /** A tree with no zero byte in any name is plain. */
  lemma {:induction false} NulFreeIsPlain(n: Node, isRoot: bool)
    requires ValidNode(n) && TreeNamesOk(n) && NulFree(n)
    ensures TreePlain(n, isRoot)
  {
    if n.Directory? {
      NulFreeNames(n.children, isRoot);
      forall k | 0 <= k < |n.children|
        ensures TreePlain(n.children[k].node, false)
      {
        NulFreeIsPlain(n.children[k].node, false);
      }
    }
  }

  /** The entry list of inode `i`. */
  ghost function EntriesOf(w: Walk, i: nat, n: Node): seq<DirEnt>
    requires i in w.bases && i < |w.pars| && n.Directory?
  {
    DirEntries(i, w.pars[i], w.bases[i], Merged(n.children, i == 0))
  }

  /** Inode `i` is a directory of the walk. */
  ghost predicate DirOf(w: Walk, p: Plan, i: nat, n: Node) {
    && i < |p.inodes| == |w.srcs| == |w.pars| && w.srcs[i] == Real(n) && n.Directory? && i in w.bases
    && NamesOk(n.children)
  }

  lemma {:induction false} DirHolds(root: Node, w: Walk, p: Plan, i: nat, n: Node)
    requires GoodSources(root, w.srcs) && DirOf(w, p, i, n)
    ensures StrictlySorted(n.children)
    ensures EntriesFor(EntriesOf(w, i, n), i, w.pars[i], w.bases[i], Merged(n.children, i == 0))
    ensures NamesOf(EntriesOf(w, i, n)) == DirNames(n.children, i == 0)
  {
    assert w.srcs[i] in w.srcs;
    MergedHolds(n.children, i == 0);
    MergedNamesOk(n.children, i == 0);
    EntriesHold(i, w.pars[i], w.bases[i], Merged(n.children, i == 0), EntriesOf(w, i, n));
    DirNamesHold(n.children, i == 0);
    var ms := Merged(n.children, i == 0);
    NamesAre(EntriesOf(w, i, n), i, w.pars[i], w.bases[i], DirEntries(0, 0, 0, ms), 0, 0, 0, ms);
  }

  /** A directory reads back as its entry list exactly if its names are plain. */
  lemma {:induction false} DirIsAt(root: Node, w: Walk, p: Plan, i: nat, n: Node)
    requires Accepted(root, w, p) && DirOf(w, p, i, n)
    ensures Closed(p) && EntsIn(KnownRefs(p), EntriesOf(w, i, n))
    ensures var ds := DirAt(FinalImage(p), Nid(KnownRefs(p), i));
            && (ds == Some(DirentsOf(KnownRefs(p), EntriesOf(w, i, n))) <==> PlainNames(DirNames(n.children, i == 0)))
            && (ds.Some? ==> SameTargets(ds.value, DirentsOf(KnownRefs(p), EntriesOf(w, i, n))))
  {
    InodeIsAt(root, w, p, i);
    InodeSized(root, w, p, i);
    TimeFits(root, w, p);
    ComposedDir(root, w, p, i);
    DirHolds(root, w, p, i, n);
    PackedPlain(EntriesOf(w, i, n), p.inodes[i].kind.dir);
    DirReads(p, i);
  }

  /** An entry of the list is found in the image. */
  lemma {:induction false} EntryIsAt(refs: Refs, es: seq<DirEnt>, e: DirEnt) returns (j: nat)
    requires EntsIn(refs, es) && e in es
    ensures refs.Known? ==> e.inode < |refs.layout.inodes|
    ensures j < |es| && DirentsOf(refs, es)[j] == DirentOf(refs, e)
  {
    j :| 0 <= j < |es| && es[j] == e;
  }

  /** What the entry list of a directory shows of itself and of its parent. */
  ghost predicate ListShown(ds: seq<Dirent>, count: nat, nid: nat, parent: nat) {
    && SortedNames(ds) && |ds| == count + 2
    && Dirent(DOT, nid, FT_DIR) in ds && Dirent(DOTDOT, parent, FT_DIR) in ds
  }

  lemma {:induction false} ListIsShown(refs: Refs, es: seq<DirEnt>, me: nat, parent: nat, base: nat, ms: seq<Entry>)
    requires EntsIn(refs, es) && EntriesFor(es, me, parent, base, ms)
    ensures refs.Known? ==> me < |refs.layout.inodes| && parent < |refs.layout.inodes|
    ensures ListShown(DirentsOf(refs, es), |ms|, Nid(refs, me), Nid(refs, parent))
  {
    var ds := DirentsOf(refs, es);
    var a := EntryIsAt(refs, es, DirEnt(DOT, me, FT_DIR));
    var b := EntryIsAt(refs, es, DirEnt(DOTDOT, parent, FT_DIR));
    assert ds[a] in ds && ds[b] in ds;
    forall k, m | 0 <= k < m < |ds|
      ensures Less(ds[k].name, ds[m].name)
    {
      assert Less(EntName(es[k]), EntName(es[m]));
    }
  }

  /** A member of the merged children has its own inode, with `i` as its parent. */
  lemma {:induction false} ChildInode(root: Node, w: Walk, i: nat, n: Node, m: nat, c: nat)
    requires WalkInv(root, w) && GoodSources(root, w.srcs) && i < |w.srcs| && w.srcs[i] == Real(n) && n.Directory?
    requires i in w.bases && m < |Merged(n.children, i == 0)| && c == w.bases[i] + m
    ensures 0 < c < |w.srcs| && w.srcs[c] == Merged(n.children, i == 0)[m].source && w.pars[c] == i
  {
    assert Placed(w, i);
    PlacedAt(w, i, m);
  }

  /** The entry of a child names its inode. */
  lemma {:induction false} ChildEntry(refs: Refs, es: seq<DirEnt>, me: nat, parent: nat, base: nat, ms: seq<Entry>,
                                      m: nat, c: nat)
    returns (j: nat)
    requires EntsIn(refs, es) && EntriesFor(es, me, parent, base, ms) && m < |ms| && c == base + m
    ensures refs.Known? ==> c < |refs.layout.inodes|
    ensures j < |es| && DirentsOf(refs, es)[j] == Dirent(ms[m].name, Nid(refs, c), FileType(ms[m].source))
  {
    assert ms[m] == ms[m] && EntFor(ms, base, m) in es;
    j := EntryIsAt(refs, es, EntFor(ms, base, m));
  }

  // --- Link counts ------------------------------------------------------------

  function DirOne(e: DirEnt): nat { if e.fileType == FT_DIR then 1 else 0 }

  function EntryOne(e: Entry): nat { if IsDir(e.source) then 1 else 0 }

  lemma {:induction false} SumOne<T>(f: T -> nat, x: T)
    ensures SumOf(f, [x]) == f(x)
  {
    assert [x][1..] == [];
  }

  lemma {:induction false} DirsIsSum(es: seq<DirEnt>)
    ensures Dirs(es) == SumOf(DirOne, es)
  {
    if es != [] {
      var init, last := es[..|es| - 1], es[|es| - 1];
      DirsIsSum(init);
      assert es == init + [last];
      SumConcat(DirOne, init, [last]);
      SumOne(DirOne, last);
    }
  }

  lemma {:induction false} EntsSum(ms: seq<Entry>, base: nat)
    ensures SumOf(DirOne, EntsOf(ms, base)) == SumOf(EntryOne, ms)
  {
    if ms != [] {
      EntsSum(ms[1..], base + 1);
      assert EntsOf(ms, base)[1..] == EntsOf(ms[1..], base + 1);
    }
  }

  lemma {:induction false} RealsSum(cs: seq<Child>)
    ensures SumOf(EntryOne, RealEntries(cs)) == SubDirs(cs)
  {
    if cs != [] {
      RealsSum(cs[1..]);
      assert RealEntries(cs)[1..] == RealEntries(cs[1..]);
    }
  }

  lemma {:induction false} StubsSum(es: seq<Entry>)
    requires forall e :: e in es ==> e.source == Whiteout
    ensures SumOf(EntryOne, es) == 0
  {
    if es != [] {
      assert es[0] in es;
      StubsSum(es[1..]);
    }
  }

  lemma {:induction false} MergedSum(cs: seq<Child>, isRoot: bool)
    ensures SumOf(EntryOne, Merged(cs, isRoot)) == SubDirs(cs)
  {
    var stubs := if isRoot then Stubs(cs, 256) else [];
    StubsDistinct(cs, 256);
    StubsSum(stubs);
    SumSort(EntryOne, KeyLe(EntryName), RealEntries(cs) + stubs);
    SumConcat(EntryOne, RealEntries(cs), stubs);
    RealsSum(cs);
  }

  /** The link count of a directory: two, and one for each subdirectory. */
  lemma {:induction false} LinksAre(me: nat, parent: nat, base: nat, cs: seq<Child>, isRoot: bool)
    ensures Dirs(DirEntries(me, parent, base, Merged(cs, isRoot))) == 2 + SubDirs(cs)
  {
    var dot, dotdot, ents := DirEnt(DOT, me, FT_DIR), DirEnt(DOTDOT, parent, FT_DIR), EntsOf(Merged(cs, isRoot), base);
    var all := [dot, dotdot] + ents;
    DirsIsSum(Sort(KeyLe(EntName), all));
    SumSort(DirOne, KeyLe(EntName), all);
    SumConcat(DirOne, [dot, dotdot], ents);
    SumConcat(DirOne, [dot], [dotdot]);
    assert [dot] + [dotdot] == [dot, dotdot];
    SumOne(DirOne, dot);
    SumOne(DirOne, dotdot);
    EntsSum(Merged(cs, isRoot), base);
    MergedSum(cs, isRoot);
  }

  // --- The whole tree ---------------------------------------------------------

  ghost predicate StubShown(img: Blob, root: Metadata, ds: seq<Dirent>, s: nat)
    requires s < 256
  {
    exists j :: 0 <= j < |ds| && ds[j].name == StubName(s) && ds[j].fileType == FT_CHR &&
                NodeShown(img, root, Whiteout, false, ds[j].nid)
  }

  /**
   The subtree at node id `nid`, below the directory at `parent`, is `n`. A
   directory has `.`, `..`, one entry for each child, and on the root one for
   each stub that no child replaces. By the count and the strict order it has no
   other entry: that is `NoOtherEntry`.
   */
  ghost predicate Shows(img: Blob, root: Metadata, n: Node, isRoot: bool, nid: nat, parent: nat)
    decreases n, 0
  {
    && NodeShown(img, root, Real(n), isRoot, nid)
    && (n.Directory? ==>
          && DirAt(img, nid).Some? && InodeAt(img, nid).Some?
          && InodeAt(img, nid).value.links == 2 + SubDirs(n.children)
          && ListShown(DirAt(img, nid).value, |Merged(n.children, isRoot)|, nid, parent)
          && (forall k :: 0 <= k < |n.children| ==> ChildShown(img, root, n.children[k].name, n.children[k].node, nid))
          && (isRoot ==> forall s :: 0 <= s < 256 && !HasName(n.children, StubName(s)) ==>
                StubShown(img, root, DirAt(img, nid).value, s)))
  }

  ghost predicate ChildShown(img: Blob, root: Metadata, name: Blob, n: Node, nid: nat)
    decreases n, 1
  {
    DirAt(img, nid).Some? && var ds := DirAt(img, nid).value;
    exists j :: 0 <= j < |ds| && ds[j].name == name && ds[j].fileType == FileType(Real(n)) &&
                Shows(img, root, n, false, ds[j].nid, nid)
  }

  /** What is known of a directory before its children are looked at. */
  ghost predicate DirShown(img: Blob, n: Node, isRoot: bool, nid: nat, parent: nat, ds: seq<Dirent>)
    requires n.Directory?
  {
    && DirAt(img, nid) == Some(ds) && InodeAt(img, nid).Some?
    && InodeAt(img, nid).value.links == 2 + SubDirs(n.children)
    && ListShown(ds, |Merged(n.children, isRoot)|, nid, parent)
  }

  lemma {:induction false} DirIsShown(root: Node, w: Walk, p: Plan, i: nat, n: Node)
    requires Accepted(root, w, p) && DirOf(w, p, i, n) && PlainNames(DirNames(n.children, i == 0))
    ensures Closed(p) && EntsIn(KnownRefs(p), EntriesOf(w, i, n)) && w.pars[i] < |p.inodes|
    ensures EntriesFor(EntriesOf(w, i, n), i, w.pars[i], w.bases[i], Merged(n.children, i == 0))
    ensures DirShown(FinalImage(p), n, i == 0, Nid(KnownRefs(p), i), Nid(KnownRefs(p), w.pars[i]),
                     DirentsOf(KnownRefs(p), EntriesOf(w, i, n)))
  {
    DirIsAt(root, w, p, i, n);
    InodeIsAt(root, w, p, i);
    DirHolds(root, w, p, i, n);
    ListIsShown(KnownRefs(p), EntriesOf(w, i, n), i, w.pars[i], w.bases[i], Merged(n.children, i == 0));
    ComposedDir(root, w, p, i);
    LinksAre(i, w.pars[i], w.bases[i], n.children, i == 0);
  }

  /** Where a member of the merged children is: its inode and its entry. */
  lemma {:induction false} MemberIsAt(root: Node, w: Walk, p: Plan, i: nat, n: Node, e: Entry) returns (c: nat, j: nat)
    requires Composed(root, w, p) && DirOf(w, p, i, n) && e in Merged(n.children, i == 0)
    requires EntsIn(KnownRefs(p), EntriesOf(w, i, n))
    requires EntriesFor(EntriesOf(w, i, n), i, w.pars[i], w.bases[i], Merged(n.children, i == 0))
    ensures 0 < c < |p.inodes| && w.srcs[c] == e.source && w.pars[c] == i
    ensures j < |EntriesOf(w, i, n)|
    ensures DirentsOf(KnownRefs(p), EntriesOf(w, i, n))[j] == Dirent(e.name, Nid(KnownRefs(p), c), FileType(e.source))
  {
    var ms := Merged(n.children, i == 0);
    var m :| 0 <= m < |ms| && ms[m] == e;
    c := w.bases[i] + m;
    ChildInode(root, w, i, n, m, c);
    j := ChildEntry(KnownRefs(p), EntriesOf(w, i, n), i, w.pars[i], w.bases[i], ms, m, c);
  }

  lemma {:induction false} StubIsShown(root: Node, w: Walk, p: Plan, i: nat, n: Node, s: nat)
    requires Accepted(root, w, p) && DirOf(w, p, i, n) && i == 0 && s < 256 && !HasName(n.children, StubName(s))
    requires Closed(p) && EntsIn(KnownRefs(p), EntriesOf(w, i, n)) && StrictlySorted(n.children)
    requires EntriesFor(EntriesOf(w, i, n), i, w.pars[i], w.bases[i], Merged(n.children, i == 0))
    ensures StubShown(FinalImage(p), root.meta, DirentsOf(KnownRefs(p), EntriesOf(w, i, n)), s)
  {
    var e := Entry(StubName(s), Whiteout);
    MergedHolds(n.children, true);
    assert IsStub(n.children, e);
    var c, j := MemberIsAt(root, w, p, i, n, e);
    NodeIsShown(root, w, p, c);
  }

  lemma {:induction false} DirOfNode(root: Node, w: Walk, p: Plan, i: nat, n: Node)
    requires Composed(root, w, p) && TreeNamesOk(root)
    requires i < |p.inodes| && w.srcs[i] == Real(n) && n.Directory?
    ensures DirOf(w, p, i, n) && StrictlySorted(n.children)
  {
    assert w.srcs[i] in w.srcs;
    assert InodeBase(root, w, i, p.inodes[i]);
  }

  /** Every plain subtree of the walk is shown at the node id of its inode. */
  lemma {:induction false} SubtreeIsShown(root: Node, w: Walk, p: Plan, i: nat, n: Node)
    requires Accepted(root, w, p) && TreeNamesOk(root) && TreePlain(n, i == 0)
    requires i < |p.inodes| && w.srcs[i] == Real(n)
    ensures Closed(p) && w.pars[i] < |p.inodes|
    ensures Shows(FinalImage(p), root.meta, n, i == 0, Nid(KnownRefs(p), i), Nid(KnownRefs(p), w.pars[i]))
    decreases n
  {
    NodeIsShown(root, w, p, i);
    assert i > 0 ==> IsChildInode(w, i);
    if n.Directory? {
      DirOfNode(root, w, p, i, n);
      DirIsShown(root, w, p, i, n);
      forall k | 0 <= k < |n.children|
        ensures ChildShown(FinalImage(p), root.meta, n.children[k].name, n.children[k].node, Nid(KnownRefs(p), i))
      {
        ChildIsShown(root, w, p, i, n, k);
      }
      if i == 0 {
        forall s | 0 <= s < 256 && !HasName(n.children, StubName(s))
          ensures StubShown(FinalImage(p), root.meta, DirentsOf(KnownRefs(p), EntriesOf(w, i, n)), s)
        {
          StubIsShown(root, w, p, i, n, s);
        }
      }
    }
  }

  lemma {:induction false} ChildIsShown(root: Node, w: Walk, p: Plan, i: nat, n: Node, k: nat)
    requires Accepted(root, w, p) && TreeNamesOk(root) && TreePlain(n, i == 0)
    requires DirOf(w, p, i, n) && StrictlySorted(n.children) && k < |n.children|
    requires Closed(p) && EntsIn(KnownRefs(p), EntriesOf(w, i, n))
    requires EntriesFor(EntriesOf(w, i, n), i, w.pars[i], w.bases[i], Merged(n.children, i == 0))
    requires DirAt(FinalImage(p), Nid(KnownRefs(p), i)) == Some(DirentsOf(KnownRefs(p), EntriesOf(w, i, n)))
    ensures ChildShown(FinalImage(p), root.meta, n.children[k].name, n.children[k].node, Nid(KnownRefs(p), i))
    decreases n, 0
  {
    var name, node := n.children[k].name, n.children[k].node;
    ChildInMerged(n.children, i == 0, k);
    var c, j := MemberIsAt(root, w, p, i, n, Entry(name, Real(node)));
    SubtreeIsShown(root, w, p, c, node);
    ChildFound(FinalImage(p), root.meta, name, node, Nid(KnownRefs(p), i),
               DirentsOf(KnownRefs(p), EntriesOf(w, i, n)), j, Nid(KnownRefs(p), c));
  }

  lemma {:induction false} ChildInMerged(cs: seq<Child>, isRoot: bool, k: nat)
    requires StrictlySorted(cs) && k < |cs|
    ensures Entry(cs[k].name, Real(cs[k].node)) in Merged(cs, isRoot)
  {
    MergedHolds(cs, isRoot);
    assert IsChild(cs, Entry(cs[k].name, Real(cs[k].node)));
  }

  lemma {:induction false} ChildFound(img: Blob, root: Metadata, name: Blob, n: Node, nid: nat, ds: seq<Dirent>,
                                      j: nat, child: nat)
    requires DirAt(img, nid) == Some(ds) && j < |ds| && ds[j] == Dirent(name, child, FileType(Real(n)))
    requires Shows(img, root, n, false, child, nid)
    ensures ChildShown(img, root, name, n, nid)
  {
  }

  // --- No other entry, and no tree that is not plain ------------------------------

  function DirentNames(ds: seq<Dirent>): (r: seq<Blob>)
    ensures |r| == |ds| && forall i {:trigger r[i]} :: 0 <= i < |ds| ==> r[i] == ds[i].name
  {
    seq(|ds|, i requires 0 <= i < |ds| => ds[i].name)
  }

  lemma {:induction false} DirentInNames(ds: seq<Dirent>, j: nat, name: Blob)
    requires j < |ds| && ds[j].name == name
    ensures name in DirentNames(ds)
  {
    assert DirentNames(ds)[j] == name;
  }

  /** A name of a merged child is among the entries of a directory that is shown. */
  lemma {:induction false} MergedIsShown(img: Blob, root: Metadata, n: Node, isRoot: bool, nid: nat, parent: nat,
                                         e: Entry)
    requires n.Directory? && Shows(img, root, n, isRoot, nid, parent) && StrictlySorted(n.children)
    requires e in Merged(n.children, isRoot)
    ensures e.name in DirentNames(DirAt(img, nid).value)
  {
    var ds := DirAt(img, nid).value;
    MergedHolds(n.children, isRoot);
    if IsChild(n.children, e) {
      var k :| 0 <= k < |n.children| && e == Entry(n.children[k].name, Real(n.children[k].node));
      assert ChildShown(img, root, n.children[k].name, n.children[k].node, nid);
      var j :| 0 <= j < |ds| && ds[j].name == e.name;
      DirentInNames(ds, j, e.name);
    } else {
      var s :| 0 <= s < 256 && e.name == StubName(s);
      assert StubShown(img, root, ds, s);
      var j :| 0 <= j < |ds| && ds[j].name == e.name;
      DirentInNames(ds, j, e.name);
    }
  }

  /** A name of the list is that of the directory, of its parent, or of a merged child. */
  lemma {:induction false} DirNameIs(cs: seq<Child>, isRoot: bool, x: Blob)
    requires StrictlySorted(cs) && NamesOk(cs) && x in DirNames(cs, isRoot)
    ensures x == DOT || x == DOTDOT || exists e :: e in Merged(cs, isRoot) && e.name == x
  {
    DirNamesHold(cs, isRoot);
    var ms := Merged(cs, isRoot);
    var es := DirEntries(0, 0, 0, ms);
    var k :| 0 <= k < |es| && NamesOf(es)[k] == x;
    assert es[k] in es;
    if x != DOT && x != DOTDOT {
      var m :| 0 <= m < |ms| && es[k] == EntFor(ms, 0, m);
      assert ms[m] in ms;
    }
  }

  lemma {:induction false} DirNamesAscend(cs: seq<Child>, isRoot: bool)
    requires StrictlySorted(cs) && NamesOk(cs)
    ensures Ascending(DirNames(cs, isRoot)) && |DirNames(cs, isRoot)| == |Merged(cs, isRoot)| + 2
  {
    DirNamesHold(cs, isRoot);
    NamesAscend(DirEntries(0, 0, 0, Merged(cs, isRoot)));
  }

  lemma {:induction false} ListNames(ds: seq<Dirent>, count: nat, nid: nat, parent: nat)
    requires ListShown(ds, count, nid, parent)
    ensures Ascending(DirentNames(ds)) && DOT in DirentNames(ds) && DOTDOT in DirentNames(ds)
  {
    var i :| 0 <= i < |ds| && ds[i] == Dirent(DOT, nid, FT_DIR);
    var j :| 0 <= j < |ds| && ds[j] == Dirent(DOTDOT, parent, FT_DIR);
    DirentInNames(ds, i, DOT);
    DirentInNames(ds, j, DOTDOT);
  }

  /** The names of a directory that is shown are exactly those of its list. */
  lemma {:induction false} ShownNames(img: Blob, root: Metadata, n: Node, isRoot: bool, nid: nat, parent: nat)
    requires n.Directory? && Shows(img, root, n, isRoot, nid, parent) && StrictlySorted(n.children)
            && NamesOk(n.children)
    ensures DirentNames(DirAt(img, nid).value) == DirNames(n.children, isRoot)
  {
    var names := DirentNames(DirAt(img, nid).value);
    DirNamesAscend(n.children, isRoot);
    ListNames(DirAt(img, nid).value, |Merged(n.children, isRoot)|, nid, parent);
    forall x | x in DirNames(n.children, isRoot)
      ensures x in names
    {
      DirNameIs(n.children, isRoot, x);
      if x != DOT && x != DOTDOT {
        var e :| e in Merged(n.children, isRoot) && e.name == x;
        MergedIsShown(img, root, n, isRoot, nid, parent, e);
      }
    }
    SameAscending(DirNames(n.children, isRoot), names);
  }

  /** A directory that is shown has no entry beside itself, its parent, its children and the stubs. */
  lemma {:induction false} NoOtherEntry(img: Blob, root: Metadata, n: Node, isRoot: bool, nid: nat, parent: nat, j: nat)
    requires n.Directory? && Shows(img, root, n, isRoot, nid, parent) && StrictlySorted(n.children)
            && NamesOk(n.children)
    requires j < |DirAt(img, nid).value|
    ensures var name := DirAt(img, nid).value[j].name;
            name == DOT || name == DOTDOT || exists e :: e in Merged(n.children, isRoot) && e.name == name
  {
    ShownNames(img, root, n, isRoot, nid, parent);
    DirentInNames(DirAt(img, nid).value, j, DirAt(img, nid).value[j].name);
    DirNameIs(n.children, isRoot, DirAt(img, nid).value[j].name);
  }

  /** Entries with the right names and targets are the right entries. */
  lemma {:induction false} SameDirents(refs: Refs, es: seq<DirEnt>, ds: seq<Dirent>)
    requires EntsIn(refs, es) && SameTargets(ds, DirentsOf(refs, es)) && DirentNames(ds) == NamesOf(es)
    ensures ds == DirentsOf(refs, es)
  {
    var want := DirentsOf(refs, es);
    forall i | 0 <= i < |ds|
      ensures ds[i] == want[i]
    {
      assert ds[i].nid == want[i].nid;
      assert DirentNames(ds)[i] == ds[i].name && NamesOf(es)[i] == es[i].name;
    }
  }

  /** A directory that is shown has plain names, and reads back as its entry list. */
  lemma {:induction false} ShownDirIsPlain(root: Node, w: Walk, p: Plan, i: nat, n: Node, parent: nat)
    requires Accepted(root, w, p) && DirOf(w, p, i, n) && Closed(p) && i < |p.inodes|
    requires Shows(FinalImage(p), root.meta, n, i == 0, Nid(KnownRefs(p), i), parent)
    ensures EntsIn(KnownRefs(p), EntriesOf(w, i, n)) && PlainNames(DirNames(n.children, i == 0))
    ensures DirAt(FinalImage(p), Nid(KnownRefs(p), i)) == Some(DirentsOf(KnownRefs(p), EntriesOf(w, i, n)))
    ensures EntriesFor(EntriesOf(w, i, n), i, w.pars[i], w.bases[i], Merged(n.children, i == 0))
  {
    DirIsAt(root, w, p, i, n);
    DirHolds(root, w, p, i, n);
    ShownNames(FinalImage(p), root.meta, n, i == 0, Nid(KnownRefs(p), i), parent);
    SameDirents(KnownRefs(p), EntriesOf(w, i, n), DirAt(FinalImage(p), Nid(KnownRefs(p), i)).value);
  }

  lemma {:induction false} SameEntry(refs: Refs, es: seq<DirEnt>, a: nat, b: nat)
    requires EntsIn(refs, es) && StrictKeys(EntName, es) && a < |es| && b < |es|
    requires DirentsOf(refs, es)[a].name == DirentsOf(refs, es)[b].name
    ensures a == b
  {
    LessTotal(es[a].name, es[b].name);
    assert a < b ==> Less(EntName(es[a]), EntName(es[b]));
    assert b < a ==> Less(EntName(es[b]), EntName(es[a]));
  }

  lemma {:induction false} ChildAt(img: Blob, root: Metadata, name: Blob, n: Node, nid: nat,
                                   ds: seq<Dirent>) returns (m: nat)
    requires ChildShown(img, root, name, n, nid) && DirAt(img, nid) == Some(ds)
    ensures m < |ds| && ds[m].name == name && Shows(img, root, n, false, ds[m].nid, nid)
  {
    m :| 0 <= m < |ds| && ds[m].name == name && Shows(img, root, n, false, ds[m].nid, nid);
  }

  /** The entry of a child leads to the inode of the child, and shows it. */
  lemma {:induction false} ShownChild(root: Node, w: Walk, p: Plan, i: nat, n: Node, k: nat,
                                      parent: nat) returns (c: nat)
    requires Accepted(root, w, p) && DirOf(w, p, i, n) && Closed(p) && k < |n.children|
    requires Shows(FinalImage(p), root.meta, n, i == 0, Nid(KnownRefs(p), i), parent)
    ensures 0 < c < |p.inodes| && w.srcs[c] == Real(n.children[k].node)
    ensures Shows(FinalImage(p), root.meta, n.children[k].node, false, Nid(KnownRefs(p), c), Nid(KnownRefs(p), i))
  {
    var refs, img, nid := KnownRefs(p), FinalImage(p), Nid(KnownRefs(p), i);
    var name, node := n.children[k].name, n.children[k].node;
    DirHolds(root, w, p, i, n);
    ShownDirIsPlain(root, w, p, i, n, parent);
    ChildInMerged(n.children, i == 0, k);
    var j;
    c, j := MemberIsAt(root, w, p, i, n, Entry(name, Real(node)));
    var m := ChildAt(img, root.meta, name, node, nid, DirentsOf(refs, EntriesOf(w, i, n)));
    SameEntry(refs, EntriesOf(w, i, n), m, j);
  }

  /** Every subtree that is shown is plain. */
  lemma {:induction false} SubtreeIsPlain(root: Node, w: Walk, p: Plan, i: nat, n: Node, parent: nat)
    requires Accepted(root, w, p) && TreeNamesOk(root) && Closed(p)
    requires i < |p.inodes| && w.srcs[i] == Real(n)
    requires Shows(FinalImage(p), root.meta, n, i == 0, Nid(KnownRefs(p), i), parent)
    ensures TreePlain(n, i == 0)
    decreases n
  {
    if n.Directory? {
      DirOfNode(root, w, p, i, n);
      ShownDirIsPlain(root, w, p, i, n, parent);
      forall k | 0 <= k < |n.children|
        ensures TreePlain(n.children[k].node, false)
      {
        var c := ShownChild(root, w, p, i, n, k, parent);
        SubtreeIsPlain(root, w, p, c, n.children[k].node, Nid(KnownRefs(p), i));
      }
    }
  }

  /**
   The image of an accepted tree shows the tree, from the root node of the
   superblock on, exactly if no name that ends a directory block has a zero byte.
   */
  lemma {:induction false} ImageShowsTree(root: Node, w: Walk, p: Plan)
    requires Accepted(root, w, p) && TreeNamesOk(root)
    ensures Closed(p)
    ensures var img := FinalImage(p);
            Shows(img, root.meta, root, true, ReadSuper(img).root, ReadSuper(img).root) <==> TreePlain(root, true)
  {
    ComposedCloses(root, w, p);
    TimeFits(root, w, p);
    SuperReads(p);
    if TreePlain(root, true) {
      SubtreeIsShown(root, w, p, 0, root);
    }
    var img := FinalImage(p);
    if Shows(img, root.meta, root, true, ReadSuper(img).root, ReadSuper(img).root) {
      SubtreeIsPlain(root, w, p, 0, root, ReadSuper(img).root);
    }
  }

  /** In particular it shows every accepted tree with no zero byte in a name. */
  lemma {:induction false} NulFreeTreeIsShown(root: Node, w: Walk, p: Plan)
    requires Accepted(root, w, p) && TreeNamesOk(root) && NulFree(root)
    ensures Closed(p)
    ensures var img := FinalImage(p);
            Shows(img, root.meta, root, true, ReadSuper(img).root, ReadSuper(img).root)
  {
    MetaFits(root, w, 0);
    NulFreeIsPlain(root, true);
    ImageShowsTree(root, w, p);
  }
}
