/** The writer as a whole: what a caller can say of the image before it writes one. */
module Whole {
  import opened Bytes
  import opened Order
  import opened Xattrs
  import opened DirPack
  import opened Tree
  import opened Inodes
  import opened Collect
  import opened FsVerity
  import opened Image
  import opened Reader
  import opened Readback
  import Share
  import opened Compose
  import opened Plain
  import opened Shown
  import opened NameFilter

  /** The image shows the tree from the root node of its superblock on. */
  ghost predicate ShowsAll(img: Blob, root: Node) {
    Shows(img, root.meta, root, true, ReadSuper(img).root, ReadSuper(img).root)
  }

  /**
   Writes the image of a tree. A written image whose numbers fit their fields
   shows the tree exactly if no name that ends a directory block has a zero byte.
   */
  method WriteTree(xxh: Xxh, sha: Sha, root: Node, room: Option<nat>)
    returns (r: WriteResult, ghost plan: Option<Plan>, ghost w: Walk)
    requires root.Directory? && ValidNode(root)
    ensures plan.Some? <==> TreeNamesOk(root) && XattrsFit(root.meta, root)
    ensures plan.Some? ==> Composed(root, w, plan.value) && TableOf(root, w, plan.value) && Closed(plan.value)
    ensures plan.None? ==> (r.Refused? && !TreeNamesOk(root)) || (r.Panicked? && !XattrsFit(root.meta, root))
    ensures plan.Some? ==> (r.Refused? <==> !SymlinksOk(plan.value))
    ensures plan.Some? ==> (r.Panicked? <==> SymlinksOk(plan.value) && !AreasOk(plan.value))
    ensures r.Failed? || r.Written? ==>
              (r.Failed? <==> room.Some? && room.value < |FinalImage(plan.value)|)
    ensures r.Written? ==> r.image == FinalImage(plan.value)
    ensures r.Written? && Bounded(plan.value) ==>
              Accepted(root, w, plan.value) && (ShowsAll(r.image, root) <==> TreePlain(root, true))
  {
    r, plan, w := WriteImage(xxh, sha, root, room);
    if r.Written? && Bounded(plan.value) {
      ImageShowsTree(root, w, plan.value);
    }
  }

  // --- A tree that loses a name ---------------------------------------------------

  const META: Metadata := Metadata(0, 0, 0, (0, 0), [])
  const FILE: Node := Regular(META, Empty)
  const LOST_NAME: Blob := [255, 0]

  /** A directory with one empty file, whose name ends in a zero byte. */
  const LOST: Node := Directory(META, [Child(LOST_NAME, FILE)])

  lemma {:induction false} LostIsValid()
    ensures ValidNode(LOST) && XattrsFit(META, LOST) && TreeNamesOk(LOST)
  {
  }

  lemma {:induction false} FewStubs(cs: seq<Child>, n: nat)
    requires n <= 256
    ensures |Stubs(cs, n)| <= n
  {
    if n > 0 {
      FewStubs(cs, n - 1);
    }
  }

  lemma {:induction false} MergedCount(cs: seq<Child>, isRoot: bool)
    ensures |Merged(cs, isRoot)| <= |cs| + 256
  {
    var stubs := if isRoot then Stubs(cs, 256) else [];
    FewStubs(cs, 256);
    SortPermutes(KeyLe(EntryName), RealEntries(cs) + stubs);
    assert |multiset(Merged(cs, isRoot))| == |Merged(cs, isRoot)|;
    assert |multiset(RealEntries(cs) + stubs)| == |cs| + |stubs|;
  }

  lemma {:induction false} LostChildren(ms: seq<Entry>)
    requires ms == Merged(LOST.children, true)
    ensures |ms| <= 257 && Entry(LOST_NAME, Real(FILE)) in ms
    ensures forall e :: e in ms && e.source != Real(FILE) ==> e.source == Whiteout && |e.name| == 2 && e.name[0] < 255
    ensures forall e :: e in ms && e.source == Real(FILE) ==> e.name == LOST_NAME
  {
    MergedCount(LOST.children, true);
    ChildInMerged(LOST.children, true, 0);
    MergedHolds(LOST.children, true);
  }

  lemma {:induction false} FillsAll(names: seq<Blob>, used: nat)
    requires (forall i :: 0 <= i < |names| ==> |names[i]| <= 2) && used + 14 * |names| <= DirPack.BLOCK
    ensures Fill(names, used) == |names|
  {
    if names != [] {
      FillsAll(names[1..], used + 12 + |names[0]|);
    }
  }

  lemma {:induction false} LostName(x: Blob)
    requires x in DirNames(LOST.children, true)
    ensures |x| <= 2 && (x == LOST_NAME || !Less(LOST_NAME, x))
  {
    LostIsValid();
    DirNameIs(LOST.children, true, x);
    LostChildren(Merged(LOST.children, true));
  }

  lemma {:induction false} LostIsNamed()
    ensures LOST_NAME in DirNames(LOST.children, true)
  {
    var ms := Merged(LOST.children, true);
    var es := DirEntries(0, 0, 0, ms);
    LostIsValid();
    LostChildren(ms);
    DirNamesHold(LOST.children, true);
    var m :| 0 <= m < |ms| && ms[m] == Entry(LOST_NAME, Real(FILE));
    InNames(es, EntFor(ms, 0, m));
  }

  /** The lost name ends the only block of the root. */
  lemma {:induction false} LostIsNotPlain()
    ensures !TreePlain(LOST, true)
  {
    var names := DirNames(LOST.children, true);
    LostIsValid();
    LostChildren(Merged(LOST.children, true));
    DirNamesAscend(LOST.children, true);
    forall i | 0 <= i < |names|
      ensures |names[i]| <= 2
    {
      LostName(names[i]);
    }
    FillsAll(names, 0);
    LostIsNamed();
    var j :| 0 <= j < |names| && names[j] == LOST_NAME;
    LostName(names[|names| - 1]);
    assert names[|names| - 1] == LOST_NAME;
  }

  // --- The writer accepts it --------------------------------------------------------

  /** An inode whose parent is the root has the source of a child of the root. */
  lemma {:induction false} ChildOfRoot(root: Node, w: Walk, i: nat)
    requires WalkInv(root, w) && 0 < i < |w.srcs| && w.pars[i] == 0
    ensures exists e :: e in Merged(root.children, true) && e.source == w.srcs[i]
  {
    assert IsChildInode(w, i);
    assert Placed(w, 0);
    PlacedAt(w, 0, i - w.bases[0]);
    assert ChildrenOf(w, 0)[i - w.bases[0]] in Merged(root.children, true);
  }

  lemma {:induction false} ParentBefore(root: Node, w: Walk, i: nat)
    requires WalkInv(root, w) && 0 < i < |w.srcs|
    ensures w.pars[i] < i && IsDir(w.srcs[w.pars[i]])
  {
    assert IsChildInode(w, i);
    assert Placed(w, w.pars[i]);
  }

  lemma {:induction false} LostSource(w: Walk, i: nat)
    requires WalkInv(LOST, w) && 0 < i < |w.srcs|
    ensures (w.srcs[i] == Whiteout || w.srcs[i] == Real(FILE)) && w.pars[i] == 0
  {
    ParentBefore(LOST, w, i);
    if w.pars[i] > 0 {
      LostSource(w, w.pars[i]);
    } else {
      ChildOfRoot(LOST, w, i);
      LostChildren(Merged(LOST.children, true));
    }
  }

  lemma {:induction false} LostCount(w: Walk)
    requires WalkInv(LOST, w)
    ensures |w.srcs| <= 258
  {
    if |w.srcs| > 1 {
      LostSource(w, 1);
      LostSource(w, |w.srcs| - 1);
      LostChildren(Merged(LOST.children, true));
      assert IsChildInode(w, 1) && IsChildInode(w, |w.srcs| - 1);
    }
  }

  /** At most one attribute, of no more than 23 bytes. */
  predicate FewPairs(pairs: seq<(Blob, Blob)>, n: nat) {
    |pairs| <= n && forall q :: q in pairs ==> |q.0| <= 22 && |q.1| <= 1
  }

  lemma {:induction false} LostPairs(w: Walk, i: nat)
    requires WalkInv(LOST, w) && i < |w.srcs|
    ensures FewPairs(PairsAt(META, w.srcs[i], i == 0), if i == 0 then 1 else 0)
  {
    if i > 0 {
      LostSource(w, i);
    }
  }

  lemma {:induction false} TotalAtMost(inodes: seq<Inode>, k: Share.Key)
    requires forall i :: 0 <= i < |inodes| ==> |inodes[i].xattrs.local| <= if i == 0 then 1 else 0
    ensures Share.Total(AttrKey, inodes, k) <= if inodes == [] then 0 else 1
  {
    if inodes != [] {
      TotalAtMost(inodes[..|inodes| - 1], k);
      OccAtMost(inodes[|inodes| - 1].xattrs.local, k);
    }
  }

  lemma {:induction false} OccAtMost(xs: seq<LocalXattr>, k: Share.Key)
    ensures Share.Occ(AttrKey, xs, k) <= |xs|
  {
    if xs != [] {
      OccAtMost(xs[..|xs| - 1], k);
    }
  }

  lemma {:induction false} LostTable(w: Walk, p: Plan)
    requires TableOf(LOST, w, p)
    ensures p.shared == []
  {
    var before: seq<Inode> :| Compose.Ready(LOST, w, before) && Share.TableShared(AttrKey, before, p.shared);
    forall i | 0 <= i < |before|
      ensures |before[i].xattrs.local| <= if i == 0 then 1 else 0
    {
      assert InodeReady(LOST, w, i, before[i]);
      LostPairs(w, i);
    }
    if p.shared != [] {
      assert Share.InTable(AttrKey, p.shared, AttrKey(p.shared[0]));
      TotalAtMost(before, AttrKey(p.shared[0]));
    }
  }

  lemma {:induction false} OneSize(xs: seq<LocalXattr>)
    requires |xs| <= 1 && forall x :: x in xs ==> |x.suffix| <= 22 && |x.value| <= 1
    ensures Sizes(xs) <= 31
  {
    if xs != [] {
      assert xs[0] in xs && xs[..0] == [];
    }
  }

  lemma {:induction false} LostLocal(xs: seq<LocalXattr>, pairs: seq<(Blob, Blob)>)
    requires (forall x :: x in xs ==> x.prefix < 7) && multiset(Names(xs)) == multiset(pairs)
    requires FewPairs(pairs, 1)
    ensures Sizes(xs) <= 31
  {
    SomeAttrs(xs, pairs);
    forall x | x in xs
      ensures |x.suffix| <= 22 && |x.value| <= 1
    {
      var k :| 0 <= k < |xs| && xs[k] == x;
      assert Names(xs)[k] in multiset(pairs);
      assert |x.FullKey()| <= 22;
    }
    OneSize(xs);
  }

  lemma {:induction false} AreaBound(xs: XattrSet, table: seq<LocalXattr>, pairs: seq<(Blob, Blob)>)
    requires table == [] && (forall i :: 0 <= i < |xs.shared| ==> xs.shared[i] < |table|)
    requires var all := Pick(table, xs.shared) + xs.local;
             (forall x :: x in all ==> x.prefix < 7) && multiset(Names(all)) == multiset(pairs)
    requires FewPairs(pairs, 1)
    ensures xs.ByteSize() <= 43
  {
    assert Pick(table, xs.shared) + xs.local == xs.local;
    LostLocal(xs.local, pairs);
  }

  lemma {:induction false} LostArea(w: Walk, p: Plan, i: nat)
    requires Composed(LOST, w, p) && p.shared == [] && i < |p.inodes|
    ensures p.inodes[i].xattrs.ByteSize() <= 43
  {
    assert AttrsAt(LOST, w, p, i);
    LostPairs(w, i);
    AreaBound(p.inodes[i].xattrs, p.shared, PairsAt(META, w.srcs[i], i == 0));
  }

  lemma {:induction false} BlocksAtMost(blocks: seq<seq<DirEnt>>)
    requires forall i :: 0 <= i < |blocks| ==> blocks[i] != []
    ensures |blocks| <= |Flatten(blocks)|
  {
    if blocks != [] {
      BlocksAtMost(blocks[..|blocks| - 1]);
    }
  }

  lemma {:induction false} LostKind(w: Walk, p: Plan, i: nat)
    requires Composed(LOST, w, p) && i < |p.inodes|
    ensures !p.inodes[i].kind.SymlinkKind? && InlineSize(p.inodes[i].kind) <= 2048 && BlocksOf(p.inodes[i]) <= 259
  {
    assert InodeBase(LOST, w, i, p.inodes[i]);
    if i == 0 {
      ComposedDir(LOST, w, p, 0);
      var d, ms := p.inodes[0].kind.dir, ChildrenOf(w, 0);
      LostIsValid();
      LostChildren(ms);
      MergedHolds(LOST.children, true);
      MergedNamesOk(LOST.children, true);
      EntriesHold(0, w.pars[0], w.bases[0], ms, DirEntries(0, w.pars[0], w.bases[0], ms));
      BlocksAtMost(d.blocks);
    } else {
      LostSource(w, i);
    }
  }

  lemma {:induction false} PlaceBound(x: Inode, mm: Mtime, at: nat)
    requires x.xattrs.ByteSize() <= 43 && InlineSize(x.kind) <= 2048
    ensures InodeEnd(HeaderAt(x, mm, at), BodySize(x, mm)) <= at + 8000
  {
    PadBounded(x.kind, HeaderSize(x, mm) + x.xattrs.ByteSize(), RoundUp(at, 32));
  }

  lemma {:induction false} LostStep(w: Walk, p: Plan, k: nat, next: nat)
    requires Composed(LOST, w, p) && p.shared == [] && k < |p.inodes| && next == k + 1
    ensures InodesLen(p, next) <= InodesLen(p, k) + 8000
  {
    LostArea(w, p, k);
    LostKind(w, p, k);
    PlaceIs(p, k, InodesLen(p, k));
    PlaceBound(p.inodes[k], p.mm, InodesLen(p, k));
  }

  lemma {:induction false} LostInodesLen(w: Walk, p: Plan, k: nat)
    requires Composed(LOST, w, p) && p.shared == [] && k <= |p.inodes|
    ensures InodesLen(p, k) <= 1152 + 8000 * k
  {
    if k > 0 {
      var prev := k - 1;
      LostInodesLen(w, p, prev);
      LostStep(w, p, prev, k);
    }
  }

  lemma {:induction false} LostBlocksStep(p: Plan, k: nat, next: nat)
    requires k < |p.inodes| && next == k + 1 && BlocksOf(p.inodes[k]) <= 259
    ensures BlocksLen(p, next) <= BlocksLen(p, k) + 1060864
  {
  }

  lemma {:induction false} LostBlocksLen(w: Walk, p: Plan, k: nat)
    requires Composed(LOST, w, p) && p.shared == [] && k <= |p.inodes|
    ensures BlocksLen(p, k) <= BlocksLen(p, 0) + 1060864 * k
  {
    if k > 0 {
      var prev := k - 1;
      LostBlocksLen(w, p, prev);
      LostKind(w, p, prev);
      LostBlocksStep(p, prev, k);
    }
  }

  lemma {:induction false} LostBounded(w: Walk, p: Plan)
    requires Composed(LOST, w, p) && p.shared == []
    ensures Bounded(p)
  {
    LostCount(w);
    LostInodesLen(w, p, |p.inodes|);
    LostBlocksLen(w, p, |p.inodes|);
  }

  lemma {:induction false} LostFits(w: Walk, p: Plan)
    requires Composed(LOST, w, p) && p.shared == []
    ensures SymlinksOk(p) && AreasOk(p)
  {
    forall i | 0 <= i < |p.inodes|
      ensures SymlinkOk(p.inodes[i], p.mm) && p.inodes[i].xattrs.Icount() <= 0xFFFF
    {
      LostKind(w, p, i);
      LostArea(w, p, i);
      QuotRem4(p.inodes[i].xattrs.ByteSize());
      IcountRecoversSize(p.inodes[i].xattrs);
    }
  }

  /** The writer accepts that tree and writes an image that does not show it. */
  method LoseName(xxh: Xxh, sha: Sha) returns (r: WriteResult)
    ensures r.Written? && !ShowsAll(r.image, LOST)
  {
    LostIsValid();
    LostIsNotPlain();
    ghost var plan, w;
    r, plan, w := WriteTree(xxh, sha, LOST, None);
    LostTable(w, plan.value);
    LostFits(w, plan.value);
    LostBounded(w, plan.value);
  }
}
