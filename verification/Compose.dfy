/** The whole image writer: collect, share, check, size, emit and hash. */
module Compose {
  import opened Bytes
  import opened Order
  import opened Xattrs
  import opened DirPack
  import opened Tree
  import opened Inodes
  import opened Collect
  import opened FsVerity
  import opened Image
  import opened Reader
  import opened Readback
  import Share
  import opened Writer

  // --- The order of the attributes --------------------------------------------

  function AttrName(x: LocalXattr): Blob {
    if x.prefix < 7 then x.FullKey() else x.suffix
  }

  function AttrKey(x: LocalXattr): Share.Key { (AttrName(x), x.value) }

  /** By full name, then by value length, then by value bytes. */
  predicate PairLe(a: (Blob, Blob), b: (Blob, Blob)) {
    || Less(a.0, b.0)
    || (a.0 == b.0 && (|a.1| < |b.1| || (|a.1| == |b.1| && Leq(a.1, b.1))))
  }

  predicate AttrLe(a: LocalXattr, b: LocalXattr) { PairLe(AttrKey(a), AttrKey(b)) }

  lemma {:induction false} PairLeTotal(a: (Blob, Blob), b: (Blob, Blob))
    ensures PairLe(a, b) || PairLe(b, a)
  {
    LessTotal(a.0, b.0);
    LessTotal(a.1, b.1);
  }

  lemma {:induction false} PairLeTransitive(a: (Blob, Blob), b: (Blob, Blob), c: (Blob, Blob))
    requires PairLe(a, b) && PairLe(b, c)
    ensures PairLe(a, c)
  {
    if Less(a.0, b.0) && Less(b.0, c.0) {
      LessTransitive(a.0, b.0, c.0);
    } else if a.0 == b.0 == c.0 && |a.1| == |b.1| == |c.1| && Less(a.1, b.1) && Less(b.1, c.1) {
      LessTransitive(a.1, b.1, c.1);
    }
  }

  lemma {:induction false} AttrOrder()
    ensures TotalOrder(AttrLe)
  {
    forall a, b
      ensures AttrLe(a, b) || AttrLe(b, a)
    {
      PairLeTotal(AttrKey(a), AttrKey(b));
    }
    forall a, b, c | AttrLe(a, b) && AttrLe(b, c)
      ensures AttrLe(a, c)
    {
      PairLeTransitive(AttrKey(a), AttrKey(b), AttrKey(c));
    }
  }

  /** Attributes that `add` made are told apart by name and value. */
  lemma {:induction false} KeysTell(all: set<LocalXattr>)
    requires forall x :: x in all ==> x.Valid()
    ensures Share.KeyTells(AttrKey, all)
  {
    forall x, y | x in all && y in all && AttrKey(x) == AttrKey(y)
      ensures x == y
    {
      SplitIsUnique(x);
      SplitIsUnique(y);
    }
  }

  // --- The attributes of every inode ------------------------------------------

  const YES: Blob := [121]

  /** The names and values of an inode; the root is opaque. */
  function PairsAt(root: Metadata, src: Source, isRoot: bool): seq<(Blob, Blob)> {
    Pairs(root, src) + (if isRoot then [(OPAQUE, YES)] else [])
  }

  function Opaque(xxh: Xxh, x: Inode): Inode {
    x.(xattrs := Added(xxh, x.xattrs, OPAQUE, YES))
  }

  /** The attributes of the inode are the valid attributes of the given names and values. */
  ghost predicate Holds(xs: XattrSet, pairs: seq<(Blob, Blob)>) {
    && xs.Valid() && xs.shared == [] && (pairs != [] ==> xs.filter != {})
    && Names(xs.local) == pairs
  }

  lemma {:induction false} FreshHolds(xxh: Xxh, pairs: seq<(Blob, Blob)>)
    requires AllFit(pairs)
    ensures Holds(AddAll(xxh, NO_XATTRS, pairs), pairs)
  {
    HoldsFrom(xxh, NO_XATTRS, pairs);
  }

  lemma {:induction false} HoldsFrom(xxh: Xxh, xs: XattrSet, pairs: seq<(Blob, Blob)>)
    requires AllFit(pairs) && xs.Valid() && xs.local == [] && xs.shared == []
    ensures Holds(AddAll(xxh, xs, pairs), pairs)
  {
    AddAllHolds(xxh, xs, pairs);
    assert Names(xs.local) + pairs == pairs;
  }

  lemma {:induction false} OpaqueFits()
    ensures Fits(OPAQUE, YES)
  {
    assert |OPAQUE| == 22;
  }

  lemma {:induction false} OpaqueHolds(xxh: Xxh, xs: XattrSet, pairs: seq<(Blob, Blob)>)
    requires Holds(xs, pairs)
    ensures Holds(Added(xxh, xs, OPAQUE, YES), pairs + [(OPAQUE, YES)])
  {
    OpaqueFits();
    var x := Split(OPAQUE, YES);
    assert Names(xs.local + [x]) == Names(xs.local) + [(OPAQUE, YES)];
    assert FilterBit(xxh, x) in Added(xxh, xs, OPAQUE, YES).filter;
    SplitValid(OPAQUE, YES);
    RemBound(xxh(x.suffix, FILTER_SEED + x.prefix));
  }

  lemma {:induction false} RemBound(n: nat)
    ensures Rem(n, 32) < 32
  {
  }

  lemma {:induction false} SplitValid(name: Blob, value: Blob)
    requires Fits(name, value)
    ensures Split(name, value).Valid()
  {
  }

  // --- The inode list ---------------------------------------------------------

  /** Metadata and kind of inode `i`. */
  ghost predicate InodeBase(root: Node, w: Walk, i: nat, x: Inode) {
    && i < |w.srcs| == |w.pars|
    && var meta := MetaOf(root.meta, w.srcs[i]);
    && x.perms == meta.mode % 0x1000 && x.uid == meta.uid && x.gid == meta.gid && x.mtime == meta.mtime
    && if IsDir(w.srcs[i]) then
         i in w.bases && x.kind.DirKind? && Packed(DirEntries(i, w.pars[i], w.bases[i], ChildrenOf(w, i)), x.kind.dir)
       else x.kind == FreshKind(w.srcs[i])
  }

  ghost predicate InodeReady(root: Node, w: Walk, i: nat, x: Inode) {
    && InodeBase(root, w, i, x)
    && Holds(x.xattrs, PairsAt(root.meta, w.srcs[i], i == 0))
  }

  /** The inode list before the attributes are shared. */
  ghost predicate Ready(root: Node, w: Walk, inodes: seq<Inode>) {
    && WalkInv(root, w) && w.queue == [] && GoodSources(root, w.srcs) && |inodes| == |w.srcs|
    && forall i {:trigger inodes[i]} :: 0 <= i < |inodes| ==> InodeReady(root, w, i, inodes[i])
  }

  lemma {:induction false} SourceFits(root: Node, w: Walk, i: nat)
    requires FitSources(Fitter(root.meta), w.srcs) && i < |w.srcs|
    ensures AllFit(Pairs(root.meta, w.srcs[i]))
  {
    assert w.srcs[i] in w.srcs;
  }

  lemma {:induction false} FreshReady(xxh: Xxh, xs: XattrSet, pairs: seq<(Blob, Blob)>)
    requires AllFit(pairs) && xs == AddAll(xxh, NO_XATTRS, pairs)
    ensures Holds(xs, pairs + []) && Holds(Added(xxh, xs, OPAQUE, YES), pairs + [(OPAQUE, YES)])
  {
    FreshHolds(xxh, pairs);
    assert pairs + [] == pairs;
    OpaqueHolds(xxh, xs, pairs);
  }

  /** A finished inode has the metadata and the kind of its source, and the attributes that were added. */
  lemma {:induction false} DoneBase(xxh: Xxh, root: Node, w: Walk, i: nat, x: Inode)
    requires InodeDone(xxh, root, w, i, x)
    ensures InodeBase(root, w, i, x) && InodeBase(root, w, i, Opaque(xxh, x))
    ensures x.xattrs == AddAll(xxh, NO_XATTRS, Pairs(root.meta, w.srcs[i]))
  {
  }

  lemma {:induction false} DoneIsReady(xxh: Xxh, root: Node, w: Walk, i: nat, x: Inode)
    requires FitSources(Fitter(root.meta), w.srcs)
    requires InodeDone(xxh, root, w, i, x)
    ensures i > 0 ==> InodeReady(root, w, i, x)
    ensures i == 0 ==> InodeReady(root, w, i, Opaque(xxh, x))
  {
    DoneBase(xxh, root, w, i, x);
    SourceFits(root, w, i);
    FreshReady(xxh, x.xattrs, Pairs(root.meta, w.srcs[i]));
  }

  lemma {:induction false} FlattenedIsReady(xxh: Xxh, root: Node, w: Walk, inodes: seq<Inode>)
    requires FitSources(Fitter(root.meta), w.srcs)
    requires Flattened(xxh, root, inodes, w)
    ensures inodes != [] && Ready(root, w, inodes[0 := Opaque(xxh, inodes[0])])
  {
    var all := inodes[0 := Opaque(xxh, inodes[0])];
    forall i {:trigger all[i]} | 0 <= i < |all|
      ensures InodeReady(root, w, i, all[i])
    {
      assert InodeDone(xxh, root, w, i, inodes[i]);
      DoneIsReady(xxh, root, w, i, inodes[i]);
    }
  }

  // --- After the sharing ------------------------------------------------------

  /** The attributes of inode `i`, with the shared ones, are those of its source. */
  ghost predicate AttrsAt(root: Node, w: Walk, p: Plan, i: nat)
    requires i < |p.inodes| == |w.srcs|
  {
    var xs := p.inodes[i].xattrs;
    && XattrsFine(p, xs) && (forall x :: x in Pick(p.shared, xs.shared) + xs.local ==> x.prefix < 7)
    && multiset(Names(Pick(p.shared, xs.shared) + xs.local)) == multiset(PairsAt(root.meta, w.srcs[i], i == 0))
  }

  /** The plan is that of the tree, node by node, by the walk `w`. */
  ghost predicate Composed(root: Node, w: Walk, p: Plan) {
    && WalkInv(root, w) && w.queue == [] && GoodSources(root, w.srcs) && |p.inodes| == |w.srcs|
    && Writable(p.shared)
    && forall i {:trigger p.inodes[i]} :: 0 <= i < |p.inodes| ==>
        InodeBase(root, w, i, p.inodes[i]) && AttrsAt(root, w, p, i)
  }

  function Mapped<S, T>(f: S -> T, xs: seq<S>): (r: seq<T>)
    ensures |r| == |xs| && forall i {:trigger r[i]} :: 0 <= i < |xs| ==> r[i] == f(xs[i])
  {
    seq(|xs|, i requires 0 <= i < |xs| => f(xs[i]))
  }

  lemma {:induction false} MappedRemove<S, T>(f: S -> T, xs: seq<S>, k: nat)
    requires k < |xs|
    ensures var rest := xs[..k] + xs[k + 1..];
            && multiset(xs) == multiset(rest) + multiset{xs[k]}
            && multiset(Mapped(f, xs)) == multiset(Mapped(f, rest)) + multiset{f(xs[k])}
  {
    var rest, ns := xs[..k] + xs[k + 1..], Mapped(f, xs);
    assert xs == xs[..k] + [xs[k]] + xs[k + 1..];
    assert ns == ns[..k] + [ns[k]] + ns[k + 1..];
    assert Mapped(f, rest) == ns[..k] + ns[k + 1..];
  }

  /** A permutation of a list is a permutation of its images. */
  lemma {:induction false} MappedPermute<S, T>(f: S -> T, xs: seq<S>, ys: seq<S>)
    requires multiset(xs) == multiset(ys)
    ensures multiset(Mapped(f, xs)) == multiset(Mapped(f, ys))
    decreases |xs|
  {
    if xs == [] {
      assert |multiset(ys)| == 0;
    } else {
      assert xs[0] in multiset(ys);
      var k :| 0 <= k < |ys| && ys[k] == xs[0];
      MappedRemove(f, xs, 0);
      MappedRemove(f, ys, k);
      var a, b := xs[..0] + xs[1..], ys[..k] + ys[k + 1..];
      assert multiset(a) == multiset(xs) - multiset{xs[0]};
      assert multiset(b) == multiset(ys) - multiset{xs[0]};
      MappedPermute(f, a, b);
    }
  }

  lemma {:induction false} NamesAreMapped(xs: seq<LocalXattr>)
    requires forall x :: x in xs ==> x.prefix < 7
    ensures Names(xs) == Mapped(AttrKey, xs)
  {
    forall i | 0 <= i < |xs|
      ensures Names(xs)[i] == Mapped(AttrKey, xs)[i]
    {
      assert xs[i] in xs && AttrKey(xs[i]) == (xs[i].FullKey(), xs[i].value);
    }
  }

  /** A permutation of attributes is a permutation of their names and values. */
  lemma {:induction false} NamesPermute(xs: seq<LocalXattr>, ys: seq<LocalXattr>)
    requires (forall x :: x in xs ==> x.prefix < 7) && (forall y :: y in ys ==> y.prefix < 7)
    requires multiset(xs) == multiset(ys)
    ensures multiset(Names(xs)) == multiset(Names(ys))
  {
    NamesAreMapped(xs);
    NamesAreMapped(ys);
    MappedPermute(AttrKey, xs, ys);
  }

  lemma {:induction false} PickIsResolve(table: seq<LocalXattr>, refs: seq<nat>)
    requires forall i :: 0 <= i < |refs| ==> refs[i] < |table|
    ensures Pick(table, refs) == Share.Resolve(table, refs)
  {
  }

  lemma {:induction false} ValidIsWritable(xs: seq<LocalXattr>)
    requires forall x :: x in xs ==> x.Valid()
    ensures Writable(xs) && forall x :: x in xs ==> x.prefix < 7
  {
  }

  /** The sharing keeps the attributes of an inode. */
  lemma {:induction false} SharedKeeps(before: seq<Inode>, table: seq<LocalXattr>, a: Inode, b: Inode,
                                       pairs: seq<(Blob, Blob)>, all: seq<LocalXattr>)
    requires Holds(a.xattrs, pairs) && Share.InodeShared(AttrKey, AttrLe, before, table, a, b)
    requires all == Share.Resolve(table, b.xattrs.shared) + b.xattrs.local
    ensures Writable(all) && forall x :: x in all ==> x.prefix < 7
    ensures multiset(Names(all)) == multiset(pairs)
    ensures b.xattrs.filter == {} ==> all == []
  {
    assert multiset(all) == multiset(a.xattrs.local);
    SameElements(all, a.xattrs.local);
    ValidIsWritable(all);
    NamesPermute(all, a.xattrs.local);
    if b.xattrs.filter == {} {
      assert |multiset(all)| == 0;
    }
  }

  lemma {:induction false} WritableParts(all: seq<LocalXattr>, a: seq<LocalXattr>, b: seq<LocalXattr>)
    requires all == a + b && Writable(all)
    ensures Writable(b) && (all == [] ==> a == [] && b == [])
  {
    forall x | x in b
      ensures x in all
    {
    }
    assert |all| == |a| + |b|;
  }

  lemma {:induction false} AttrsAreAt(root: Node, w: Walk, p: Plan, i: nat, all: seq<LocalXattr>)
    requires i < |p.inodes| == |w.srcs| && Share.RefsOk(p.shared, p.inodes[i].xattrs.shared)
    requires all == Share.Resolve(p.shared, p.inodes[i].xattrs.shared) + p.inodes[i].xattrs.local
    requires Writable(all) && forall x :: x in all ==> x.prefix < 7
    requires multiset(Names(all)) == multiset(PairsAt(root.meta, w.srcs[i], i == 0))
    requires p.inodes[i].xattrs.filter == {} ==> all == []
    ensures AttrsAt(root, w, p, i)
  {
    var xs := p.inodes[i].xattrs;
    PickIsResolve(p.shared, xs.shared);
    WritableParts(all, Share.Resolve(p.shared, xs.shared), xs.local);
  }

  lemma {:induction false} InodeIsComposed(root: Node, w: Walk, before: seq<Inode>, p: Plan, i: nat)
    requires Ready(root, w, before) && |p.inodes| == |before| && i < |before|
    requires Share.InodeShared(AttrKey, AttrLe, before, p.shared, before[i], p.inodes[i])
    ensures InodeBase(root, w, i, p.inodes[i]) && AttrsAt(root, w, p, i)
  {
    var a, b := before[i], p.inodes[i];
    assert InodeReady(root, w, i, a);
    var all := Share.Resolve(p.shared, b.xattrs.shared) + b.xattrs.local;
    SharedKeeps(before, p.shared, a, b, PairsAt(root.meta, w.srcs[i], i == 0), all);
    AttrsAreAt(root, w, p, i, all);
  }

  lemma {:induction false} SharedIsComposed(root: Node, w: Walk, before: seq<Inode>, p: Plan)
    requires Ready(root, w, before) && |p.inodes| == |before|
    requires forall i :: 0 <= i < |before| ==>
            Share.InodeShared(AttrKey, AttrLe, before, p.shared, before[i], p.inodes[i])
    requires forall x :: x in p.shared ==> x.Valid()
    ensures Composed(root, w, p)
  {
    ValidIsWritable(p.shared);
    forall i {:trigger p.inodes[i]} | 0 <= i < |p.inodes|
      ensures InodeBase(root, w, i, p.inodes[i]) && AttrsAt(root, w, p, i)
    {
      InodeIsComposed(root, w, before, p, i);
    }
  }

  /** The name filter of every inode has exactly the bits of its attributes, the shared ones included. */
  ghost predicate Filtered(xxh: Xxh, p: Plan) {
    forall i {:trigger p.inodes[i]} :: 0 <= i < |p.inodes| ==>
      var xs := p.inodes[i].xattrs;
      (forall j :: 0 <= j < |xs.shared| ==> xs.shared[j] < |p.shared|) &&
      xs.filter == BitsOf(xxh, Pick(p.shared, xs.shared) + xs.local)
  }

  ghost predicate Marked(xxh: Xxh, inodes: seq<Inode>) {
    forall i {:trigger inodes[i]} :: 0 <= i < |inodes| ==>
        inodes[i].xattrs.filter == BitsOf(xxh, inodes[i].xattrs.local)
  }

  lemma {:induction false} DoneIsMarked(xxh: Xxh, root: Node, w: Walk, i: nat, x: Inode)
    requires InodeDone(xxh, root, w, i, x)
    ensures x.xattrs.filter == BitsOf(xxh, x.xattrs.local)
    ensures Opaque(xxh, x).xattrs.filter == BitsOf(xxh, Opaque(xxh, x).xattrs.local)
  {
    AddAllMarks(xxh, NO_XATTRS, Pairs(root.meta, w.srcs[i]));
    BitsSnoc(xxh, x.xattrs.local, Split(OPAQUE, YES));
  }

  lemma {:induction false} FirstMarked(xxh: Xxh, inodes: seq<Inode>, first: Inode)
    requires Marked(xxh, inodes) && inodes != [] && first.xattrs.filter == BitsOf(xxh, first.xattrs.local)
    ensures Marked(xxh, inodes[0 := first])
  {
  }

  lemma {:induction false} FlattenedIsMarked(xxh: Xxh, root: Node, w: Walk, inodes: seq<Inode>)
    requires Flattened(xxh, root, inodes, w) && inodes != []
    ensures Marked(xxh, inodes[0 := Opaque(xxh, inodes[0])])
  {
    forall i {:trigger inodes[i]} | 0 <= i < |inodes|
      ensures inodes[i].xattrs.filter == BitsOf(xxh, inodes[i].xattrs.local)
    {
      DoneIsMarked(xxh, root, w, i, inodes[i]);
    }
    DoneIsMarked(xxh, root, w, 0, inodes[0]);
    FirstMarked(xxh, inodes, Opaque(xxh, inodes[0]));
  }

  /** The sharing moves attributes, so the filter stays exact. */
  lemma {:induction false} SharedIsFiltered(xxh: Xxh, before: seq<Inode>, p: Plan)
    requires Marked(xxh, before) && |p.inodes| == |before|
    requires forall i :: 0 <= i < |before| ==>
            Share.InodeShared(AttrKey, AttrLe, before, p.shared, before[i], p.inodes[i])
    ensures Filtered(xxh, p)
  {
    forall i {:trigger p.inodes[i]} | 0 <= i < |p.inodes|
      ensures var xs := p.inodes[i].xattrs;
              (forall j :: 0 <= j < |xs.shared| ==> xs.shared[j] < |p.shared|) &&
              xs.filter == BitsOf(xxh, Pick(p.shared, xs.shared) + xs.local)
    {
      var a, b := before[i].xattrs, p.inodes[i].xattrs;
      assert Share.InodeShared(AttrKey, AttrLe, before, p.shared, before[i], p.inodes[i]);
      PickIsResolve(p.shared, b.shared);
      var all := Pick(p.shared, b.shared) + b.local;
      assert multiset(all) == multiset(a.local);
      SameElements(all, a.local);
    }
  }

  // --- The checks of the plan -------------------------------------------------

  predicate TimeLe(a: Mtime, b: Mtime) { a.0 < b.0 || (a.0 == b.0 && a.1 <= b.1) }

  /** The least time of the inodes. */
  ghost predicate LeastTime(inodes: seq<Inode>, mm: Mtime) {
    && (exists i :: 0 <= i < |inodes| && inodes[i].mtime == mm)
    && forall i :: 0 <= i < |inodes| ==> TimeLe(mm, inodes[i].mtime)
  }

  method MinTime(inodes: seq<Inode>) returns (mm: Mtime)
    requires inodes != []
    ensures LeastTime(inodes, mm)
  {
    mm := inodes[0].mtime;
    var i := 1;
    while i < |inodes|
      invariant 1 <= i <= |inodes|
      invariant LeastTime(inodes[..i], mm)
    {
      ghost var before := inodes[..i];
      assert inodes[..i + 1] == before + [inodes[i]];
      if !TimeLe(mm, inodes[i].mtime) {
        mm := inodes[i].mtime;
        assert inodes[..i + 1][i].mtime == mm;
      } else {
        ghost var k :| 0 <= k < i && before[k].mtime == mm;
        assert inodes[..i + 1][k].mtime == mm;
      }
      i := i + 1;
    }
    assert inodes[..|inodes|] == inodes;
  }

  predicate IsAcl(x: LocalXattr) { x.prefix == 2 || x.prefix == 3 }

  ghost predicate HasAcl(inodes: seq<Inode>) {
    exists i, x :: 0 <= i < |inodes| && x in inodes[i].xattrs.local && IsAcl(x)
  }

  method AnyAcl(inodes: seq<Inode>) returns (found: bool)
    ensures found <==> HasAcl(inodes)
  {
    var i := 0;
    while i < |inodes|
      invariant 0 <= i <= |inodes| && !HasAcl(inodes[..i])
    {
      var local, j := inodes[i].xattrs.local, 0;
      while j < |local|
        invariant 0 <= j <= |local| && forall k :: 0 <= k < j ==> !IsAcl(local[k])
      {
        if IsAcl(local[j]) {
          assert local[j] in inodes[i].xattrs.local;
          return true;
        }
        j := j + 1;
      }
      i := i + 1;
    }
    return false;
  }

  /** A symlink inode leaves at least one byte of its block free. */
  predicate SymlinkOk(x: Inode, mm: Mtime) {
    x.kind.SymlinkKind? ==> HeaderSize(x, mm) + x.xattrs.ByteSize() + |x.kind.target| < 4096
  }

  predicate SymlinksOk(p: Plan) {
    forall i :: 0 <= i < |p.inodes| ==> SymlinkOk(p.inodes[i], p.mm)
  }

  method CheckSymlinks(p: Plan) returns (ok: bool)
    ensures ok <==> SymlinksOk(p)
  {
    var i := 0;
    while i < |p.inodes|
      invariant 0 <= i <= |p.inodes| && forall k :: 0 <= k < i ==> SymlinkOk(p.inodes[k], p.mm)
    {
      if !SymlinkOk(p.inodes[i], p.mm) {
        return false;
      }
      i := i + 1;
    }
    return true;
  }

  /** No xattr area is larger than its count field tells; the writer panics on one that is. */
  predicate AreasOk(p: Plan) {
    forall i :: 0 <= i < |p.inodes| ==> p.inodes[i].xattrs.Icount() <= 0xFFFF
  }

  // --- Every reference of the plan is inside it --------------------------------

  lemma {:induction false} FlattenMember(blocks: seq<seq<DirEnt>>, k: nat, e: DirEnt)
    requires k < |blocks| && e in blocks[k]
    ensures e in Flatten(blocks)
  {
    if k < |blocks| - 1 {
      FlattenMember(blocks[..|blocks| - 1], k, e);
    }
  }

  /** An entry of an inode list of `n` inodes. */
  ghost predicate EntryFine(n: nat, e: DirEnt) { e.inode < n && e.fileType < 256 }

  lemma {:induction false} EntriesFine(root: Node, w: Walk, i: nat)
    requires WalkInv(root, w) && i in w.bases
    ensures i < |w.srcs| == |w.pars| && IsDir(w.srcs[i])
    ensures forall e :: e in DirEntries(i, w.pars[i], w.bases[i], ChildrenOf(w, i)) ==> EntryFine(|w.srcs|, e)
  {
    assert Placed(w, i);
    assert i > 0 ==> IsChildInode(w, i);
    ListFine(i, w.pars[i], w.bases[i], ChildrenOf(w, i), |w.srcs|);
  }

  /** The entries of a directory whose children end before inode `n`. */
  lemma {:induction false} ListFine(me: nat, parent: nat, base: nat, ms: seq<Entry>, n: nat)
    requires me < n && parent < n && base + |ms| <= n
    ensures forall e :: e in DirEntries(me, parent, base, ms) ==> EntryFine(n, e)
  {
    var all := [DirEnt(DOT, me, FT_DIR), DirEnt(DOTDOT, parent, FT_DIR)] + EntsOf(ms, base);
    SortPermutes(KeyLe(EntName), all);
    SameElements(DirEntries(me, parent, base, ms), all);
    forall e | e in all
      ensures EntryFine(n, e)
    {
      var k :| 0 <= k < |all| && all[k] == e;
      assert k >= 2 ==> e == EntsOf(ms, base)[k - 2];
    }
  }

  lemma {:induction false} PackedFine(n: nat, entries: seq<DirEnt>, d: DirData)
    requires Packed(entries, d) && forall e :: e in entries ==> EntryFine(n, e)
    ensures forall k, e :: 0 <= k < |d.blocks| && e in d.blocks[k] ==> EntryFine(n, e)
    ensures forall e :: e in d.inline ==> EntryFine(n, e)
    ensures DirFine(d)
  {
    forall k, e | 0 <= k < |d.blocks| && e in d.blocks[k]
      ensures EntryFine(n, e)
    {
      FlattenMember(d.blocks, k, e);
    }
    forall e | e in d.inline
      ensures EntryFine(n, e)
    {
      assert e in Flatten(d.blocks) + d.inline;
    }
    forall k | 0 <= k < |d.blocks|
      ensures FullBlock(d.blocks[k]) && Typed(d.blocks[k])
    {
      forall m {:trigger d.blocks[k][m]} | 0 <= m < |d.blocks[k]|
        ensures d.blocks[k][m].fileType < 256
      {
        assert d.blocks[k][m] in d.blocks[k] && EntryFine(n, d.blocks[k][m]);
      }
    }
    forall m {:trigger d.inline[m]} | 0 <= m < |d.inline|
      ensures d.inline[m].fileType < 256
    {
      assert d.inline[m] in d.inline && EntryFine(n, d.inline[m]);
    }
  }

  lemma {:induction false} ComposedDir(root: Node, w: Walk, p: Plan, i: nat)
    requires Composed(root, w, p) && i < |p.inodes| && IsDir(w.srcs[i])
    ensures i in w.bases && p.inodes[i].kind.DirKind? && DirFine(p.inodes[i].kind.dir)
    ensures Packed(DirEntries(i, w.pars[i], w.bases[i], ChildrenOf(w, i)), p.inodes[i].kind.dir)
    ensures forall k, e :: 0 <= k < |p.inodes[i].kind.dir.blocks| && e in p.inodes[i].kind.dir.blocks[k] ==>
            EntryFine(|p.inodes|, e)
    ensures forall e :: e in p.inodes[i].kind.dir.inline ==> EntryFine(|p.inodes|, e)
  {
    assert InodeBase(root, w, i, p.inodes[i]);
    EntriesFine(root, w, i);
    PackedFine(|p.inodes|, DirEntries(i, w.pars[i], w.bases[i], ChildrenOf(w, i)), p.inodes[i].kind.dir);
  }

  lemma {:induction false} ListClosed(p: Plan, es: seq<DirEnt>)
    requires forall e :: e in es ==> EntryFine(|p.inodes|, e)
    ensures EntsClosed(p, es)
  {
    forall i | 0 <= i < |es|
      ensures es[i].inode < |p.inodes|
    {
      assert es[i] in es;
    }
  }

  lemma {:induction false} DirClosed(p: Plan, entries: seq<DirEnt>, d: DirData)
    requires Packed(entries, d) && |entries| >= 2
    requires forall k, e :: 0 <= k < |d.blocks| && e in d.blocks[k] ==> EntryFine(|p.inodes|, e)
    requires forall e :: e in d.inline ==> EntryFine(|p.inodes|, e)
    ensures EntsClosed(p, d.inline) && (d.inline != [] || d.blocks != [])
    ensures forall k :: 0 <= k < |d.blocks| ==> EntsClosed(p, d.blocks[k]) && FullBlock(d.blocks[k])
  {
    ListClosed(p, d.inline);
    forall k | 0 <= k < |d.blocks|
      ensures EntsClosed(p, d.blocks[k]) && FullBlock(d.blocks[k])
    {
      ListClosed(p, d.blocks[k]);
    }
    assert |Flatten(d.blocks) + d.inline| > 0;
  }

  lemma {:induction false} EntriesCount(me: nat, parent: nat, base: nat, ms: seq<Entry>)
    ensures |DirEntries(me, parent, base, ms)| >= 2
  {
    var all := [DirEnt(DOT, me, FT_DIR), DirEnt(DOTDOT, parent, FT_DIR)] + EntsOf(ms, base);
    SortPermutes(KeyLe(EntName), all);
    assert |multiset(DirEntries(me, parent, base, ms))| == |multiset(all)|;
  }

  lemma {:induction false} ComposedInode(root: Node, w: Walk, p: Plan, i: nat)
    requires Composed(root, w, p) && i < |p.inodes|
    ensures InodeClosed(p, p.inodes[i])
    ensures p.inodes[i].kind.DirKind? <==> IsDir(w.srcs[i])
    ensures p.inodes[i].kind.DirKind? ==> p.inodes[i].kind.dir.inline != [] || p.inodes[i].kind.dir.blocks != []
  {
    assert InodeBase(root, w, i, p.inodes[i]) && AttrsAt(root, w, p, i);
    if IsDir(w.srcs[i]) {
      ComposedDir(root, w, p, i);
      EntriesCount(i, w.pars[i], w.bases[i], ChildrenOf(w, i));
      DirClosed(p, DirEntries(i, w.pars[i], w.bases[i], ChildrenOf(w, i)), p.inodes[i].kind.dir);
    }
  }

  lemma {:induction false} ComposedCloses(root: Node, w: Walk, p: Plan)
    requires Composed(root, w, p)
    ensures Closed(p)
    ensures AreasOk(p) ==> Shaped(p)
  {
    forall i | 0 <= i < |p.inodes|
      ensures InodeClosed(p, p.inodes[i]) && (AreasOk(p) ==> InodeShaped(p.inodes[i]))
    {
      ComposedInode(root, w, p, i);
    }
  }

  // --- The plan ---------------------------------------------------------------

  datatype PlanResult =
    | BadName
    | LongAttr
    | LongSymlink(plan: Plan)
    | LargeArea(plan: Plan)
    | Planned(plan: Plan, layout: Layout, size: nat)

  predicate HasPlan(r: PlanResult) { !r.BadName? && !r.LongAttr? }

  /** The attributes of a list of inodes. */
  ghost function AllAttrs(inodes: seq<Inode>): set<LocalXattr> {
    set i, x | 0 <= i < |inodes| && x in inodes[i].xattrs.local :: x
  }

  lemma {:induction false} ReadyAttrs(root: Node, w: Walk, inodes: seq<Inode>)
    requires Ready(root, w, inodes)
    ensures forall x :: x in AllAttrs(inodes) ==> x.Valid()
  {
    forall x | x in AllAttrs(inodes)
      ensures x.Valid()
    {
      var i :| 0 <= i < |inodes| && x in inodes[i].xattrs.local;
      assert InodeReady(root, w, i, inodes[i]);
    }
  }

  /** The shared table is that of the inode list before the sharing: the attributes that occur more than once. */
  ghost predicate TableOf(root: Node, w: Walk, p: Plan) {
    exists before: seq<Inode> :: Ready(root, w, before) && Share.TableShared(AttrKey, before, p.shared)
  }

  /** Shares the attributes of a copy of the list. */
  method ShareList(inodes: seq<Inode>) returns (list: seq<Inode>, shared: seq<LocalXattr>)
    requires forall x :: x in AllAttrs(inodes) ==> x.Valid()
    ensures |list| == |inodes| && Share.TableShared(AttrKey, inodes, shared)
    ensures forall x :: x in shared ==> x.Valid()
    ensures forall i :: 0 <= i < |inodes| ==> Share.InodeShared(AttrKey, AttrLe, inodes, shared, inodes[i], list[i])
  {
    var cells := new Inode[|inodes|](i requires 0 <= i < |inodes| => inodes[i]);
    assert cells[..] == inodes;
    ghost var all := AllAttrs(inodes);
    KeysTell(all);
    AttrOrder();
    shared := Share.ShareXattrs(AttrKey, AttrLe, cells, all);
    list := cells[..];
  }

  /** Shares the attributes of the ready inodes. */
  method SharePlan(root: Node, ghost w: Walk, inodes: seq<Inode>) returns (p: Plan)
    requires Ready(root, w, inodes) && inodes != []
    ensures Composed(root, w, p) && LeastTime(p.inodes, p.mm) && TableOf(root, w, p)
    ensures p.flags == if HasAcl(inodes) then 1 else 0
    ensures Share.TableShared(AttrKey, inodes, p.shared)
    ensures forall i :: 0 <= i < |inodes| ==>
              i < |p.inodes| && Share.InodeShared(AttrKey, AttrLe, inodes, p.shared, inodes[i], p.inodes[i])
  {
    var acl := AnyAcl(inodes);
    ReadyAttrs(root, w, inodes);
    var list, shared := ShareList(inodes);
    var mm := MinTime(list);
    p := Plan(list, shared, mm, if acl then 1 else 0);
    SharedIsComposed(root, w, inodes, p);
  }

  /**
   Plans the image: collect the inodes, make the root opaque, share the
   attributes, check the symlinks and run the sizing pass. `LongAttr` is the
   panic of `add` on an attribute that its length fields cannot hold, `LargeArea`
   the panic of the sizing pass on an xattr area that its count field cannot hold.
   */
  method MakePlan(xxh: Xxh, root: Node) returns (r: PlanResult, ghost w: Walk)
    requires root.Directory? && ValidNode(root)
    ensures r.BadName? || r.LongAttr? <==> !TreeNamesOk(root) || !XattrsFit(root.meta, root)
    ensures r.BadName? ==> !TreeNamesOk(root) && StoppedByName(Fitter(root.meta), root, w)
    ensures r.LongAttr? ==> !XattrsFit(root.meta, root) && StoppedByAttr(Fitter(root.meta), root, w)
    ensures HasPlan(r) ==> Composed(root, w, r.plan) && LeastTime(r.plan.inodes, r.plan.mm)
    ensures HasPlan(r) ==> TableOf(root, w, r.plan) && Filtered(xxh, r.plan)
    ensures HasPlan(r) ==> (r.LongSymlink? <==> !SymlinksOk(r.plan))
    ensures HasPlan(r) && !r.LongSymlink? ==> (r.LargeArea? <==> !AreasOk(r.plan))
    ensures r.Planned? ==> Closed(r.plan) && Shaped(r.plan)
    ensures r.Planned? ==> r.layout == LayoutOf(r.plan) && r.size == BlocksLen(r.plan, |r.plan.inodes|)
  {
    var collected;
    collected, w := CollectInodes(xxh, root);
    if collected.NameRefused? {
      return BadName, w;
    }
    if collected.AttrTooLong? {
      return LongAttr, w;
    }
    var inodes := collected.list;
    FlattenedIsReady(xxh, root, w, inodes);
    FlattenedIsMarked(xxh, root, w, inodes);
    inodes := inodes[0 := Opaque(xxh, inodes[0])];
    var p := SharePlan(root, w, inodes);
    SharedIsFiltered(xxh, inodes, p);
    var ok := CheckSymlinks(p);
    if !ok {
      return LongSymlink(p), w;
    }
    if !AreasOk(p) {
      return LargeArea(p), w;
    }
    ComposedCloses(root, w, p);
    var layout, size := SizePlan(p);
    return Planned(p, layout, size), w;
  }

  // --- The whole writer -------------------------------------------------------

  datatype WriteResult =
    | Refused
    | Panicked
    | Failed(kept: Blob)
    | Written(image: Blob, digest: Hash)

  /** The digest that the hasher of the emitting pass gives for the image. */
  method HashImage(sha: Sha, data: Blob) returns (digest: Hash)
    ensures CarryVisible(sha, Height(|Leaves(sha, data)|), Leaves(sha, data)) ==> digest == Digest(sha, data)
  {
    var hasher := new FsVerityHasher(sha);
    hasher.Update(data);
    assert [] + data == data;
    digest := hasher.Finalize();
  }

  /**
   Writes the image of the tree through a sink that takes `room` bytes, if that is
   given, and then fails. A tree is refused before the first write. A written
   image is the image of the plan, and its digest is the fs-verity digest. A sink
   fails exactly if it has no room for the image, and keeps what it has room for.
   */
  method WriteImage(xxh: Xxh, sha: Sha, root: Node, room: Option<nat>)
    returns (r: WriteResult, ghost plan: Option<Plan>, ghost w: Walk)
    requires root.Directory? && ValidNode(root)
    ensures plan.Some? <==> TreeNamesOk(root) && XattrsFit(root.meta, root)
    ensures plan.None? ==>
              || (r.Refused? && !TreeNamesOk(root) && StoppedByName(Fitter(root.meta), root, w))
              || (r.Panicked? && !XattrsFit(root.meta, root) && StoppedByAttr(Fitter(root.meta), root, w))
    ensures plan.Some? ==> Composed(root, w, plan.value) && LeastTime(plan.value.inodes, plan.value.mm)
    ensures plan.Some? ==> TableOf(root, w, plan.value) && Filtered(xxh, plan.value) && Closed(plan.value)
    ensures plan.Some? ==> (r.Refused? <==> !SymlinksOk(plan.value))
    ensures plan.Some? ==> (r.Panicked? <==> SymlinksOk(plan.value) && !AreasOk(plan.value))
    ensures r.Failed? || r.Written? ==>
              (r.Failed? <==> room.Some? && room.value < |FinalImage(plan.value)|)
    ensures r.Failed? ==> r.kept <= FinalImage(plan.value) && room == Some(|r.kept|)
    ensures r.Written? ==> r.image == FinalImage(plan.value)
    ensures r.Written? && CarryVisible(sha, Height(|Leaves(sha, r.image)|), Leaves(sha, r.image)) ==>
              r.digest == Digest(sha, r.image)
  {
    var planned;
    planned, w := MakePlan(xxh, root);
    match planned
    case BadName =>
      return Refused, None, w;
    case LongAttr =>
      return Panicked, None, w;
    case LongSymlink(p) =>
      ComposedCloses(root, w, p);
      return Refused, Some(p), w;
    case LargeArea(p) =>
      ComposedCloses(root, w, p);
      return Panicked, Some(p), w;
    case Planned(p, layout, size) =>
      var ok, sink, hashed := EmitPlan(p, layout, size, room);
      if !ok {
        return Failed(sink), Some(p), w;
      }
      var digest := HashImage(sha, hashed);
      return Written(sink, digest), Some(p), w;
  }
}
