/** The breadth-first collection of the inode list, with the root whiteout stubs. */
module Collect {
  import opened Bytes
  import opened Order
  import opened Xattrs
  import opened DirPack
  import opened Tree
  import opened Inodes

  datatype Entry = Entry(name: Blob, source: Source)

  function EntryName(e: Entry): Blob { e.name }

  function EntName(e: DirEnt): Blob { e.name }

  // --- The children of a directory --------------------------------------------

  function HexDigit(d: nat): byte
    requires d < 16
  {
    if d < 10 then 48 + d else 87 + d
  }

  /** The stub name `00` to `ff`. */
  function StubName(i: nat): Blob
    requires i < 256
  {
    [HexDigit(i / 16), HexDigit(i % 16)]
  }

  predicate HasName(cs: seq<Child>, name: Blob) {
    exists k :: 0 <= k < |cs| && cs[k].name == name
  }

  function RealEntries(cs: seq<Child>): (r: seq<Entry>)
    ensures |r| == |cs|
  {
    seq(|cs|, i requires 0 <= i < |cs| => Entry(cs[i].name, Real(cs[i].node)))
  }

  /** The stubs below `n` that no child replaces. */
  function Stubs(cs: seq<Child>, n: nat): seq<Entry>
    requires n <= 256
  {
    if n == 0 then []
    else Stubs(cs, n - 1) + (if HasName(cs, StubName(n - 1)) then [] else [Entry(StubName(n - 1), Whiteout)])
  }

  function Merged(cs: seq<Child>, isRoot: bool): seq<Entry> {
    Sort(KeyLe(EntryName), RealEntries(cs) + (if isRoot then Stubs(cs, 256) else []))
  }

  method MergedChildren(cs: seq<Child>, isRoot: bool) returns (out: seq<Entry>)
    ensures out == Merged(cs, isRoot)
  {
    out := RealEntries(cs);
    if isRoot {
      var i := 0;
      while i < 256
        invariant 0 <= i <= 256
        invariant out == RealEntries(cs) + Stubs(cs, i)
      {
        var name := StubName(i);
        if !HasName(cs, name) {
          out := out + [Entry(name, Whiteout)];
        }
        i := i + 1;
      }
    } else {
      assert out + [] == out;
    }
    out := Sort(KeyLe(EntryName), out);
  }

  lemma {:induction false} StubsDistinct(cs: seq<Child>, n: nat)
    requires n <= 256
    ensures DistinctKeys(EntryName, Stubs(cs, n))
    ensures forall e :: e in Stubs(cs, n) ==> e.source == Whiteout && !HasName(cs, e.name)
    ensures forall e :: e in Stubs(cs, n) ==> exists i :: 0 <= i < n && e.name == StubName(i)
    ensures forall i :: 0 <= i < n && !HasName(cs, StubName(i)) ==> Entry(StubName(i), Whiteout) in Stubs(cs, n)
  {
    if n > 0 {
      StubsDistinct(cs, n - 1);
      var before := Stubs(cs, n - 1);
      forall k | 0 <= k < |before|
        ensures before[k].name != StubName(n - 1)
      {
        assert before[k] in before;
      }
    }
  }

  ghost predicate IsChild(cs: seq<Child>, e: Entry) {
    exists k :: 0 <= k < |cs| && e == Entry(cs[k].name, Real(cs[k].node))
  }

  /** A stub that no child replaces. */
  ghost predicate IsStub(cs: seq<Child>, e: Entry) {
    e.source == Whiteout && !HasName(cs, e.name) && exists i :: 0 <= i < 256 && e.name == StubName(i)
  }

  lemma {:induction false} RealMembers(cs: seq<Child>, e: Entry)
    ensures e in RealEntries(cs) <==> IsChild(cs, e)
  {
    var reals := RealEntries(cs);
    if e in reals {
      var k :| 0 <= k < |reals| && reals[k] == e;
    }
    if IsChild(cs, e) {
      var k :| 0 <= k < |cs| && e == Entry(cs[k].name, Real(cs[k].node));
      assert reals[k] == e;
    }
  }

  lemma {:induction false} StubMembers(cs: seq<Child>, e: Entry)
    ensures e in Stubs(cs, 256) <==> IsStub(cs, e)
  {
    StubsDistinct(cs, 256);
  }

  lemma {:induction false} UnsortedDistinct(cs: seq<Child>, stubs: seq<Entry>)
    requires StrictlySorted(cs) && DistinctKeys(EntryName, stubs)
    requires forall e :: e in stubs ==> !HasName(cs, e.name)
    ensures DistinctKeys(EntryName, RealEntries(cs) + stubs)
  {
    var all := RealEntries(cs) + stubs;
    forall i, j | 0 <= i < j < |all|
      ensures EntryName(all[i]) != EntryName(all[j])
    {
      if j < |cs| {
        LessTotal(cs[i].name, cs[j].name);
      } else if i < |cs| {
        assert all[j] in stubs;
        assert cs[i].name == all[i].name;
      } else {
        assert all[i] == stubs[i - |cs|] && all[j] == stubs[j - |cs|];
      }
    }
  }

  /** The children and the stubs that no child replaces, strictly sorted by name. */
  lemma {:induction false} MergedHolds(cs: seq<Child>, isRoot: bool)
    requires StrictlySorted(cs)
    ensures StrictKeys(EntryName, Merged(cs, isRoot))
    ensures forall e :: e in Merged(cs, isRoot) <==> IsChild(cs, e) || (isRoot && IsStub(cs, e))
  {
    var stubs := if isRoot then Stubs(cs, 256) else [];
    StubsDistinct(cs, 256);
    UnsortedDistinct(cs, stubs);
    var all := RealEntries(cs) + stubs;
    SortByKey(EntryName, all);
    SameElements(Merged(cs, isRoot), all);
    forall e
      ensures e in all <==> IsChild(cs, e) || (isRoot && IsStub(cs, e))
    {
      RealMembers(cs, e);
      StubMembers(cs, e);
    }
  }

  // --- The walk ---------------------------------------------------------------

  datatype Job = Job(dir: Node, me: nat, parent: nat, isRoot: bool)

  predicate IsDir(s: Source) { s.Real? && s.node.Directory? }

  function Sources(ms: seq<Entry>): (r: seq<Source>)
    ensures |r| == |ms|
  {
    seq(|ms|, j requires 0 <= j < |ms| => ms[j].source)
  }

  function Repeat(x: nat, n: nat): (r: seq<nat>)
    ensures |r| == n && forall i :: 0 <= i < n ==> r[i] == x
  {
    seq(n, _ => x)
  }

  /** The jobs of the subdirectories among `ms`, whose inodes start at `base`. */
  function Jobs(ms: seq<Entry>, base: nat, me: nat): seq<Job> {
    if ms == [] then []
    else
      var last := ms[|ms| - 1];
      Jobs(ms[..|ms| - 1], base, me) +
      (if IsDir(last.source) then [Job(last.source.node, base + |ms| - 1, me, false)] else [])
  }

  /**
   The state of the breadth-first walk: the source and the parent of each inode,
   the first child of each directory that is done, and the directories to do.
   */
  datatype Walk = Walk(srcs: seq<Source>, pars: seq<nat>, bases: map<nat, nat>, queue: seq<Job>)

  function Start(root: Node): Walk {
    Walk([Real(root)], [0], map[], [Job(root, 0, 0, true)])
  }

  /** The first directory of the queue gets its children. */
  function Expand(w: Walk): Walk
    requires w.queue != [] && w.queue[0].dir.Directory?
  {
    var job := w.queue[0];
    var ms := Merged(job.dir.children, job.isRoot);
    var base := |w.srcs|;
    Walk(w.srcs + Sources(ms), w.pars + Repeat(job.me, |ms|), w.bases[job.me := base],
         w.queue[1..] + Jobs(ms, base, job.me))
  }

  /** The children of inode `i`, in the order of their inodes. */
  function ChildrenOf(w: Walk, i: nat): seq<Entry>
    requires i < |w.srcs| && IsDir(w.srcs[i])
  {
    Merged(w.srcs[i].node.children, i == 0)
  }

  /** The children of `i` have consecutive inodes from `bases[i]` on, after `i`, with parent `i`. */
  ghost predicate Placed(w: Walk, i: nat) {
    && i in w.bases && i < |w.srcs| == |w.pars| && IsDir(w.srcs[i])
    && var ms, b := ChildrenOf(w, i), w.bases[i];
    && i < b && b + |ms| <= |w.srcs|
    && w.srcs[b..b + |ms|] == Sources(ms)
    && w.pars[b..b + |ms|] == Repeat(i, |ms|)
  }

  lemma {:induction false} PlacedAt(w: Walk, i: nat, j: nat)
    requires Placed(w, i) && j < |ChildrenOf(w, i)|
    ensures w.srcs[w.bases[i] + j] == ChildrenOf(w, i)[j].source
    ensures w.pars[w.bases[i] + j] == i
  {
    var ms, b := ChildrenOf(w, i), w.bases[i];
    assert w.srcs[b + j] == w.srcs[b..b + |ms|][j];
    assert w.pars[b + j] == w.pars[b..b + |ms|][j];
  }

  ghost predicate JobOk(w: Walk, job: Job) {
    && job.me < |w.srcs| == |w.pars|
    && w.srcs[job.me] == Real(job.dir) && job.dir.Directory?
    && w.pars[job.me] == job.parent && job.isRoot == (job.me == 0)
    && job.me !in w.bases
  }

  /** Inode `c` is one of the children of its parent. */
  ghost predicate IsChildInode(w: Walk, c: nat) {
    && c < |w.srcs| == |w.pars|
    && var p := w.pars[c];
    && p in w.bases && p < |w.srcs| && IsDir(w.srcs[p])
    && w.bases[p] <= c < w.bases[p] + |ChildrenOf(w, p)|
  }

  ghost predicate Queued(queue: seq<Job>, i: nat) {
    exists k :: 0 <= k < |queue| && queue[k].me == i
  }

  ghost predicate DistinctJobs(queue: seq<Job>) {
    forall k, l :: 0 <= k < l < |queue| ==> queue[k].me != queue[l].me
  }

  ghost predicate WalkInv(root: Node, w: Walk) {
    && root.Directory?
    && 1 <= |w.srcs| == |w.pars| && w.srcs[0] == Real(root) && w.pars[0] == 0
    && (forall job :: job in w.queue ==> JobOk(w, job))
    && DistinctJobs(w.queue)
    && (forall i {:trigger w.srcs[i]} :: 0 <= i < |w.srcs| && IsDir(w.srcs[i]) ==> i in w.bases || Queued(w.queue, i))
    && (forall i :: i in w.bases ==> Placed(w, i))
    && (forall c :: 1 <= c < |w.srcs| ==> IsChildInode(w, c))
  }

  lemma {:induction false} JobsHold(ms: seq<Entry>, base: nat, me: nat)
    ensures forall job :: job in Jobs(ms, base, me) ==>
              && base <= job.me < base + |ms|
              && ms[job.me - base].source == Real(job.dir) && job.dir.Directory?
              && job.parent == me && !job.isRoot
    ensures DistinctJobs(Jobs(ms, base, me))
    ensures forall j :: 0 <= j < |ms| && IsDir(ms[j].source) ==> Queued(Jobs(ms, base, me), base + j)
  {
    if ms != [] {
      var init := ms[..|ms| - 1];
      JobsHold(init, base, me);
      var js, all := Jobs(init, base, me), Jobs(ms, base, me);
      forall j | 0 <= j < |ms| && IsDir(ms[j].source)
        ensures Queued(all, base + j)
      {
        if j < |init| {
          assert IsDir(init[j].source);
          var k :| 0 <= k < |js| && js[k].me == base + j;
          assert all[k].me == base + j;
        } else {
          assert all[|js|].me == base + j;
        }
      }
      forall k, l | 0 <= k < l < |all|
        ensures all[k].me != all[l].me
      {
        assert all[k] in js;
        if l < |js| {
          assert all[l] == js[l];
        }
      }
    }
  }

  lemma {:induction false} ExpandKeepsPlaced(w: Walk, i: nat)
    requires w.queue != [] && JobOk(w, w.queue[0]) && Placed(w, i)
    ensures Placed(Expand(w), i)
  {
    var v := Expand(w);
    var ms, b := ChildrenOf(w, i), w.bases[i];
    assert v.srcs[b..b + |ms|] == w.srcs[b..b + |ms|];
    assert v.pars[b..b + |ms|] == w.pars[b..b + |ms|];
  }

  lemma {:induction false} ExpandPlaces(root: Node, w: Walk)
    requires WalkInv(root, w) && w.queue != [] && JobOk(w, w.queue[0])
    ensures Placed(Expand(w), w.queue[0].me)
  {
    var v, job := Expand(w), w.queue[0];
    var ms, b := ChildrenOf(v, job.me), |w.srcs|;
    assert v.srcs[b..b + |ms|] == Sources(ms);
    assert v.pars[b..b + |ms|] == Repeat(job.me, |ms|);
  }

  lemma {:induction false} ExpandKeepsChild(root: Node, w: Walk, c: nat)
    requires WalkInv(root, w) && w.queue != [] && JobOk(w, w.queue[0])
    requires 1 <= c < |Expand(w).srcs|
    ensures IsChildInode(Expand(w), c)
  {
    var v := Expand(w);
    if c < |w.srcs| {
      assert IsChildInode(w, c);
      assert v.pars[c] == w.pars[c];
    } else {
      assert v.pars[c] == w.queue[0].me;
    }
  }

  lemma {:induction false} OldJob(root: Node, w: Walk, k: nat)
    requires WalkInv(root, w) && w.queue != [] && JobOk(w, w.queue[0]) && 0 < k < |w.queue|
    ensures JobOk(Expand(w), w.queue[k]) && w.queue[k].me < |w.srcs|
  {
    assert w.queue[k] in w.queue && JobOk(w, w.queue[k]);
    assert w.queue[0].me != w.queue[k].me;
    assert Expand(w).srcs[w.queue[k].me] == w.srcs[w.queue[k].me];
  }

  lemma {:induction false} NewJob(w: Walk, ms: seq<Entry>, job: Job)
    requires w.queue != [] && JobOk(w, w.queue[0]) && (forall i :: i in w.bases ==> Placed(w, i))
    requires ms == Merged(w.queue[0].dir.children, w.queue[0].isRoot)
    requires job in Jobs(ms, |w.srcs|, w.queue[0].me)
    ensures JobOk(Expand(w), job) && job.me >= |w.srcs|
  {
    JobsHold(ms, |w.srcs|, w.queue[0].me);
    assert Expand(w).srcs[job.me] == ms[job.me - |w.srcs|].source;
    assert job.me in w.bases ==> Placed(w, job.me);
  }

  lemma {:induction false} DistinctConcat(a: seq<Job>, b: seq<Job>, base: nat)
    requires DistinctJobs(a) && DistinctJobs(b)
    requires (forall k :: 0 <= k < |a| ==> a[k].me < base) && (forall k :: 0 <= k < |b| ==> base <= b[k].me)
    ensures DistinctJobs(a + b)
  {
  }

  lemma {:induction false} ExpandJobs(root: Node, w: Walk)
    requires WalkInv(root, w) && w.queue != [] && JobOk(w, w.queue[0])
    ensures forall job :: job in Expand(w).queue ==> JobOk(Expand(w), job)
    ensures DistinctJobs(Expand(w).queue)
  {
    var ms := Merged(w.queue[0].dir.children, w.queue[0].isRoot);
    var rest, js := w.queue[1..], Jobs(ms, |w.srcs|, w.queue[0].me);
    JobsHold(ms, |w.srcs|, w.queue[0].me);
    forall k | 0 <= k < |rest|
      ensures JobOk(Expand(w), rest[k]) && rest[k].me < |w.srcs|
    {
      OldJob(root, w, k + 1);
    }
    forall k | 0 <= k < |js|
      ensures JobOk(Expand(w), js[k]) && js[k].me >= |w.srcs|
    {
      NewJob(w, ms, js[k]);
    }
    assert DistinctJobs(rest);
    DistinctConcat(rest, js, |w.srcs|);
  }

  lemma {:induction false} ExpandCovers(w: Walk, i: nat)
    requires w.queue != [] && JobOk(w, w.queue[0])
    requires i < |Expand(w).srcs| && IsDir(Expand(w).srcs[i])
    requires i < |w.srcs| ==> i in w.bases || Queued(w.queue, i)
    ensures i in Expand(w).bases || Queued(Expand(w).queue, i)
  {
    var v, first := Expand(w), w.queue[0];
    var ms, base := Merged(first.dir.children, first.isRoot), |w.srcs|;
    JobsHold(ms, base, first.me);
    var js := Jobs(ms, base, first.me);
    if i < base {
      if i !in w.bases && i != first.me {
        var k :| 0 <= k < |w.queue| && w.queue[k].me == i;
        assert v.queue[k - 1].me == i;
      }
    } else {
      assert v.srcs[i] == ms[i - base].source;
      assert Queued(js, base + (i - base));
      var k :| 0 <= k < |js| && js[k].me == i;
      assert v.queue[|w.queue| - 1 + k].me == i;
    }
  }

  /** One step of the walk keeps all that is known of it. */
  lemma {:induction false} ExpandKeeps(root: Node, w: Walk)
    requires WalkInv(root, w) && w.queue != []
    ensures JobOk(w, w.queue[0]) && WalkInv(root, Expand(w))
  {
    assert w.queue[0] in w.queue;
    var v := Expand(w);
    ExpandJobs(root, w);
    forall i | 0 <= i < |v.srcs| && IsDir(v.srcs[i])
      ensures i in v.bases || Queued(v.queue, i)
    {
      if i < |w.srcs| {
        assert v.srcs[i] == w.srcs[i];
      }
      ExpandCovers(w, i);
    }
    forall i | i in v.bases
      ensures Placed(v, i)
    {
      if i == w.queue[0].me {
        ExpandPlaces(root, w);
      } else {
        ExpandKeepsPlaced(w, i);
      }
    }
    forall c | 1 <= c < |v.srcs|
      ensures IsChildInode(v, c)
    {
      ExpandKeepsChild(root, w, c);
    }
  }

  // --- What every source of the walk inherits from the root --------------------

  ghost predicate GoodNode(root: Node, n: Node) {
    ValidNode(n) && (TreeNamesOk(root) ==> TreeNamesOk(n))
  }

  ghost predicate GoodSources(root: Node, srcs: seq<Source>) {
    forall s :: s in srcs && s.Real? ==> GoodNode(root, s.node)
  }

  lemma {:induction false} ExpandGood(root: Node, w: Walk)
    requires WalkInv(root, w) && w.queue != [] && JobOk(w, w.queue[0])
    requires GoodSources(root, w.srcs)
    ensures GoodSources(root, Expand(w).srcs)
  {
    var job := w.queue[0];
    assert w.srcs[job.me] in w.srcs;
    forall s | s in Expand(w).srcs && s.Real?
      ensures GoodNode(root, s.node)
    {
      if s !in w.srcs {
        var k := MergedFromChild(job.dir.children, job.isRoot, s);
      }
    }
  }

  /** The attributes of every inode are within their limits. */
  ghost predicate FitSources(fit: Source -> bool, srcs: seq<Source>) {
    forall s :: s in srcs ==> fit(s)
  }

  /** If the limits hold in the whole tree, they hold below every inode. */
  ghost predicate FitBelow(fit: Source -> bool, root: Node, srcs: seq<Source>) {
    TreeFits(fit, root) ==> forall s :: s in srcs && s.Real? ==> TreeFits(fit, s.node)
  }

  lemma {:induction false} MergedFromChild(cs: seq<Child>, isRoot: bool, s: Source) returns (k: nat)
    requires StrictlySorted(cs) && s in Sources(Merged(cs, isRoot)) && s.Real?
    ensures k < |cs| && s == Real(cs[k].node)
  {
    MergedHolds(cs, isRoot);
    var ms := Merged(cs, isRoot);
    var j :| 0 <= j < |ms| && ms[j].source == s;
    assert ms[j] in ms;
    k :| 0 <= k < |cs| && ms[j] == Entry(cs[k].name, Real(cs[k].node));
  }

  lemma {:induction false} ExpandFit(fit: Source -> bool, root: Node, w: Walk)
    requires w.queue != [] && w.queue[0].dir.Directory? && StrictlySorted(w.queue[0].dir.children)
    requires Real(w.queue[0].dir) in w.srcs && FitBelow(fit, root, w.srcs) && FitSources(fit, w.srcs)
    requires FitSources(fit, Sources(Merged(w.queue[0].dir.children, w.queue[0].isRoot)))
    ensures FitBelow(fit, root, Expand(w).srcs) && FitSources(fit, Expand(w).srcs)
  {
    var job := w.queue[0];
    if TreeFits(fit, root) {
      forall s | s in Expand(w).srcs && s.Real?
        ensures TreeFits(fit, s.node)
      {
        if s !in w.srcs {
          var k := MergedFromChild(job.dir.children, job.isRoot, s);
        }
      }
    }
  }

  /** A child whose attributes do not fit makes the tree one whose attributes do not fit. */
  lemma {:induction false} UnfitInTree(fit: Source -> bool, root: Node, w: Walk, s: Source)
    requires w.queue != [] && w.queue[0].dir.Directory? && StrictlySorted(w.queue[0].dir.children)
    requires Real(w.queue[0].dir) in w.srcs && FitBelow(fit, root, w.srcs) && fit(Whiteout)
    requires s in Sources(Merged(w.queue[0].dir.children, w.queue[0].isRoot)) && !fit(s)
    ensures !TreeFits(fit, root)
  {
    if s.Real? {
      var k := MergedFromChild(w.queue[0].dir.children, w.queue[0].isRoot, s);
      assert !TreeFits(fit, w.queue[0].dir);
    }
  }

  /** If the attributes of every inode fit, so do those of the tree below each of them. */
  lemma {:induction false} WalkFits(fit: Source -> bool, root: Node, w: Walk, i: nat, n: Node)
    requires WalkInv(root, w) && w.queue == [] && GoodSources(root, w.srcs) && FitSources(fit, w.srcs)
    requires i < |w.srcs| && w.srcs[i] == Real(n)
    ensures TreeFits(fit, n)
    decreases n
  {
    assert w.srcs[i] in w.srcs;
    if n.Directory? {
      forall k | 0 <= k < |n.children|
        ensures TreeFits(fit, n.children[k].node)
      {
        var c := ChildOf(root, w, i, n, k);
        WalkFits(fit, root, w, c, n.children[k].node);
      }
    }
  }

  /** In a finished walk every child of a directory has an inode. */
  lemma {:induction false} ChildOf(root: Node, w: Walk, i: nat, n: Node, k: nat) returns (c: nat)
    requires WalkInv(root, w) && w.queue == [] && GoodSources(root, w.srcs)
    requires i < |w.srcs| && w.srcs[i] == Real(n) && n.Directory? && k < |n.children|
    ensures c < |w.srcs| && w.srcs[c] == Real(n.children[k].node)
  {
    assert w.srcs[i] in w.srcs;
    assert i in w.bases;
    assert Placed(w, i);
    var ms := ChildrenOf(w, i);
    MergedHolds(n.children, i == 0);
    var e := Entry(n.children[k].name, Real(n.children[k].node));
    assert IsChild(n.children, e);
    var j :| 0 <= j < |ms| && ms[j] == e;
    PlacedAt(w, i, j);
    c := w.bases[i] + j;
  }

  // --- The walk ends ----------------------------------------------------------

  /** The number of directories of a tree. */
  ghost function Weight(n: Node): nat {
    if n.Directory? then 1 + ChildWeight(n.children) else 0
  }

  ghost function ChildWeight(cs: seq<Child>): nat {
    if cs == [] then 0 else Weight(cs[0].node) + ChildWeight(cs[1..])
  }

  ghost function EntryWeight(e: Entry): nat {
    if e.source.Real? then Weight(e.source.node) else 0
  }

  ghost function QueueWeight(queue: seq<Job>): nat {
    if queue == [] then 0 else Weight(queue[0].dir) + QueueWeight(queue[1..])
  }

  lemma {:induction false} QueueWeightConcat(a: seq<Job>, b: seq<Job>)
    ensures QueueWeight(a + b) == QueueWeight(a) + QueueWeight(b)
  {
    if a == [] {
      assert a + b == b;
    } else {
      QueueWeightConcat(a[1..], b);
      assert (a + b)[1..] == a[1..] + b;
    }
  }

  lemma {:induction false} OneWeight(e: Entry, job: Job)
    ensures SumOf(EntryWeight, [e]) == EntryWeight(e) && QueueWeight([job]) == Weight(job.dir)
  {
    assert [e][1..] == [] && [job][1..] == [];
  }

  lemma {:induction false} JobsWeight(ms: seq<Entry>, base: nat, me: nat)
    ensures QueueWeight(Jobs(ms, base, me)) == SumOf(EntryWeight, ms)
  {
    if ms != [] {
      var init, last := ms[..|ms| - 1], ms[|ms| - 1];
      JobsWeight(init, base, me);
      assert ms == init + [last];
      SumConcat(EntryWeight, init, [last]);
      var js := Jobs(init, base, me);
      if IsDir(last.source) {
        var job := Job(last.source.node, base + |ms| - 1, me, false);
        QueueWeightConcat(js, [job]);
        OneWeight(last, job);
      } else {
        OneWeight(last, Job(Symlink(Metadata(0, 0, 0, (0, 0), []), []), 0, 0, false));
        assert js + [] == js;
      }
    }
  }

  lemma {:induction false} RealWeight(cs: seq<Child>)
    ensures SumOf(EntryWeight, RealEntries(cs)) == ChildWeight(cs)
  {
    if cs != [] {
      RealWeight(cs[1..]);
      assert RealEntries(cs)[1..] == RealEntries(cs[1..]);
    }
  }

  lemma {:induction false} StubsWeight(cs: seq<Child>, n: nat)
    requires n <= 256
    ensures SumOf(EntryWeight, Stubs(cs, n)) == 0
  {
    if n > 0 {
      StubsWeight(cs, n - 1);
      var stub := Entry(StubName(n - 1), Whiteout);
      SumConcat(EntryWeight, Stubs(cs, n - 1), [stub]);
      assert SumOf(EntryWeight, [stub]) == EntryWeight(stub) + SumOf(EntryWeight, [stub][1..]);
      assert Stubs(cs, n - 1) + [] == Stubs(cs, n - 1);
    }
  }

  lemma {:induction false} MergedWeight(cs: seq<Child>, isRoot: bool)
    ensures SumOf(EntryWeight, Merged(cs, isRoot)) == ChildWeight(cs)
  {
    var stubs := if isRoot then Stubs(cs, 256) else [];
    SumSort(EntryWeight, KeyLe(EntryName), RealEntries(cs) + stubs);
    SumConcat(EntryWeight, RealEntries(cs), stubs);
    RealWeight(cs);
    StubsWeight(cs, 256);
  }

  /** Each step takes one directory off the work that is left. */
  lemma {:induction false} ExpandShrinks(w: Walk)
    requires w.queue != [] && w.queue[0].dir.Directory?
    ensures QueueWeight(Expand(w).queue) == QueueWeight(w.queue) - 1
  {
    var job := w.queue[0];
    var ms := Merged(job.dir.children, job.isRoot);
    QueueWeightConcat(w.queue[1..], Jobs(ms, |w.srcs|, job.me));
    JobsWeight(ms, |w.srcs|, job.me);
    MergedWeight(job.dir.children, job.isRoot);
  }

  // --- Directory entries ------------------------------------------------------

  function EntsOf(ms: seq<Entry>, base: nat): (r: seq<DirEnt>)
    ensures |r| == |ms|
  {
    seq(|ms|, j requires 0 <= j < |ms| => DirEnt(ms[j].name, base + j, FileType(ms[j].source)))
  }

  /** The entries of a directory: itself, its parent, and its children, sorted by name. */
  function DirEntries(me: nat, parent: nat, base: nat, ms: seq<Entry>): seq<DirEnt> {
    Sort(KeyLe(EntName), [DirEnt(DOT, me, FT_DIR), DirEnt(DOTDOT, parent, FT_DIR)] + EntsOf(ms, base))
  }

  lemma {:induction false} StubNameOk(i: nat)
    requires i < 256
    ensures NameOk(StubName(i))
  {
  }

  lemma {:induction false} MergedNamesOk(cs: seq<Child>, isRoot: bool)
    requires StrictlySorted(cs) && NamesOk(cs)
    ensures forall e :: e in Merged(cs, isRoot) ==> NameOk(e.name)
  {
    MergedHolds(cs, isRoot);
    forall e | e in Merged(cs, isRoot)
      ensures NameOk(e.name)
    {
      if IsStub(cs, e) {
        var i :| 0 <= i < 256 && e.name == StubName(i);
        StubNameOk(i);
      }
    }
  }

  lemma {:induction false} UnsortedEntries(me: nat, parent: nat, base: nat, ms: seq<Entry>)
    requires StrictKeys(EntryName, ms) && forall e :: e in ms ==> NameOk(e.name)
    ensures var all := [DirEnt(DOT, me, FT_DIR), DirEnt(DOTDOT, parent, FT_DIR)] + EntsOf(ms, base);
            DistinctKeys(EntName, all) && ShortNames(all)
  {
    var all := [DirEnt(DOT, me, FT_DIR), DirEnt(DOTDOT, parent, FT_DIR)] + EntsOf(ms, base);
    forall i | 2 <= i < |all|
      ensures all[i].name == ms[i - 2].name && NameOk(all[i].name)
    {
      assert ms[i - 2] in ms;
    }
    forall i, j | 0 <= i < j < |all|
      ensures EntName(all[i]) != EntName(all[j])
    {
      if i >= 2 {
        assert Less(EntryName(ms[i - 2]), EntryName(ms[j - 2]));
        LessTotal(all[i].name, all[j].name);
      }
    }
  }

  /** The entry list is strictly sorted and holds `.`, `..` and one entry for each child. */
  lemma {:induction false} DirEntriesHold(me: nat, parent: nat, base: nat, ms: seq<Entry>)
    requires StrictKeys(EntryName, ms) && forall e :: e in ms ==> NameOk(e.name)
    ensures var es := DirEntries(me, parent, base, ms);
            && StrictKeys(EntName, es) && ShortNames(es)
            && multiset(es) == multiset([DirEnt(DOT, me, FT_DIR), DirEnt(DOTDOT, parent, FT_DIR)] + EntsOf(ms, base))
  {
    var all := [DirEnt(DOT, me, FT_DIR), DirEnt(DOTDOT, parent, FT_DIR)] + EntsOf(ms, base);
    UnsortedEntries(me, parent, base, ms);
    SortByKey(EntName, all);
    var es := DirEntries(me, parent, base, ms);
    SameElements(es, all);
    forall i | 0 <= i < |es|
      ensures |es[i].name| <= 255
    {
      assert es[i] in es;
    }
  }

  // --- The collected inode list -----------------------------------------------

  function InodesOf(xxh: Xxh, root: Metadata, srcs: seq<Source>): (r: seq<Inode>)
    ensures |r| == |srcs|
  {
    seq(|srcs|, i requires 0 <= i < |srcs| => InodeOf(xxh, root, srcs[i]))
  }

  /** Inode `i` after the directories got their entries. */
  ghost predicate InodeDone(xxh: Xxh, root: Node, w: Walk, i: nat, inode: Inode) {
    && i < |w.srcs| == |w.pars|
    && var blank := InodeOf(xxh, root.meta, w.srcs[i]);
    if IsDir(w.srcs[i]) then
      && i in w.bases
      && inode == blank.(kind := inode.kind) && inode.kind.DirKind?
      && Packed(DirEntries(i, w.pars[i], w.bases[i], ChildrenOf(w, i)), inode.kind.dir)
    else inode == blank
  }

  /** The list that `collect` returns, with the walk that explains it. */
  ghost predicate Flattened(xxh: Xxh, root: Node, inodes: seq<Inode>, w: Walk) {
    && WalkInv(root, w) && w.queue == [] && GoodSources(root, w.srcs)
    && |inodes| == |w.srcs|
    && (forall i {:trigger inodes[i]} :: 0 <= i < |inodes| ==> InodeDone(xxh, root, w, i, inodes[i]))
    && (forall i :: i in w.bases ==> i < |w.srcs| && IsDir(w.srcs[i]) && NamesOk(w.srcs[i].node.children))
  }

  /** The pending entry lists: one for each directory that is done. */
  ghost predicate Listed(w: Walk, pending: seq<(nat, seq<DirEnt>)>) {
    && (forall p :: p in pending ==> ListedOk(w, p))
    && (forall i :: i in w.bases ==> exists k :: 0 <= k < |pending| && pending[k].0 == i)
  }

  ghost predicate ListedOk(w: Walk, p: (nat, seq<DirEnt>)) {
    && p.0 in w.bases && p.0 < |w.srcs| == |w.pars| && IsDir(w.srcs[p.0])
    && NamesOk(w.srcs[p.0].node.children)
    && p.1 == DirEntries(p.0, w.pars[p.0], w.bases[p.0], ChildrenOf(w, p.0))
    && ShortNames(p.1)
  }

  method CheckNames(cs: seq<Child>) returns (ok: bool)
    ensures ok <==> NamesOk(cs)
  {
    var i := 0;
    while i < |cs|
      invariant 0 <= i <= |cs| && NamesOk(cs[..i])
    {
      if !NameOk(cs[i].name) {
        return false;
      }
      i := i + 1;
    }
    return true;
  }

  class Collector {
    const xxh: Xxh
    const root: Node
    var inodes: seq<Inode>

    constructor (xxh: Xxh, root: Node)
      ensures inodes == [] && this.xxh == xxh && this.root == root
    {
      this.xxh, this.root := xxh, root;
      inodes := [];
    }

    method AddMetadata(base: XattrSet, pairs: seq<(Blob, Blob)>) returns (r: XattrSet)
      ensures r == AddAll(xxh, base, Escaped(pairs))
    {
      r := base;
      var i := 0;
      assert pairs[..0] == [];
      while i < |pairs|
        invariant 0 <= i <= |pairs|
        invariant r == AddAll(xxh, base, Escaped(pairs[..i]))
      {
        var (name, value) := pairs[i];
        EscapedAt(pairs, i);
        AddAllSnoc(xxh, base, Escaped(pairs[..i]), (Escape(name), value));
        r := Add(xxh, r, Escape(name), value);
        i := i + 1;
      }
      assert pairs[..|pairs|] == pairs;
    }

    method Push(src: Source, xattrs: XattrSet) returns (idx: nat)
      requires xattrs == AddAll(xxh, NO_XATTRS, Pairs(root.meta, src))
      modifies this
      ensures idx == |old(inodes)|
      ensures inodes == old(inodes) + [InodeOf(xxh, root.meta, src)]
    {
      var meta := MetaOf(root.meta, src);
      idx := |inodes|;
      inodes := inodes + [Inode(meta.mode % 0x1000, meta.uid, meta.gid, meta.mtime, xattrs, FreshKind(src))];
    }

    method PushRegular(node: Node) returns (idx: nat)
      requires node.Regular?
      modifies this
      ensures idx == |old(inodes)|
      ensures inodes == old(inodes) + [InodeOf(xxh, root.meta, Real(node))]
    {
      var xs := NO_XATTRS;
      ghost var first: seq<(Blob, Blob)> := [];
      if node.content.Backed? {
        var record := MetacopyRecord(node.content.verity);
        first := [(METACOPY, record), (REDIRECT, node.content.redirect)];
        xs := Add(xxh, xs, METACOPY, record);
        xs := Add(xxh, xs, REDIRECT, node.content.redirect);
        TwoAdds(xxh, METACOPY, record, REDIRECT, node.content.redirect);
      } else {
        assert first + Escaped(node.meta.xattrs) == Escaped(node.meta.xattrs);
      }
      AddAllConcat(xxh, NO_XATTRS, first, Escaped(node.meta.xattrs));
      xs := AddMetadata(xs, node.meta.xattrs);
      idx := Push(Real(node), xs);
    }

    method PushWhiteout() returns (idx: nat)
      modifies this
      ensures idx == |old(inodes)|
      ensures inodes == old(inodes) + [InodeOf(xxh, root.meta, Whiteout)]
    {
      var xs := NO_XATTRS;
      var pairs := root.meta.xattrs;
      var i := 0;
      assert pairs[..0] == [];
      while i < |pairs|
        invariant 0 <= i <= |pairs| && inodes == old(inodes)
        invariant xs == AddAll(xxh, NO_XATTRS, Selinux(pairs[..i]))
      {
        SelinuxAt(xxh, pairs, i);
        if pairs[i].0 == SELINUX {
          xs := Add(xxh, xs, pairs[i].0, pairs[i].1);
        }
        i := i + 1;
      }
      assert pairs[..|pairs|] == pairs;
      idx := Push(Whiteout, xs);
    }

    method PushSource(src: Source) returns (idx: nat)
      modifies this
      ensures idx == |old(inodes)|
      ensures inodes == old(inodes) + [InodeOf(xxh, root.meta, src)]
    {
      match src
      case Whiteout =>
        idx := PushWhiteout();
      case Real(node) =>
        if node.Regular? {
          idx := PushRegular(node);
        } else {
          var xs := AddMetadata(NO_XATTRS, node.meta.xattrs);
          idx := Push(src, xs);
        }
    }

    /** The loop over the children of one directory. */
    method AddChildren(ms: seq<Entry>, me: nat, before: seq<Job>) returns (queue: seq<Job>, entries: seq<DirEnt>)
      modifies this
      ensures inodes == old(inodes) + InodesOf(xxh, root.meta, Sources(ms))
      ensures queue == before + Jobs(ms, |old(inodes)|, me)
      ensures entries == EntsOf(ms, |old(inodes)|)
    {
      queue, entries := before, [];
      ghost var start, base := inodes, |inodes|;
      var j := 0;
      assert ms[..0] == [] && before + [] == before && start + [] == start;
      while j < |ms|
        invariant 0 <= j <= |ms|
        invariant inodes == start + InodesOf(xxh, root.meta, Sources(ms[..j]))
        invariant queue == before + Jobs(ms[..j], base, me)
        invariant entries == EntsOf(ms[..j], base)
      {
        ChildStep(xxh, root.meta, ms, j, base, me);
        var child := PushSource(ms[j].source);
        if IsDir(ms[j].source) {
          queue := queue + [Job(ms[j].source.node, child, me, false)];
        }
        entries := entries + [DirEnt(ms[j].name, child, FileType(ms[j].source))];
        j := j + 1;
      }
      assert ms[..|ms|] == ms;
    }
  }

  lemma {:induction false} EscapedAt(pairs: seq<(Blob, Blob)>, i: nat)
    requires i < |pairs|
    ensures Escaped(pairs[..i + 1]) == Escaped(pairs[..i]) + [(Escape(pairs[i].0), pairs[i].1)]
  {
    assert pairs[..i + 1][..i] == pairs[..i];
  }

  lemma {:induction false} SelinuxAt(xxh: Xxh, pairs: seq<(Blob, Blob)>, i: nat)
    requires i < |pairs|
    ensures pairs[i].0 == SELINUX ==>
              AddAll(xxh, NO_XATTRS, Selinux(pairs[..i + 1])) ==
              Added(xxh, AddAll(xxh, NO_XATTRS, Selinux(pairs[..i])), pairs[i].0, pairs[i].1)
    ensures pairs[i].0 != SELINUX ==> Selinux(pairs[..i + 1]) == Selinux(pairs[..i])
  {
    assert pairs[..i + 1][..i] == pairs[..i];
    if pairs[i].0 == SELINUX {
      AddAllSnoc(xxh, NO_XATTRS, Selinux(pairs[..i]), pairs[i]);
    }
  }

  lemma {:induction false} AddAllSnoc(xxh: Xxh, xs: XattrSet, pairs: seq<(Blob, Blob)>, last: (Blob, Blob))
    ensures AddAll(xxh, xs, pairs + [last]) == Added(xxh, AddAll(xxh, xs, pairs), last.0, last.1)
  {
    assert (pairs + [last])[..|pairs|] == pairs;
  }

  lemma {:induction false} TwoAdds(xxh: Xxh, n1: Blob, v1: Blob, n2: Blob, v2: Blob)
    ensures AddAll(xxh, NO_XATTRS, [(n1, v1), (n2, v2)]) == Added(xxh, Added(xxh, NO_XATTRS, n1, v1), n2, v2)
  {
    AddAllSnoc(xxh, NO_XATTRS, [], (n1, v1));
    AddAllSnoc(xxh, NO_XATTRS, [(n1, v1)], (n2, v2));
    assert [] + [(n1, v1)] == [(n1, v1)];
    assert [(n1, v1)] + [(n2, v2)] == [(n1, v1), (n2, v2)];
  }

  /** The loop over the children, one child further. */
  lemma {:induction false} ChildStep(xxh: Xxh, root: Metadata, ms: seq<Entry>, j: nat, base: nat, me: nat)
    requires j < |ms|
    ensures InodesOf(xxh, root, Sources(ms[..j + 1])) ==
            InodesOf(xxh, root, Sources(ms[..j])) + [InodeOf(xxh, root, ms[j].source)]
    ensures Jobs(ms[..j + 1], base, me) ==
            Jobs(ms[..j], base, me)
                + (if IsDir(ms[j].source) then [Job(ms[j].source.node, base + j, me, false)] else [])
    ensures EntsOf(ms[..j + 1], base) ==
            EntsOf(ms[..j], base) + [DirEnt(ms[j].name, base + j, FileType(ms[j].source))]
  {
    assert ms[..j + 1][..j] == ms[..j];
  }

  // --- The main loop ----------------------------------------------------------

  lemma {:induction false} StartInv(root: Node)
    requires root.Directory? && ValidNode(root)
    ensures WalkInv(root, Start(root)) && GoodSources(root, Start(root).srcs) && Listed(Start(root), [])
  {
    assert Start(root).queue[0].me == 0;
  }

  lemma {:induction false} ExpandKeepsListed(w: Walk, p: (nat, seq<DirEnt>))
    requires w.queue != [] && JobOk(w, w.queue[0]) && ListedOk(w, p)
    ensures ListedOk(Expand(w), p)
  {
    assert p.0 != w.queue[0].me;
  }

  /** The entry list of the directory that the step expands. */
  function NextEntries(w: Walk): (nat, seq<DirEnt>)
    requires w.queue != [] && w.queue[0].dir.Directory?
  {
    var job := w.queue[0];
    (job.me, DirEntries(job.me, job.parent, |w.srcs|, Merged(job.dir.children, job.isRoot)))
  }

  lemma {:induction false} ExpandLists(root: Node, w: Walk)
    requires w.queue != [] && JobOk(w, w.queue[0])
    requires GoodSources(root, w.srcs) && NamesOk(w.queue[0].dir.children)
    ensures ListedOk(Expand(w), NextEntries(w))
  {
    var job := w.queue[0];
    var ms := Merged(job.dir.children, job.isRoot);
    assert w.srcs[job.me] in w.srcs;
    MergedHolds(job.dir.children, job.isRoot);
    MergedNamesOk(job.dir.children, job.isRoot);
    DirEntriesHold(job.me, job.parent, |w.srcs|, ms);
  }

  /** The entry list of the expanded directory joins the pending ones. */
  lemma {:induction false} ExpandListed(root: Node, w: Walk, pending: seq<(nat, seq<DirEnt>)>)
    requires w.queue != [] && JobOk(w, w.queue[0])
    requires GoodSources(root, w.srcs) && NamesOk(w.queue[0].dir.children)
    requires Listed(w, pending)
    ensures Listed(Expand(w), pending + [NextEntries(w)])
  {
    var v, more := Expand(w), NextEntries(w);
    var all := pending + [more];
    ExpandLists(root, w);
    forall p | p in all
      ensures ListedOk(v, p)
    {
      if p != more {
        ExpandKeepsListed(w, p);
      }
    }
    forall i | i in v.bases
      ensures exists k :: 0 <= k < |all| && all[k].0 == i
    {
      if i == more.0 {
        assert all[|pending|].0 == i;
      } else {
        var k :| 0 <= k < |pending| && pending[k].0 == i;
        assert all[k].0 == i;
      }
    }
  }

  lemma {:induction false} ExpandInodes(xxh: Xxh, root: Metadata, a: seq<Source>, b: seq<Source>)
    ensures InodesOf(xxh, root, a + b) == InodesOf(xxh, root, a) + InodesOf(xxh, root, b)
  {
  }

  /** If the walk meets a bad name, the tree has one. */
  lemma {:induction false} BadNameInTree(root: Node, w: Walk)
    requires WalkInv(root, w) && w.queue != [] && JobOk(w, w.queue[0]) && GoodSources(root, w.srcs)
    requires !NamesOk(w.queue[0].dir.children)
    ensures !TreeNamesOk(root)
  {
    assert w.srcs[w.queue[0].me] in w.srcs;
  }

  /** If every directory of the walk has good names, so has the tree below each of its inodes. */
  lemma {:induction false} WalkNamesOk(root: Node, w: Walk, i: nat, n: Node)
    requires WalkInv(root, w) && w.queue == []
    requires forall i :: i in w.bases ==> i < |w.srcs| && IsDir(w.srcs[i]) && NamesOk(w.srcs[i].node.children)
    requires GoodSources(root, w.srcs)
    requires i < |w.srcs| && w.srcs[i] == Real(n)
    ensures TreeNamesOk(n)
    decreases n
  {
    if n.Directory? {
      assert i in w.bases;
      forall k | 0 <= k < |n.children|
        ensures TreeNamesOk(n.children[k].node)
      {
        var c := ChildOf(root, w, i, n, k);
        WalkNamesOk(root, w, c, n.children[k].node);
      }
    }
  }

  /** Entry `m` of directory `i` names inode `c`. */
  ghost predicate Points(w: Walk, i: nat, m: nat, c: nat) {
    i in w.bases && i < |w.srcs| && IsDir(w.srcs[i]) && m < |ChildrenOf(w, i)| && c == w.bases[i] + m
  }

  /** Every inode but the root is named by exactly one entry, in the directory of its parent. */
  lemma {:induction false} OneEntry(root: Node, w: Walk, c: nat)
    requires WalkInv(root, w) && 1 <= c < |w.srcs|
    ensures w.pars[c] in w.bases && w.bases[w.pars[c]] <= c && Points(w, w.pars[c], c - w.bases[w.pars[c]], c)
    ensures forall i, m :: Points(w, i, m, c) ==> i == w.pars[c] && m == c - w.bases[w.pars[c]]
  {
    assert IsChildInode(w, c);
    forall i, m | Points(w, i, m, c)
      ensures i == w.pars[c] && m == c - w.bases[w.pars[c]]
    {
      assert Placed(w, i);
      PlacedAt(w, i, m);
    }
  }

  datatype Collected = Found(list: seq<Inode>) | NameRefused | AttrTooLong

  /**
   Checks the attributes of the children of a directory. It stands for the
   assertions of `add`: a panic in any push leaves nothing behind.
   */
  method CheckAttrs(fit: Source -> bool, srcs: seq<Source>) returns (bad: Option<Source>)
    ensures bad.None? ==> FitSources(fit, srcs)
    ensures bad.Some? ==> bad.value in srcs && !fit(bad.value)
  {
    var i := 0;
    while i < |srcs|
      invariant 0 <= i <= |srcs| && forall k :: 0 <= k < i ==> fit(srcs[k])
    {
      if !fit(srcs[i]) {
        return Some(srcs[i]);
      }
      i := i + 1;
    }
    return None;
  }

  /** The walk is in order so far: its names, up to the next directory, and its attributes. */
  ghost predicate Walking(fit: Source -> bool, root: Node, w: Walk) {
    WalkInv(root, w) && GoodSources(root, w.srcs) && FitBelow(fit, root, w.srcs) && FitSources(fit, w.srcs)
  }

  /** The walk is in order up to a directory with a name that the image cannot hold. */
  ghost predicate StoppedByName(fit: Source -> bool, root: Node, w: Walk) {
    Walking(fit, root, w) && w.queue != [] && w.queue[0].dir.Directory? && !NamesOk(w.queue[0].dir.children)
  }

  /** The root has attributes that do not fit, or the next directory has good names and such a child. */
  ghost predicate StoppedByAttr(fit: Source -> bool, root: Node, w: Walk) {
    || !fit(Real(root))
    || (&& Walking(fit, root, w) && w.queue != [] && w.queue[0].dir.Directory? && NamesOk(w.queue[0].dir.children)
        && !FitSources(fit, Sources(Merged(w.queue[0].dir.children, w.queue[0].isRoot))))
  }

  lemma {:induction false} StartWalking(fit: Source -> bool, root: Node)
    requires root.Directory? && ValidNode(root) && fit(Real(root))
    ensures Walking(fit, root, Start(root))
  {
    StartInv(root);
  }

  lemma {:induction false} ExpandWalks(fit: Source -> bool, root: Node, w: Walk)
    requires Walking(fit, root, w) && w.queue != [] && w.queue[0].dir.Directory?
    requires FitSources(fit, Sources(Merged(w.queue[0].dir.children, w.queue[0].isRoot)))
    ensures Walking(fit, root, Expand(w))
  {
    NextInWalk(root, w);
    ExpandKeeps(root, w);
    ExpandGood(root, w);
    ExpandFit(fit, root, w);
  }

  lemma {:induction false} NextInWalk(root: Node, w: Walk)
    requires WalkInv(root, w) && GoodSources(root, w.srcs) && w.queue != []
    ensures JobOk(w, w.queue[0]) && Real(w.queue[0].dir) in w.srcs && StrictlySorted(w.queue[0].dir.children)
  {
    assert w.queue[0] in w.queue;
    assert w.srcs[w.queue[0].me] in w.srcs;
  }

  lemma {:induction false} StopsByAttr(fit: Source -> bool, root: Node, w: Walk, s: Source)
    requires Walking(fit, root, w) && w.queue != [] && w.queue[0].dir.Directory?
    requires NamesOk(w.queue[0].dir.children) && fit(Whiteout)
    requires s in Sources(Merged(w.queue[0].dir.children, w.queue[0].isRoot)) && !fit(s)
    ensures !TreeFits(fit, root) && StoppedByAttr(fit, root, w)
  {
    NextInWalk(root, w);
    UnfitInTree(fit, root, w, s);
  }

  lemma {:induction false} EndsInOrder(fit: Source -> bool, root: Node, w: Walk)
    requires Walking(fit, root, w) && w.queue == []
    requires forall i :: i in w.bases ==> i < |w.srcs| && IsDir(w.srcs[i]) && NamesOk(w.srcs[i].node.children)
    ensures TreeNamesOk(root) && TreeFits(fit, root)
  {
    WalkNamesOk(root, w, 0, root);
    WalkFits(fit, root, w, 0, root);
  }

  /**
   Collects the inode list of the tree, or stops at the first fault in the order
   of the walk: a name that the image cannot hold, which it refuses, or
   attributes that do not fit. `w` tells which node each inode stands for.
   */
  method CollectFit(xxh: Xxh, root: Node, fit: Source -> bool) returns (r: Collected, ghost w: Walk)
    requires root.Directory? && ValidNode(root) && (fit(Real(root)) ==> fit(Whiteout))
    ensures r.Found? <==> TreeNamesOk(root) && TreeFits(fit, root)
    ensures r.Found? ==> Flattened(xxh, root, r.list, w) && FitSources(fit, w.srcs)
    ensures r.NameRefused? ==> !TreeNamesOk(root) && StoppedByName(fit, root, w)
    ensures r.AttrTooLong? ==> !TreeFits(fit, root) && StoppedByAttr(fit, root, w)
  {
    w := Start(root);
    if !fit(Real(root)) {
      return AttrTooLong, w;
    }
    StartWalking(fit, root);
    StartInv(root);
    var c := new Collector(xxh, root);
    var rootIdx := c.PushSource(Real(root));
    var queue := [Job(root, rootIdx, rootIdx, true)];
    var pending: seq<(nat, seq<DirEnt>)> := [];
    while queue != []
      invariant fresh(c) && c.xxh == xxh && c.root == root
      invariant Walking(fit, root, w) && queue == w.queue && Listed(w, pending)
      invariant c.inodes == InodesOf(xxh, root.meta, w.srcs)
      decreases QueueWeight(queue)
    {
      var job := queue[0];
      NextInWalk(root, w);
      var ok := CheckNames(job.dir.children);
      if !ok {
        BadNameInTree(root, w);
        return NameRefused, w;
      }
      var ms := MergedChildren(job.dir.children, job.isRoot);
      var bad := CheckAttrs(fit, Sources(ms));
      if bad.Some? {
        StopsByAttr(fit, root, w, bad.value);
        return AttrTooLong, w;
      }
      ExpandWalks(fit, root, w);
      queue, pending := Visit(c, root, w, queue, ms, pending);
      w := Expand(w);
    }
    var inodes := GiveEntries(xxh, root, w, c.inodes, pending);
    EndsInOrder(fit, root, w);
    return Found(inodes), w;
  }

  /** The children of the next directory get their inodes, and the directory its pending entries. */
  method Visit(c: Collector, ghost root: Node, ghost w: Walk, jobs: seq<Job>, ms: seq<Entry>,
               pending: seq<(nat, seq<DirEnt>)>)
    returns (queue: seq<Job>, more: seq<(nat, seq<DirEnt>)>)
    requires WalkInv(root, w) && GoodSources(root, w.srcs) && jobs == w.queue != [] && Listed(w, pending)
    requires jobs[0].dir.Directory? && NamesOk(jobs[0].dir.children)
            && ms == Merged(jobs[0].dir.children, jobs[0].isRoot)
    requires c.root == root && c.inodes == InodesOf(c.xxh, root.meta, w.srcs)
    modifies c
    ensures queue == Expand(w).queue && Listed(Expand(w), more)
    ensures c.inodes == InodesOf(c.xxh, root.meta, Expand(w).srcs)
    ensures QueueWeight(queue) < QueueWeight(jobs)
  {
    NextInWalk(root, w);
    ExpandListed(root, w, pending);
    ExpandShrinks(w);
    ExpandInodes(c.xxh, root.meta, w.srcs, Sources(ms));
    var job := jobs[0];
    var entries;
    queue, entries := c.AddChildren(ms, job.me, jobs[1..]);
    entries := [DirEnt(DOT, job.me, FT_DIR), DirEnt(DOTDOT, job.parent, FT_DIR)] + entries;
    more := pending + [(job.me, Sort(KeyLe(EntName), entries))];
  }

  /** The limits of the stubs follow from those of the root. */
  lemma {:induction false} StubsFit(root: Node)
    requires root.Directory?
    ensures Fitter(root.meta)(Real(root)) ==> Fitter(root.meta)(Whiteout)
  {
    if Fitter(root.meta)(Real(root)) {
      SelinuxFits(root.meta.xattrs);
    }
  }

  lemma {:induction false} SelinuxFits(pairs: seq<(Blob, Blob)>)
    requires AllFit(Escaped(pairs))
    ensures AllFit(Selinux(pairs))
  {
    if pairs != [] {
      var init, last := pairs[..|pairs| - 1], pairs[|pairs| - 1];
      var all, low := Escaped(pairs), Escaped(init);
      forall i | 0 <= i < |low|
        ensures Fits(low[i].0, low[i].1)
      {
        assert all[i] == low[i];
      }
      SelinuxFits(init);
      assert all[|init|] == (Escape(last.0), last.1);
      SelinuxStays();
    }
  }

  lemma {:induction false} SelinuxStays()
    ensures Escape(SELINUX) == SELINUX
  {
    assert OVERLAY[0] != SELINUX[0];
  }

  /**
   Collects the inode list of the tree. An attribute that its length fields
   cannot hold is the panic of the source.
   */
  method CollectInodes(xxh: Xxh, root: Node) returns (r: Collected, ghost w: Walk)
    requires root.Directory? && ValidNode(root)
    ensures r.Found? <==> TreeNamesOk(root) && XattrsFit(root.meta, root)
    ensures r.Found? ==> Flattened(xxh, root, r.list, w) && FitSources(Fitter(root.meta), w.srcs)
    ensures r.NameRefused? ==> !TreeNamesOk(root) && StoppedByName(Fitter(root.meta), root, w)
    ensures r.AttrTooLong? ==> !XattrsFit(root.meta, root) && StoppedByAttr(Fitter(root.meta), root, w)
  {
    StubsFit(root);
    r, w := CollectFit(xxh, root, Fitter(root.meta));
  }

  lemma {:induction false} ListedAll(w: Walk, pending: seq<(nat, seq<DirEnt>)>)
    requires Listed(w, pending)
    ensures forall i :: i in w.bases ==> i < |w.srcs| && IsDir(w.srcs[i]) && NamesOk(w.srcs[i].node.children)
  {
    forall i | i in w.bases
      ensures i < |w.srcs| && IsDir(w.srcs[i]) && NamesOk(w.srcs[i].node.children)
    {
      var k :| 0 <= k < |pending| && pending[k].0 == i;
      assert pending[k] in pending;
    }
  }

  /** After `k` pending lists: each inode is fresh or done, and the listed ones are done. */
  ghost predicate Giving(xxh: Xxh, root: Node, w: Walk, pending: seq<(nat, seq<DirEnt>)>, k: nat, inodes: seq<Inode>) {
    && k <= |pending| && |inodes| == |w.srcs|
    && (forall i {:trigger inodes[i]} :: 0 <= i < |inodes| ==>
          inodes[i] == InodeOf(xxh, root.meta, w.srcs[i]) || InodeDone(xxh, root, w, i, inodes[i]))
    && (forall j :: 0 <= j < k ==> Given(xxh, root, w, pending[j].0, inodes))
  }

  ghost predicate Given(xxh: Xxh, root: Node, w: Walk, i: nat, inodes: seq<Inode>) {
    i < |inodes| && InodeDone(xxh, root, w, i, inodes[i])
  }

  lemma {:induction false} GiveStep(xxh: Xxh, root: Node, w: Walk, pending: seq<(nat, seq<DirEnt>)>, k: nat,
                                    inodes: seq<Inode>, d: DirData)
    requires Giving(xxh, root, w, pending, k, inodes) && k < |pending| && ListedOk(w, pending[k])
    requires Packed(pending[k].1, d)
    ensures var me := pending[k].0;
            me < |inodes| && Giving(xxh, root, w, pending, k + 1, inodes[me := inodes[me].(kind := DirKind(d))])
  {
    var me := pending[k].0;
    var next := inodes[me := inodes[me].(kind := DirKind(d))];
    assert inodes[me] == InodeOf(xxh, root.meta, w.srcs[me]) || InodeDone(xxh, root, w, me, inodes[me]);
    assert InodeDone(xxh, root, w, me, next[me]);
    forall j | 0 <= j < k + 1
      ensures Given(xxh, root, w, pending[j].0, next)
    {
      if j < k {
        assert Given(xxh, root, w, pending[j].0, inodes);
      }
    }
  }

  lemma {:induction false} GiveEnd(xxh: Xxh, root: Node, w: Walk, pending: seq<(nat, seq<DirEnt>)>, inodes: seq<Inode>)
    requires WalkInv(root, w) && w.queue == [] && Listed(w, pending)
    requires Giving(xxh, root, w, pending, |pending|, inodes)
    ensures forall i {:trigger inodes[i]} :: 0 <= i < |inodes| ==> InodeDone(xxh, root, w, i, inodes[i])
  {
    forall i | 0 <= i < |inodes|
      ensures InodeDone(xxh, root, w, i, inodes[i])
    {
      if IsDir(w.srcs[i]) {
        assert i in w.bases;
        var j :| 0 <= j < |pending| && pending[j].0 == i;
        assert Given(xxh, root, w, pending[j].0, inodes);
      }
    }
  }

  /** The last loop of `collect`: each directory inode gets its packed entries. */
  method GiveEntries(xxh: Xxh, root: Node, ghost w: Walk, start: seq<Inode>, pending: seq<(nat, seq<DirEnt>)>)
    returns (inodes: seq<Inode>)
    requires WalkInv(root, w) && w.queue == [] && GoodSources(root, w.srcs) && Listed(w, pending)
    requires start == InodesOf(xxh, root.meta, w.srcs)
    ensures Flattened(xxh, root, inodes, w)
  {
    inodes := start;
    var k := 0;
    while k < |pending|
      invariant Giving(xxh, root, w, pending, k, inodes)
    {
      var (me, entries) := pending[k];
      assert ListedOk(w, pending[k]);
      var d := FromEntries(entries);
      GiveStep(xxh, root, w, pending, k, inodes, d);
      inodes := inodes[me := inodes[me].(kind := DirKind(d))];
      k := k + 1;
    }
    ListedAll(w, pending);
    GiveEnd(xxh, root, w, pending, inodes);
  }
}
