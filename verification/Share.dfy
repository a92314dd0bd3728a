/** The promotion of repeated xattrs to the shared table. */
module Share {
  import opened Bytes
  import opened Order
  import opened Xattrs
  import opened Inodes

  /** The full name and the value of an attribute. */
  type Key = (Blob, Blob)

  type KeyFn = LocalXattr -> Key

  const MAX_SHARED: nat := 128

  predicate KeyLess(a: Key, b: Key) {
    Less(a.0, b.0) || (a.0 == b.0 && Less(a.1, b.1))
  }

  lemma {:induction false} KeyLessTotal(a: Key, b: Key)
    ensures KeyLess(a, b) || a == b || KeyLess(b, a)
    ensures !(KeyLess(a, b) && KeyLess(b, a)) && !KeyLess(a, a)
  {
    LessTotal(a.0, b.0);
    LessTotal(a.1, b.1);
    LessTotal(a.0, a.0);
    LessTotal(a.1, a.1);
  }

  lemma {:induction false} KeyLessTransitive(a: Key, b: Key, c: Key)
    requires KeyLess(a, b) && KeyLess(b, c)
    ensures KeyLess(a, c)
  {
    if Less(a.0, b.0) && Less(b.0, c.0) {
      LessTransitive(a.0, b.0, c.0);
    } else if a.0 == b.0 && b.0 == c.0 {
      LessTransitive(a.1, b.1, c.1);
    }
  }

  // --- Counts in key order ----------------------------------------------------

  /** A count map: its pairs in ascending key order. */
  type Counts = seq<(Key, nat)>

  predicate Ascending(c: Counts) {
    forall i, j :: 0 <= i < j < |c| ==> KeyLess(c[i].0, c[j].0)
  }

  function Lookup(c: Counts, k: Key): nat {
    if c == [] then 0 else if c[0].0 == k then c[0].1 else Lookup(c[1..], k)
  }

  /** One more occurrence of `k`. */
  function Bump(c: Counts, k: Key): Counts {
    if c == [] then [(k, 1)]
    else if c[0].0 == k then [(k, c[0].1 + 1)] + c[1..]
    else if KeyLess(k, c[0].0) then [(k, 1)] + c
    else [c[0]] + Bump(c[1..], k)
  }

  lemma {:induction false} LookupAbsent(c: Counts, k: Key)
    requires forall i :: 0 <= i < |c| ==> KeyLess(k, c[i].0)
    ensures Lookup(c, k) == 0
  {
    if c != [] {
      KeyLessTotal(k, c[0].0);
      LookupAbsent(c[1..], k);
    }
  }

  lemma {:induction false} BumpKeys(c: Counts, k: Key)
    ensures forall p :: p in Bump(c, k) ==> p.0 == k || exists i :: 0 <= i < |c| && c[i].0 == p.0
  {
    if c != [] && c[0].0 != k && !KeyLess(k, c[0].0) {
      BumpKeys(c[1..], k);
      forall p | p in Bump(c, k)
        ensures p.0 == k || exists i :: 0 <= i < |c| && c[i].0 == p.0
      {
        if p != c[0] && p.0 != k {
          var i :| 0 <= i < |c[1..]| && c[1..][i].0 == p.0;
          assert c[i + 1].0 == p.0;
        }
      }
    }
  }

  lemma {:induction false} BumpAscending(c: Counts, k: Key)
    requires Ascending(c)
    ensures Ascending(Bump(c, k))
  {
    if c != [] {
      KeyLessTotal(k, c[0].0);
      if KeyLess(k, c[0].0) {
        forall j | 1 <= j < |c|
          ensures KeyLess(k, c[j].0)
        {
          KeyLessTransitive(k, c[0].0, c[j].0);
        }
      } else if c[0].0 != k {
        BumpAscending(c[1..], k);
        BumpKeys(c[1..], k);
        var t := Bump(c[1..], k);
        forall j | 0 <= j < |t|
          ensures KeyLess(c[0].0, t[j].0)
        {
          assert t[j] in t;
          if t[j].0 != k {
            var i :| 0 <= i < |c[1..]| && c[1..][i].0 == t[j].0;
            assert KeyLess(c[0].0, c[i + 1].0);
          }
        }
      }
    }
  }

  lemma {:induction false} BumpLookup(c: Counts, k: Key, other: Key)
    requires Ascending(c)
    ensures Lookup(Bump(c, k), other) == Lookup(c, other) + (if other == k then 1 else 0)
  {
    if c == [] {
      assert [(k, 1 as nat)][1..] == [];
    } else {
      KeyLessTotal(k, c[0].0);
      if c[0].0 == k {
        assert ([(k, c[0].1 + 1)] + c[1..])[1..] == c[1..];
      } else if KeyLess(k, c[0].0) {
        forall j | 0 <= j < |c|
          ensures KeyLess(k, c[j].0)
        {
          if j > 0 {
            KeyLessTransitive(k, c[0].0, c[j].0);
          }
        }
        LookupAbsent(c, k);
        assert ([(k, 1 as nat)] + c)[1..] == c;
      } else {
        BumpLookup(c[1..], k, other);
        assert ([c[0]] + Bump(c[1..], k))[1..] == Bump(c[1..], k);
      }
    }
  }

  // --- Occurrences ------------------------------------------------------------

  function Occ(key: KeyFn, xs: seq<LocalXattr>, k: Key): nat {
    if xs == [] then 0 else Occ(key, xs[..|xs| - 1], k) + (if key(xs[|xs| - 1]) == k then 1 else 0)
  }

  /** The occurrences of a key over all inodes. */
  function Total(key: KeyFn, inodes: seq<Inode>, k: Key): nat {
    if inodes == [] then 0
    else Total(key, inodes[..|inodes| - 1], k) + Occ(key, inodes[|inodes| - 1].xattrs.local, k)
  }

  function CountXs(key: KeyFn, c: Counts, xs: seq<LocalXattr>): Counts {
    if xs == [] then c else Bump(CountXs(key, c, xs[..|xs| - 1]), key(xs[|xs| - 1]))
  }

  function CountAll(key: KeyFn, inodes: seq<Inode>): Counts {
    if inodes == [] then []
    else CountXs(key, CountAll(key, inodes[..|inodes| - 1]), inodes[|inodes| - 1].xattrs.local)
  }

  lemma {:induction false} CountXsCounts(key: KeyFn, c: Counts, xs: seq<LocalXattr>, k: Key)
    requires Ascending(c)
    ensures Ascending(CountXs(key, c, xs))
    ensures Lookup(CountXs(key, c, xs), k) == Lookup(c, k) + Occ(key, xs, k)
  {
    if xs != [] {
      var init, last := xs[..|xs| - 1], xs[|xs| - 1];
      CountXsCounts(key, c, init, k);
      BumpAscending(CountXs(key, c, init), key(last));
      BumpLookup(CountXs(key, c, init), key(last), k);
    }
  }

  lemma {:induction false} CountAllCounts(key: KeyFn, inodes: seq<Inode>, k: Key)
    ensures Ascending(CountAll(key, inodes))
    ensures Lookup(CountAll(key, inodes), k) == Total(key, inodes, k)
  {
    if inodes != [] {
      var init, last := inodes[..|inodes| - 1], inodes[|inodes| - 1];
      CountAllCounts(key, init, k);
      CountXsCounts(key, CountAll(key, init), last.xattrs.local, k);
    }
  }

  // --- The shared keys --------------------------------------------------------

  function Repeated(c: Counts): seq<Key> {
    if c == [] then []
    else Repeated(c[..|c| - 1]) + (if c[|c| - 1].1 > 1 then [c[|c| - 1].0] else [])
  }

  predicate AscendingKeys(ks: seq<Key>) {
    forall i, j :: 0 <= i < j < |ks| ==> KeyLess(ks[i], ks[j])
  }

  lemma {:induction false} LookupAt(c: Counts, i: nat)
    requires Ascending(c) && i < |c|
    ensures Lookup(c, c[i].0) == c[i].1
  {
    if i > 0 {
      KeyLessTotal(c[0].0, c[i].0);
      assert KeyLess(c[0].0, c[i].0);
      LookupAt(c[1..], i - 1);
    }
  }

  lemma {:induction false} LookupFinds(c: Counts, k: Key) returns (i: nat)
    requires Lookup(c, k) > 0
    ensures i < |c| && c[i].0 == k
  {
    if c[0].0 == k {
      i := 0;
    } else {
      i := LookupFinds(c[1..], k);
      i := i + 1;
    }
  }

  lemma {:induction false} RepeatedMembers(c: Counts)
    requires Ascending(c)
    ensures AscendingKeys(Repeated(c))
    ensures forall k :: k in Repeated(c) <==> exists i :: 0 <= i < |c| && c[i].0 == k && c[i].1 > 1
  {
    if c != [] {
      var init, last := c[..|c| - 1], c[|c| - 1];
      RepeatedMembers(init);
      var rs, all := Repeated(init), Repeated(c);
      forall k
        ensures k in all <==> exists i :: 0 <= i < |c| && c[i].0 == k && c[i].1 > 1
      {
        if k in rs {
          var i :| 0 <= i < |init| && init[i].0 == k && init[i].1 > 1;
          assert c[i].0 == k;
        }
        if i :| 0 <= i < |c| && c[i].0 == k && c[i].1 > 1 {
          if i < |init| {
            assert init[i].0 == k;
          }
        }
      }
      forall i, j | 0 <= i < j < |all|
        ensures KeyLess(all[i], all[j])
      {
        if j == |rs| {
          assert all[i] in rs;
          var m :| 0 <= m < |init| && init[m].0 == all[i] && init[m].1 > 1;
          assert KeyLess(c[m].0, c[|c| - 1].0);
        }
      }
    }
  }

  /** The shared keys are exactly the keys that occur more than once, in ascending order. */
  lemma {:induction false} RepeatedIsTotal(key: KeyFn, inodes: seq<Inode>, k: Key)
    ensures AscendingKeys(Repeated(CountAll(key, inodes)))
    ensures k in Repeated(CountAll(key, inodes)) <==> Total(key, inodes, k) > 1
  {
    var c := CountAll(key, inodes);
    CountAllCounts(key, inodes, k);
    RepeatedMembers(c);
    if k in Repeated(c) {
      var i :| 0 <= i < |c| && c[i].0 == k && c[i].1 > 1;
      LookupAt(c, i);
    }
    if Total(key, inodes, k) > 1 {
      var i := LookupFinds(c, k);
      LookupAt(c, i);
    }
  }

  // --- The table and the references -------------------------------------------

  /** `index` gives the place of each shared key in the table, the largest key first. */
  ghost predicate IndexOf(ks: seq<Key>, index: map<Key, nat>) {
    && (forall k :: k in index <==> k in ks)
    && (forall i :: 0 <= i < |ks| ==> ks[i] in index && index[ks[i]] == |ks| - 1 - i)
  }

  ghost predicate TableOf(key: KeyFn, ks: seq<Key>, table: seq<LocalXattr>) {
    |table| == |ks| && forall i :: 0 <= i < |ks| ==> key(table[|ks| - 1 - i]) == ks[i]
  }

  /** The kept attributes and the references of one inode. */
  datatype Halves = Halves(kept: seq<LocalXattr>, refs: seq<nat>)

  function Promote(key: KeyFn, index: map<Key, nat>, xs: seq<LocalXattr>): Halves {
    if xs == [] then Halves([], [])
    else
      var h, x := Promote(key, index, xs[..|xs| - 1]), xs[|xs| - 1];
      if |h.refs| < MAX_SHARED && key(x) in index then h.(refs := h.refs + [index[key(x)]])
      else h.(kept := h.kept + [x])
  }

  /** The attributes of the list whose keys are shared, in list order. */
  function SharedOnes(key: KeyFn, index: map<Key, nat>, xs: seq<LocalXattr>): seq<LocalXattr> {
    if xs == [] then []
    else SharedOnes(key, index, xs[..|xs| - 1]) + (if key(xs[|xs| - 1]) in index then [xs[|xs| - 1]] else [])
  }

  function Resolve(table: seq<LocalXattr>, refs: seq<nat>): (r: seq<LocalXattr>)
    requires forall i :: 0 <= i < |refs| ==> refs[i] < |table|
    ensures |r| == |refs|
  {
    seq(|refs|, i requires 0 <= i < |refs| => table[refs[i]])
  }

  /** Attributes with one key are one attribute. */
  ghost predicate KeyTells(key: KeyFn, all: set<LocalXattr>) {
    forall x, y :: x in all && y in all && key(x) == key(y) ==> x == y
  }

  ghost predicate TableHolds(key: KeyFn, index: map<Key, nat>, table: seq<LocalXattr>) {
    forall k :: k in index ==> index[k] < |table| && key(table[index[k]]) == k
  }

  /** At most the first 128 attributes. */
  function Front(rs: seq<LocalXattr>): (r: seq<LocalXattr>)
    ensures |r| == if |rs| < MAX_SHARED then |rs| else MAX_SHARED
  {
    if |rs| < MAX_SHARED then rs else rs[..MAX_SHARED]
  }

  /** The references of the list are in the table and resolve to its first shared attributes. */
  ghost predicate Promoted(key: KeyFn, index: map<Key, nat>, table: seq<LocalXattr>, xs: seq<LocalXattr>) {
    var refs := Promote(key, index, xs).refs;
    && (forall i :: 0 <= i < |refs| ==> refs[i] < |table|)
    && Resolve(table, refs) == Front(SharedOnes(key, index, xs))
  }

  /** The references resolve to the first 128 shared attributes, and nothing is lost. */
  lemma {:induction false} PromoteHolds(key: KeyFn, index: map<Key, nat>, table: seq<LocalXattr>,
                                        all: set<LocalXattr>, xs: seq<LocalXattr>)
    requires TableHolds(key, index, table) && KeyTells(key, all)
    requires (forall x :: x in xs ==> x in all) && (forall x :: x in table ==> x in all)
    ensures Promoted(key, index, table, xs)
    ensures var h := Promote(key, index, xs);
            multiset(xs) == multiset(h.kept) + multiset(Resolve(table, h.refs))
  {
    if xs == [] {
    } else {
      var init, x := xs[..|xs| - 1], xs[|xs| - 1];
      assert xs == init + [x] && x in xs;
      forall y | y in init
        ensures y in xs
      {
      }
      PromoteHolds(key, index, table, all, init);
      PromoteStep(key, index, table, all, init, x);
      assert multiset(xs) == multiset(init) + multiset{x};
    }
  }

  lemma {:induction false} PromoteSnoc(key: KeyFn, index: map<Key, nat>, init: seq<LocalXattr>, x: LocalXattr)
    ensures var h0 := Promote(key, index, init);
            Promote(key, index, init + [x]) ==
            if |h0.refs| < MAX_SHARED && key(x) in index then h0.(refs := h0.refs + [index[key(x)]])
            else h0.(kept := h0.kept + [x])
    ensures SharedOnes(key, index, init + [x]) ==
            SharedOnes(key, index, init) + (if key(x) in index then [x] else [])
  {
    assert (init + [x])[..|init|] == init;
  }

  lemma {:induction false} ResolveSnoc(table: seq<LocalXattr>, refs: seq<nat>, r: nat)
    requires r < |table| && forall i :: 0 <= i < |refs| ==> refs[i] < |table|
    ensures Resolve(table, refs + [r]) == Resolve(table, refs) + [table[r]]
  {
  }

  lemma {:induction false} TakeSnoc(rs: seq<LocalXattr>, x: LocalXattr)
    ensures |rs| < MAX_SHARED ==> Front(rs + [x]) == Front(rs) + [x]
    ensures |rs| >= MAX_SHARED ==> Front(rs + [x]) == Front(rs)
  {
  }

  lemma {:induction false} PromoteStep(key: KeyFn, index: map<Key, nat>, table: seq<LocalXattr>,
                    all: set<LocalXattr>, init: seq<LocalXattr>, x: LocalXattr)
    requires TableHolds(key, index, table) && KeyTells(key, all)
    requires x in all && (forall y :: y in table ==> y in all)
    requires Promoted(key, index, table, init)
    ensures Promoted(key, index, table, init + [x])
    ensures var h, h0 := Promote(key, index, init + [x]), Promote(key, index, init);
            && ((h.kept == h0.kept + [x] && h.refs == h0.refs) ||
                (h.kept == h0.kept && Resolve(table, h.refs) == Resolve(table, h0.refs) + [x]))
  {
    PromoteSnoc(key, index, init, x);
    var h0, rs0 := Promote(key, index, init), SharedOnes(key, index, init);
    TakeSnoc(rs0, x);
    assert |h0.refs| == |Front(rs0)|;
    if |h0.refs| < MAX_SHARED && key(x) in index {
      var r := index[key(x)];
      assert table[r] in table && table[r] == x;
      ResolveSnoc(table, h0.refs, r);
    } else {
      assert rs0 + [] == rs0;
    }
  }

  /** The attributes that stay inline although they are shared come after 128 references. */
  lemma {:induction false} KeptShared(key: KeyFn, index: map<Key, nat>, xs: seq<LocalXattr>)
    ensures var h := Promote(key, index, xs);
            && |h.refs| <= MAX_SHARED
            && forall x :: x in h.kept && key(x) in index ==> |h.refs| == MAX_SHARED
  {
    if xs != [] {
      KeptShared(key, index, xs[..|xs| - 1]);
    }
  }

  lemma {:induction false} SharedOnesMembers(key: KeyFn, index: map<Key, nat>, xs: seq<LocalXattr>)
    ensures forall x :: x in SharedOnes(key, index, xs) ==> x in xs && key(x) in index
  {
    if xs != [] {
      SharedOnesMembers(key, index, xs[..|xs| - 1]);
    }
  }

  ghost predicate Lowest(key: KeyFn, index: map<Key, nat>, table: seq<LocalXattr>,
                         le: (LocalXattr, LocalXattr) -> bool, h: Halves)
    requires forall i :: 0 <= i < |h.refs| ==> h.refs[i] < |table|
  {
    forall x, y :: x in h.kept && key(x) in index && y in Resolve(table, h.refs) ==> le(y, x)
  }

  /** In a sorted list, the references take the lowest shared attributes. */
  lemma {:induction false} PromoteLowest(key: KeyFn, index: map<Key, nat>, table: seq<LocalXattr>, all: set<LocalXattr>,
                                         le: (LocalXattr, LocalXattr) -> bool, xs: seq<LocalXattr>)
    requires TableHolds(key, index, table) && KeyTells(key, all) && Sorted(le, xs)
    requires (forall x :: x in xs ==> x in all) && (forall x :: x in table ==> x in all)
    ensures Promoted(key, index, table, xs)
    ensures Lowest(key, index, table, le, Promote(key, index, xs))
  {
    PromoteHolds(key, index, table, all, xs);
    if xs != [] {
      var init, x := xs[..|xs| - 1], xs[|xs| - 1];
      assert xs == init + [x];
      PromoteLowest(key, index, table, all, le, init);
      LowestStep(key, index, table, all, le, init, x);
    }
  }

  lemma {:induction false} LowestStep(key: KeyFn, index: map<Key, nat>, table: seq<LocalXattr>, all: set<LocalXattr>,
                                      le: (LocalXattr, LocalXattr) -> bool, init: seq<LocalXattr>, x: LocalXattr)
    requires TableHolds(key, index, table) && KeyTells(key, all)
    requires x in all && (forall y :: y in table ==> y in all)
    requires Sorted(le, init + [x])
    requires Promoted(key, index, table, init) && Lowest(key, index, table, le, Promote(key, index, init))
    ensures Promoted(key, index, table, init + [x])
    ensures Lowest(key, index, table, le, Promote(key, index, init + [x]))
  {
    var h, h0 := Promote(key, index, init + [x]), Promote(key, index, init);
    PromoteSnoc(key, index, init, x);
    PromoteStep(key, index, table, all, init, x);
    KeptShared(key, index, init);
    SharedOnesMembers(key, index, init);
    forall z, y | z in h.kept && key(z) in index && y in Resolve(table, h.refs)
      ensures le(y, z)
    {
      if h.kept == h0.kept + [x] && h.refs == h0.refs {
        if z !in h0.kept {
          assert y in Front(SharedOnes(key, index, init)) && y in init;
          var i :| 0 <= i < |init| && init[i] == y;
          assert le((init + [x])[i], (init + [x])[|init|]);
        }
      }
    }
  }

  // --- Sorted lists have the same counts --------------------------------------

  lemma {:induction false} OccConcat(key: KeyFn, a: seq<LocalXattr>, b: seq<LocalXattr>, k: Key)
    ensures Occ(key, a + b, k) == Occ(key, a, k) + Occ(key, b, k)
  {
    if b == [] {
      assert a + b == a;
    } else {
      OccConcat(key, a, b[..|b| - 1], k);
      assert (a + b)[..|a + b| - 1] == a + b[..|b| - 1];
    }
  }

  lemma {:induction false} OccInsert(key: KeyFn, le: (LocalXattr, LocalXattr) -> bool, x: LocalXattr,
                                     s: seq<LocalXattr>, k: Key)
    ensures Occ(key, Insert(le, x, s), k) == Occ(key, [x], k) + Occ(key, s, k)
  {
    if s != [] && le(s[0], x) {
      OccInsert(key, le, x, s[1..], k);
      OccConcat(key, [s[0]], Insert(le, x, s[1..]), k);
      OccConcat(key, [s[0]], s[1..], k);
      assert s == [s[0]] + s[1..];
    } else {
      OccConcat(key, [x], s, k);
    }
  }

  lemma {:induction false} OccSort(key: KeyFn, le: (LocalXattr, LocalXattr) -> bool, s: seq<LocalXattr>, k: Key)
    ensures Occ(key, Sort(le, s), k) == Occ(key, s, k)
  {
    if s != [] {
      var init, x := s[..|s| - 1], s[|s| - 1];
      OccSort(key, le, init, k);
      OccInsert(key, le, x, Sort(le, init), k);
      OccConcat(key, init, [x], k);
      assert s == init + [x];
    }
  }

  function SortInode(le: (LocalXattr, LocalXattr) -> bool, x: Inode): Inode {
    x.(xattrs := x.xattrs.(local := Sort(le, x.xattrs.local)))
  }

  function SortAll(le: (LocalXattr, LocalXattr) -> bool, inodes: seq<Inode>): (r: seq<Inode>)
    ensures |r| == |inodes|
  {
    seq(|inodes|, i requires 0 <= i < |inodes| => SortInode(le, inodes[i]))
  }

  lemma {:induction false} TotalSorted(key: KeyFn, le: (LocalXattr, LocalXattr) -> bool, inodes: seq<Inode>, k: Key)
    ensures Total(key, SortAll(le, inodes), k) == Total(key, inodes, k)
  {
    if inodes != [] {
      var init, last := inodes[..|inodes| - 1], inodes[|inodes| - 1];
      TotalSorted(key, le, init, k);
      OccSort(key, le, last.xattrs.local, k);
      assert SortAll(le, inodes)[..|inodes| - 1] == SortAll(le, init);
    }
  }

  // --- The stages of `share_xattrs` -------------------------------------------

  method CountAttrs(key: KeyFn, inodes: array<Inode>) returns (counts: Counts)
    ensures counts == CountAll(key, inodes[..])
  {
    counts := [];
    ghost var s := inodes[..];
    var i := 0;
    assert s[..0] == [];
    while i < inodes.Length
      invariant 0 <= i <= inodes.Length && s == inodes[..]
      invariant counts == CountAll(key, s[..i])
    {
      var local := inodes[i].xattrs.local;
      ghost var before := counts;
      var j := 0;
      assert local[..0] == [];
      while j < |local|
        invariant 0 <= j <= |local|
        invariant counts == CountXs(key, before, local[..j])
      {
        assert local[..j + 1][..j] == local[..j];
        counts := Bump(counts, key(local[j]));
        j := j + 1;
      }
      assert local[..|local|] == local;
      assert s[..i + 1][..i] == s[..i];
      i := i + 1;
    }
    assert s[..|s|] == s;
  }

  predicate KeyLeq(a: Key, b: Key) { a == b || KeyLess(a, b) }

  /** A list in order does not change under the sort. */
  lemma {:induction false} SortOfAscending(ks: seq<Key>)
    requires AscendingKeys(ks)
    ensures Sort(KeyLeq, ks) == ks
  {
    if ks != [] {
      var init, last := ks[..|ks| - 1], ks[|ks| - 1];
      SortOfAscending(init);
      InsertLast(init, last);
      assert ks == init + [last];
    }
  }

  lemma {:induction false} InsertLast(ks: seq<Key>, k: Key)
    requires forall i :: 0 <= i < |ks| ==> KeyLess(ks[i], k)
    ensures Insert(KeyLeq, k, ks) == ks + [k]
  {
    if ks != [] {
      InsertLast(ks[1..], k);
      assert ks == [ks[0]] + ks[1..];
    }
  }

  method SharedKeys(key: KeyFn, inodes: array<Inode>) returns (ks: seq<Key>)
    ensures ks == Repeated(CountAll(key, inodes[..]))
  {
    var counts := CountAttrs(key, inodes);
    ks := [];
    var i := 0;
    assert counts[..0] == [];
    while i < |counts|
      invariant 0 <= i <= |counts|
      invariant ks == Repeated(counts[..i])
    {
      assert counts[..i + 1][..i] == counts[..i];
      if counts[i].1 > 1 {
        ks := ks + [counts[i].0];
      }
      i := i + 1;
    }
    assert counts[..|counts|] == counts;
    RepeatedIsTotal(key, inodes[..], ([], []));
    SortOfAscending(ks);
    ks := Sort(KeyLeq, ks);
  }

  method BuildIndex(ks: seq<Key>) returns (index: map<Key, nat>)
    requires AscendingKeys(ks)
    ensures IndexOf(ks, index)
  {
    index := map[];
    var i := 0;
    while i < |ks|
      invariant 0 <= i <= |ks|
      invariant forall k :: k in index <==> k in ks[..i]
      invariant forall j :: 0 <= j < i ==> ks[j] in index && index[ks[j]] == |ks| - 1 - j
    {
      forall j | 0 <= j < i
        ensures ks[j] != ks[i]
      {
        KeyLessTotal(ks[j], ks[i]);
      }
      index := index[ks[i] := |ks| - 1 - i];
      i := i + 1;
    }
    assert ks[..|ks|] == ks;
  }

  ghost predicate Represents(key: KeyFn, index: map<Key, nat>, all: set<LocalXattr>, repr: map<Key, LocalXattr>) {
    forall k :: k in repr ==> k in index && key(repr[k]) == k && repr[k] in all
  }

  /** Every attribute of the list with a shared key has a representative. */
  ghost predicate Covers(key: KeyFn, index: map<Key, nat>, repr: map<Key, LocalXattr>, xs: seq<LocalXattr>) {
    forall x :: x in xs && key(x) in index ==> key(x) in repr
  }

  method FindRepresentatives(key: KeyFn, index: map<Key, nat>, inodes: array<Inode>, ghost all: set<LocalXattr>)
    returns (repr: map<Key, LocalXattr>)
    requires forall i :: 0 <= i < inodes.Length ==> forall x :: x in inodes[i].xattrs.local ==> x in all
    ensures Represents(key, index, all, repr)
    ensures forall i :: 0 <= i < inodes.Length ==> Covers(key, index, repr, inodes[i].xattrs.local)
  {
    repr := map[];
    var i := 0;
    while i < inodes.Length
      invariant 0 <= i <= inodes.Length
      invariant Represents(key, index, all, repr)
      invariant forall m :: 0 <= m < i ==> Covers(key, index, repr, inodes[m].xattrs.local)
    {
      var local := inodes[i].xattrs.local;
      ghost var before := repr;
      var j := 0;
      while j < |local|
        invariant 0 <= j <= |local|
        invariant Represents(key, index, all, repr)
        invariant before.Keys <= repr.Keys
        invariant Covers(key, index, repr, local[..j])
      {
        var k := key(local[j]);
        assert local[j] in local;
        if k in index && k !in repr {
          repr := repr[k := local[j]];
        }
        assert local[..j + 1] == local[..j] + [local[j]];
        j := j + 1;
      }
      assert local[..|local|] == local;
      i := i + 1;
    }
  }

  method BuildTable(key: KeyFn, ks: seq<Key>, repr: map<Key, LocalXattr>) returns (table: seq<LocalXattr>)
    requires forall k :: k in ks ==> k in repr && key(repr[k]) == k
    ensures TableOf(key, ks, table)
    ensures forall x :: x in table ==> exists k :: k in ks && repr[k] == x
  {
    table := [];
    var i := |ks|;
    while i > 0
      invariant 0 <= i <= |ks| && |table| == |ks| - i
      invariant forall j :: i <= j < |ks| ==> key(table[|ks| - 1 - j]) == ks[j]
      invariant forall x :: x in table ==> exists k :: k in ks && repr[k] == x
      decreases i
    {
      i := i - 1;
      assert ks[i] in ks;
      table := table + [repr[ks[i]]];
    }
  }

  function PromoteInode(key: KeyFn, index: map<Key, nat>, x: Inode): Inode {
    var h := Promote(key, index, x.xattrs.local);
    x.(xattrs := x.xattrs.(local := h.kept, shared := h.refs))
  }

  /** The `retain` of one inode: the lowest shared keys go, until 128 are gone. */
  method Retain(key: KeyFn, index: map<Key, nat>, xs: seq<LocalXattr>) returns (kept: seq<LocalXattr>, refs: seq<nat>)
    ensures Halves(kept, refs) == Promote(key, index, xs)
  {
    kept, refs := [], [];
    var i := 0;
    assert xs[..0] == [];
    while i < |xs|
      invariant 0 <= i <= |xs|
      invariant Halves(kept, refs) == Promote(key, index, xs[..i])
    {
      assert xs[..i + 1][..i] == xs[..i];
      var k := key(xs[i]);
      if |refs| == MAX_SHARED || k !in index {
        KeptShared(key, index, xs[..i]);
        kept := kept + [xs[i]];
      } else {
        KeptShared(key, index, xs[..i]);
        refs := refs + [index[k]];
      }
      i := i + 1;
    }
    assert xs[..|xs|] == xs;
  }

  // --- The whole of `share_xattrs` --------------------------------------------

  ghost predicate InTable(key: KeyFn, table: seq<LocalXattr>, k: Key) {
    exists r :: 0 <= r < |table| && key(table[r]) == k
  }

  /** The table holds exactly the keys that occur more than once, the largest first. */
  ghost predicate TableShared(key: KeyFn, before: seq<Inode>, table: seq<LocalXattr>) {
    && (forall k :: InTable(key, table, k) <==> Total(key, before, k) > 1)
    && (forall r, q :: 0 <= r < q < |table| ==> KeyLess(key(table[q]), key(table[r])))
  }

  ghost predicate RefsOk(table: seq<LocalXattr>, refs: seq<nat>) {
    |refs| <= MAX_SHARED && forall i :: 0 <= i < |refs| ==> refs[i] < |table|
  }

  /**
   Inode `b` is `a` with its attributes shared: no attribute is lost or invented,
   and a repeated one stays inline only behind 128 references to lower ones.
   */
  ghost predicate InodeShared(key: KeyFn, le: (LocalXattr, LocalXattr) -> bool, before: seq<Inode>,
                              table: seq<LocalXattr>, a: Inode, b: Inode) {
    && b == a.(xattrs := a.xattrs.(local := b.xattrs.local, shared := b.xattrs.shared))
    && RefsOk(table, b.xattrs.shared)
    && multiset(a.xattrs.local) == multiset(b.xattrs.local) + multiset(Resolve(table, b.xattrs.shared))
    && Sorted(le, b.xattrs.local)
    && (forall x :: x in b.xattrs.local && Total(key, before, key(x)) > 1 ==>
          |b.xattrs.shared| == MAX_SHARED && forall y :: y in Resolve(table, b.xattrs.shared) ==> le(y, x))
  }

  lemma {:induction false} KeptSorted(key: KeyFn, index: map<Key, nat>, le: (LocalXattr, LocalXattr) -> bool,
                                      xs: seq<LocalXattr>)
    requires Sorted(le, xs)
    ensures Sorted(le, Promote(key, index, xs).kept)
    ensures forall x :: x in Promote(key, index, xs).kept ==> x in xs
  {
    if xs != [] {
      var init, x := xs[..|xs| - 1], xs[|xs| - 1];
      KeptSorted(key, index, le, init);
      var kept := Promote(key, index, init).kept;
      forall i | 0 <= i < |kept|
        ensures le(kept[i], x)
      {
        assert kept[i] in init;
        var m :| 0 <= m < |init| && init[m] == kept[i];
        assert le(xs[m], xs[|xs| - 1]);
      }
    }
  }

  lemma {:induction false} IndexTable(key: KeyFn, ks: seq<Key>, index: map<Key, nat>, table: seq<LocalXattr>)
    requires IndexOf(ks, index) && TableOf(key, ks, table)
    ensures TableHolds(key, index, table)
  {
    forall k | k in index
      ensures index[k] < |table| && key(table[index[k]]) == k
    {
      var i :| 0 <= i < |ks| && ks[i] == k;
      assert key(table[|ks| - 1 - i]) == ks[i];
    }
  }

  lemma {:induction false} TableIsShared(key: KeyFn, before: seq<Inode>, ks: seq<Key>, table: seq<LocalXattr>)
    requires AscendingKeys(ks) && TableOf(key, ks, table)
    requires forall k :: k in ks <==> Total(key, before, k) > 1
    ensures TableShared(key, before, table)
  {
    var n := |ks|;
    forall r | 0 <= r < n
      ensures key(table[r]) == ks[n - 1 - r]
    {
      assert key(table[n - 1 - (n - 1 - r)]) == ks[n - 1 - r];
    }
    forall k
      ensures InTable(key, table, k) <==> k in ks
    {
      if k in ks {
        var i :| 0 <= i < n && ks[i] == k;
        assert key(table[n - 1 - i]) == k;
      }
    }
  }

  lemma {:induction false} PromotedIsShared(key: KeyFn, le: (LocalXattr, LocalXattr) -> bool, before: seq<Inode>,
                                            index: map<Key, nat>, table: seq<LocalXattr>, all: set<LocalXattr>,
                                            a: Inode)
    requires TotalOrder(le) && TableHolds(key, index, table) && KeyTells(key, all)
    requires (forall x :: x in a.xattrs.local ==> x in all) && (forall x :: x in table ==> x in all)
    requires forall k :: Total(key, before, k) > 1 ==> k in index
    ensures InodeShared(key, le, before, table, a, PromoteInode(key, index, SortInode(le, a)))
  {
    var xs := Sort(le, a.xattrs.local);
    SortSorts(le, a.xattrs.local);
    SortPermutes(le, a.xattrs.local);
    SameElements(xs, a.xattrs.local);
    PromoteHolds(key, index, table, all, xs);
    PromoteLowest(key, index, table, all, le, xs);
    KeptShared(key, index, xs);
    KeptSorted(key, index, le, xs);
  }

  lemma {:induction false} SharedKeysAreTotal(key: KeyFn, le: (LocalXattr, LocalXattr) -> bool, before: seq<Inode>)
    ensures var ks := Repeated(CountAll(key, SortAll(le, before)));
            AscendingKeys(ks) && forall k :: k in ks <==> Total(key, before, k) > 1
  {
    var ks := Repeated(CountAll(key, SortAll(le, before)));
    RepeatedIsTotal(key, SortAll(le, before), ([], []));
    forall k
      ensures k in ks <==> Total(key, before, k) > 1
    {
      RepeatedIsTotal(key, SortAll(le, before), k);
      TotalSorted(key, le, before, k);
    }
  }

  lemma {:induction false} TotalHasHolder(key: KeyFn, inodes: seq<Inode>, k: Key) returns (i: nat, x: LocalXattr)
    requires Total(key, inodes, k) > 0
    ensures i < |inodes| && x in inodes[i].xattrs.local && key(x) == k
  {
    var last := inodes[|inodes| - 1].xattrs.local;
    if Occ(key, last, k) > 0 {
      i := |inodes| - 1;
      x := OccHasHolder(key, last, k);
    } else {
      i, x := TotalHasHolder(key, inodes[..|inodes| - 1], k);
    }
  }

  lemma {:induction false} OccHasHolder(key: KeyFn, xs: seq<LocalXattr>, k: Key) returns (x: LocalXattr)
    requires Occ(key, xs, k) > 0
    ensures x in xs && key(x) == k
  {
    if key(xs[|xs| - 1]) == k {
      x := xs[|xs| - 1];
    } else {
      x := OccHasHolder(key, xs[..|xs| - 1], k);
    }
  }

  /** Moves the repeated attributes of the inodes into the shared table, in place. */
  method ShareXattrs(key: KeyFn, le: (LocalXattr, LocalXattr) -> bool, inodes: array<Inode>, ghost all: set<LocalXattr>)
    returns (table: seq<LocalXattr>)
    requires TotalOrder(le) && KeyTells(key, all)
    requires forall i :: 0 <= i < inodes.Length ==> forall x :: x in inodes[i].xattrs.local ==> x in all
    modifies inodes
    ensures TableShared(key, old(inodes[..]), table)
    ensures forall x :: x in table ==> x in all
    ensures forall i :: 0 <= i < inodes.Length ==>
              InodeShared(key, le, old(inodes[..]), table, old(inodes[i]), inodes[i])
  {
    ghost var before := inodes[..];
    SortLocals(le, inodes);
    ghost var sorted := inodes[..];
    assert sorted == SortAll(le, before);
    SortedInAll(le, before, all);
    var ks := SharedKeys(key, inodes);
    SharedKeysAreTotal(key, le, before);
    var index := BuildIndex(ks);
    var repr := FindRepresentatives(key, index, inodes, all);
    forall k | k in ks
      ensures k in repr && key(repr[k]) == k
    {
      TotalSorted(key, le, before, k);
      var i, x := TotalHasHolder(key, sorted, k);
      assert Covers(key, index, repr, inodes[i].xattrs.local);
    }
    table := BuildTable(key, ks, repr);
    IndexTable(key, ks, index, table);
    TableIsShared(key, before, ks, table);
    PromoteAll(key, index, inodes);
    forall i | 0 <= i < inodes.Length
      ensures InodeShared(key, le, before, table, before[i], inodes[i])
    {
      PromotedIsShared(key, le, before, index, table, all, before[i]);
    }
  }

  lemma {:induction false} SortedInAll(le: (LocalXattr, LocalXattr) -> bool, before: seq<Inode>, all: set<LocalXattr>)
    requires forall i :: 0 <= i < |before| ==> forall x :: x in before[i].xattrs.local ==> x in all
    ensures var s := SortAll(le, before);
            forall i :: 0 <= i < |s| ==> forall x :: x in s[i].xattrs.local ==> x in all
  {
    var s := SortAll(le, before);
    forall i, x | 0 <= i < |s| && x in s[i].xattrs.local
      ensures x in all
    {
      SortPermutes(le, before[i].xattrs.local);
      SameElements(s[i].xattrs.local, before[i].xattrs.local);
      assert x in before[i].xattrs.local;
    }
  }

  method SortLocals(le: (LocalXattr, LocalXattr) -> bool, inodes: array<Inode>)
    modifies inodes
    ensures inodes[..] == SortAll(le, old(inodes[..]))
  {
    var i := 0;
    while i < inodes.Length
      invariant 0 <= i <= inodes.Length
      invariant forall k :: 0 <= k < inodes.Length ==>
                  inodes[k] == if k < i then SortInode(le, old(inodes[k])) else old(inodes[k])
    {
      inodes[i] := SortInode(le, inodes[i]);
      i := i + 1;
    }
  }

  method PromoteAll(key: KeyFn, index: map<Key, nat>, inodes: array<Inode>)
    modifies inodes
    ensures forall k :: 0 <= k < inodes.Length ==> inodes[k] == PromoteInode(key, index, old(inodes[k]))
  {
    var i := 0;
    while i < inodes.Length
      invariant 0 <= i <= inodes.Length
      invariant forall k :: 0 <= k < inodes.Length ==>
                  inodes[k] == if k < i then PromoteInode(key, index, old(inodes[k])) else old(inodes[k])
    {
      var kept, refs := Retain(key, index, inodes[i].xattrs.local);
      inodes[i] := inodes[i].(xattrs := inodes[i].xattrs.(local := kept, shared := refs));
      i := i + 1;
    }
  }

  // --- Occurrences and inodes ---------------------------------------------------

  /** The number of inodes that hold the key. */
  function Holders(key: KeyFn, inodes: seq<Inode>, k: Key): nat {
    if inodes == [] then 0
    else
      Holders(key, inodes[..|inodes| - 1], k)
      + (if Occ(key, inodes[|inodes| - 1].xattrs.local, k) > 0 then 1 else 0)
  }

  /** Some inode holds the key more than once. */
  ghost predicate Twice(key: KeyFn, inodes: seq<Inode>, k: Key) {
    exists i :: 0 <= i < |inodes| && Occ(key, inodes[i].xattrs.local, k) > 1
  }

  lemma {:induction false} TwiceSnoc(key: KeyFn, init: seq<Inode>, last: Inode, k: Key)
    ensures Twice(key, init + [last], k) <==> Twice(key, init, k) || Occ(key, last.xattrs.local, k) > 1
  {
    var all := init + [last];
    if i :| 0 <= i < |init| && Occ(key, init[i].xattrs.local, k) > 1 {
      assert all[i] == init[i];
    }
    assert all[|init|] == last;
  }

  /** There are as many occurrences as holders, unless some inode holds the key more than once. */
  lemma {:induction false} TotalOfHolders(key: KeyFn, inodes: seq<Inode>, k: Key)
    ensures Total(key, inodes, k) >= Holders(key, inodes, k)
    ensures Total(key, inodes, k) > Holders(key, inodes, k) <==> Twice(key, inodes, k)
    ensures Holders(key, inodes, k) == 0 ==> Total(key, inodes, k) == 0
  {
    if inodes != [] {
      var init, last := inodes[..|inodes| - 1], inodes[|inodes| - 1];
      assert inodes == init + [last];
      TotalOfHolders(key, init, k);
      TwiceSnoc(key, init, last, k);
    }
  }

  /**
   A key is in the table exactly if two or more inodes hold it, unless one inode
   alone holds it, and more than once.
   */
  lemma {:induction false} SharedByInodes(key: KeyFn, before: seq<Inode>, table: seq<LocalXattr>, k: Key)
    requires TableShared(key, before, table)
    ensures (InTable(key, table, k) <==> Holders(key, before, k) > 1) <==>
            !(Holders(key, before, k) == 1 && Twice(key, before, k))
  {
    TotalOfHolders(key, before, k);
  }

  /** An empty file with one attribute twice. */
  function HoldsTwice(x: LocalXattr): Inode {
    Inode(0, 0, 0, (0, 0), XattrSet([x, x], [], {0}), EmptyReg)
  }

  lemma {:induction false} OneHolder(key: KeyFn, x: LocalXattr)
    ensures Holders(key, [HoldsTwice(x)], key(x)) == 1 && Total(key, [HoldsTwice(x)], key(x)) == 2
  {
    assert [HoldsTwice(x)][..0] == [] && [x, x][..1] == [x] && [x][..0] == [];
    assert Occ(key, [x], key(x)) == 1;
    assert Occ(key, [x, x], key(x)) == 2;
    assert Holders(key, [], key(x)) == 0 && Total(key, [], key(x)) == 0;
  }

  /** The sharing puts an attribute that only one inode holds into the table. */
  method ShareOne(key: KeyFn, le: (LocalXattr, LocalXattr) -> bool, x: LocalXattr) returns (table: seq<LocalXattr>)
    requires TotalOrder(le)
    ensures InTable(key, table, key(x)) && Holders(key, [HoldsTwice(x)], key(x)) == 1
  {
    var inodes := new Inode[1](_ => HoldsTwice(x));
    assert inodes[..] == [HoldsTwice(x)];
    OneHolder(key, x);
    table := ShareXattrs(key, le, inodes, {x});
  }
}
