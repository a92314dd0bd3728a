/** Extended attributes: prefix table, entry sizes, and the set of one inode. */
module Xattrs {
  import opened Bytes
  import opened Order

  type Xxh = (Blob, nat) -> nat

  const FILTER_SEED: nat := 0x25BB_E08F

  /** The EROFS name prefixes. Index 5 is never used by the writer. */
  function Prefix(idx: nat): Blob
    requires idx < 7
  {
    match idx
    case 0 => []
    case 1 => Ascii("user.")
    case 2 => Ascii("system.posix_acl_access")
    case 3 => Ascii("system.posix_acl_default")
    case 4 => Ascii("trusted.")
    case 5 => Ascii("lustre.")
    case _ => Ascii("security.")
  }

  /** The prefix can stand for the start of the name. */
  predicate Applies(idx: nat, name: Blob)
    requires idx < 7
  {
    idx != 5 && Prefix(idx) <= name
  }

  /** The greatest index, from `idx` down, whose prefix starts the name. */
  function PrefixIndex(name: Blob, idx: nat): (r: nat)
    requires idx < 7
    ensures r <= idx && Applies(r, name)
    ensures forall k :: r < k <= idx ==> !Applies(k, name)
  {
    if Applies(idx, name) then idx else PrefixIndex(name, idx - 1)
  }

  datatype LocalXattr = LocalXattr(prefix: nat, suffix: Blob, value: Blob) {
    predicate Valid() {
      && prefix < 7
      && |suffix| <= 255 && |value| <= 65535
      && prefix == PrefixIndex(FullKey(), 6)
    }

    function FullKey(): Blob
      requires prefix < 7
    {
      Prefix(prefix) + suffix
    }

    function EntrySize(): nat {
      RoundUp(4 + |suffix| + |value|, 4)
    }
  }

  /** The attribute of a name and a value, with the prefix that `add` picks. */
  function Split(name: Blob, value: Blob): (x: LocalXattr)
    ensures x.prefix < 7 && x.FullKey() == name && x.value == value
    ensures x.prefix == PrefixIndex(name, 6)
  {
    var idx := PrefixIndex(name, 6);
    LocalXattr(idx, name[|Prefix(idx)|..], value)
  }

  /** An attribute is determined by its full name and its value. */
  lemma {:induction false} SplitIsUnique(x: LocalXattr)
    requires x.Valid()
    ensures x == Split(x.FullKey(), x.value)
  {
    assert x.FullKey()[|Prefix(x.prefix)|..] == x.suffix;
  }

  /** The limits of the EROFS length fields. The writer panics on a longer name or value. */
  predicate Fits(name: Blob, value: Blob) {
    |Split(name, value).suffix| <= 255 && |value| <= 65535
  }

  function FilterBit(xxh: Xxh, x: LocalXattr): nat {
    Rem(xxh(x.suffix, FILTER_SEED + x.prefix), 32)
  }

  function Sizes(xs: seq<LocalXattr>): nat {
    if xs == [] then 0 else Sizes(xs[..|xs| - 1]) + xs[|xs| - 1].EntrySize()
  }

  /** `filter` is the set of the one bits of the name filter word. */
  datatype XattrSet = XattrSet(local: seq<LocalXattr>, shared: seq<nat>, filter: set<nat>) {
    predicate Valid() {
      && (forall x :: x in local ==> x.Valid())
      && (filter == {} ==> local == [] && shared == [])
      && (forall b :: b in filter ==> b < 32)
    }

    function ByteSize(): nat {
      if filter == {} then 0 else 12 + 4 * |shared| + Sizes(local)
    }

    function Icount(): nat {
      if ByteSize() == 0 then 0 else 1 + Quot(ByteSize() - 12, 4)
    }
  }

  const NO_XATTRS: XattrSet := XattrSet([], [], {})

  /** Adds one attribute: the search of `add` runs down the prefix table. */
  method Add(xxh: Xxh, xs: XattrSet, name: Blob, value: Blob) returns (r: XattrSet)
    ensures r == Added(xxh, xs, name, value)
  {
    var idx := 6;
    while !Applies(idx, name)
      invariant 0 <= idx <= 6
      invariant forall k :: idx < k <= 6 ==> !Applies(k, name)
      decreases idx
    {
      idx := idx - 1;
    }
    var suffix := name[|Prefix(idx)|..];
    var x := LocalXattr(idx, suffix, value);
    r := XattrSet(xs.local + [x], xs.shared, xs.filter + {FilterBit(xxh, x)});
  }

  function Added(xxh: Xxh, xs: XattrSet, name: Blob, value: Blob): XattrSet {
    var x := Split(name, value);
    xs.(local := xs.local + [x], filter := xs.filter + {FilterBit(xxh, x)})
  }

  function Adder(xxh: Xxh): (XattrSet, (Blob, Blob)) -> XattrSet {
    (xs: XattrSet, pair: (Blob, Blob)) => Added(xxh, xs, pair.0, pair.1)
  }

  function AddAll(xxh: Xxh, xs: XattrSet, pairs: seq<(Blob, Blob)>): XattrSet {
    Fold(Adder(xxh), xs, pairs)
  }

  predicate AllFit(pairs: seq<(Blob, Blob)>) {
    forall i :: 0 <= i < |pairs| ==> Fits(pairs[i].0, pairs[i].1)
  }

  function Names(xs: seq<LocalXattr>): seq<(Blob, Blob)>
    requires forall x :: x in xs ==> x.prefix < 7
  {
    seq(|xs|, i requires 0 <= i < |xs| => (xs[i].FullKey(), xs[i].value))
  }

  /** The set holds exactly the given names and values, in their order. */
  lemma {:induction false} AddAllHolds(xxh: Xxh, xs: XattrSet, pairs: seq<(Blob, Blob)>)
    requires xs.Valid() && AllFit(pairs)
    ensures var r := AddAll(xxh, xs, pairs);
            && r.Valid() && r.shared == xs.shared
            && Names(r.local) == Names(xs.local) + pairs
            && (pairs != [] ==> r.filter != {})
            && |r.local| == |xs.local| + |pairs|
  {
    if pairs == [] {
      assert Names(xs.local) + [] == Names(xs.local);
    } else {
      var init, last := pairs[..|pairs| - 1], pairs[|pairs| - 1];
      AddAllHolds(xxh, xs, init);
      var r := AddAll(xxh, xs, init);
      var x := Split(last.0, last.1);
      assert pairs == init + [last];
      assert Fits(last.0, last.1);
      assert Names(r.local + [x]) == Names(r.local) + [last];
      assert FilterBit(xxh, x) in Added(xxh, r, last.0, last.1).filter;
    }
  }

  lemma {:induction false} AddAllConcat(xxh: Xxh, xs: XattrSet, a: seq<(Blob, Blob)>, b: seq<(Blob, Blob)>)
    ensures AddAll(xxh, xs, a + b) == AddAll(xxh, AddAll(xxh, xs, a), b)
  {
    FoldConcat(Adder(xxh), xs, a, b);
  }

  /** The filter bits of a list of attributes. */
  ghost function BitsOf(xxh: Xxh, xs: seq<LocalXattr>): set<nat> {
    set x | x in xs :: FilterBit(xxh, x)
  }

  /** The adds set exactly the filter bits of the attributes. */
  lemma {:induction false} AddAllMarks(xxh: Xxh, xs: XattrSet, pairs: seq<(Blob, Blob)>)
    requires xs.filter == BitsOf(xxh, xs.local)
    ensures var r := AddAll(xxh, xs, pairs); r.filter == BitsOf(xxh, r.local)
  {
    if pairs != [] {
      var init, last := pairs[..|pairs| - 1], pairs[|pairs| - 1];
      AddAllMarks(xxh, xs, init);
      var r, x := AddAll(xxh, xs, init), Split(last.0, last.1);
      BitsSnoc(xxh, r.local, x);
    }
  }

  lemma {:induction false} BitsSnoc(xxh: Xxh, xs: seq<LocalXattr>, x: LocalXattr)
    ensures BitsOf(xxh, xs + [x]) == BitsOf(xxh, xs) + {FilterBit(xxh, x)}
  {
    assert forall y :: y in xs + [x] <==> y in xs || y == x;
  }

  lemma {:induction false} SizesMultiple(xs: seq<LocalXattr>)
    ensures Rem(Sizes(xs), 4) == 0
  {
    if xs != [] {
      SizesMultiple(xs[..|xs| - 1]);
      RoundUpAligned(4 + |xs[|xs| - 1].suffix| + |xs[|xs| - 1].value|, 4);
      RemAdd(Sizes(xs[..|xs| - 1]), xs[|xs| - 1].EntrySize(), 4);
    }
  }

  /** The count field recovers the exact size of the area, by the EROFS rule 12 + 4 (icount - 1). */
  lemma {:induction false} IcountRecoversSize(xs: XattrSet)
    ensures xs.ByteSize() == if xs.Icount() == 0 then 0 else 12 + 4 * (xs.Icount() - 1)
  {
    if xs.ByteSize() > 0 {
      SizesMultiple(xs.local);
      RemOf4(|xs.shared|);
      RemAdd(4 * |xs.shared|, Sizes(xs.local), 4);
      QuotRem4(xs.ByteSize() - 12);
    }
  }
}
