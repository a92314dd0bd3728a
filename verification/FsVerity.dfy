/**
 The streaming fs-verity hasher and the Merkle tree of the kernel fs-verity
 documentation ("Merkle tree" and "fs-verity descriptor"). SHA-256 is a parameter.
 */
module FsVerity {
  import opened Bytes

  const BLOCK: nat := 4096

  /** The number of hashes in one block of the tree. */
  const FANOUT: nat := 128

  type Hash = b: Blob | |b| == 32 witness Zeros(32)

  type Sha = Blob -> Hash

  const NO_HASH: Hash := Zeros(32)

  // --- The Merkle tree --------------------------------------------------------

  function Pad(b: Blob): (r: Blob)
    requires |b| <= BLOCK
    ensures |r| == BLOCK
  {
    b + Zeros(BLOCK - |b|)
  }

  function Flat(hs: seq<Hash>): (b: Blob)
    ensures |b| == 32 * |hs|
  {
    if hs == [] then [] else hs[0] + Flat(hs[1..])
  }

  /** The hash of one block of a hash level. */
  function Node(sha: Sha, hs: seq<Hash>): Hash
    requires |hs| <= FANOUT
  {
    sha(Pad(Flat(hs)))
  }

  /** The hashes of the zero-padded 4096-byte blocks of the data. */
  function Leaves(sha: Sha, data: Blob): seq<Hash> {
    if data == [] then []
    else if |data| <= BLOCK then [sha(Pad(data))]
    else [sha(data[..BLOCK])] + Leaves(sha, data[BLOCK..])
  }

  /** The next level: each block of it holds 128 hashes, the last one is padded. */
  function Up(sha: Sha, hs: seq<Hash>): (r: seq<Hash>)
    ensures |r| == (|hs| + 127) / 128
  {
    if hs == [] then []
    else if |hs| <= FANOUT then [Node(sha, hs)]
    else [Node(sha, hs[..FANOUT])] + Up(sha, hs[FANOUT..])
  }

  function Root(sha: Sha, hs: seq<Hash>): Hash
    decreases |hs|
  {
    if hs == [] then NO_HASH
    else if |hs| == 1 then hs[0]
    else Root(sha, Up(sha, hs))
  }

  /** The 256-byte fs-verity descriptor: SHA-256, 4096-byte blocks, no salt. */
  function Descriptor(size: nat, root: Hash): (d: Blob)
    ensures |d| == 256
  {
    [1] + [1] + [12] + [0] + Zeros(4) + Le(size, 8) + root + Zeros(32) + Zeros(32) + Zeros(144)
  }

  function Digest(sha: Sha, data: Blob): Hash {
    sha(Descriptor(|data|, Root(sha, Leaves(sha, data))))
  }

  // --- Full groups and rests --------------------------------------------------

  /** The hashes of the complete groups of 128. */
  ghost function Full(sha: Sha, hs: seq<Hash>): (r: seq<Hash>)
    ensures |r| == |hs| / 128
  {
    if |hs| < FANOUT then [] else [Node(sha, hs[..FANOUT])] + Full(sha, hs[FANOUT..])
  }

  /** The hashes after the last complete group. */
  ghost function Rest(hs: seq<Hash>): (r: seq<Hash>)
    ensures |r| == |hs| % 128
  {
    if |hs| < FANOUT then hs else Rest(hs[FANOUT..])
  }

  /** The complete groups of groups, `k` levels up. */
  ghost function Level(sha: Sha, k: nat, hs: seq<Hash>): seq<Hash> {
    if k == 0 then hs else Full(sha, Level(sha, k - 1, hs))
  }

  ghost function Pow128(k: nat): (p: nat)
    ensures p >= 1
  {
    if k == 0 then 1 else 128 * Pow128(k - 1)
  }

  lemma {:induction false} FlatConcat(a: seq<Hash>, b: seq<Hash>)
    ensures Flat(a + b) == Flat(a) + Flat(b)
  {
    if a == [] {
      assert a + b == b;
    } else {
      FlatConcat(a[1..], b);
      assert (a + b)[0] == a[0] && (a + b)[1..] == a[1..] + b;
      Assoc(a[0], Flat(a[1..]), Flat(b));
    }
  }

  lemma {:induction false} Assoc(a: Blob, b: Blob, c: Blob)
    ensures a + (b + c) == (a + b) + c
  {
  }

  lemma {:induction false} FlatOne(h: Hash)
    ensures Flat([h]) == h
  {
    assert [h][1..] == [];
  }

  /** One more hash fills the open group or extends it. */
  lemma {:induction false} FullSnoc(sha: Sha, hs: seq<Hash>, h: Hash)
    ensures |Rest(hs)| == 127 ==>
              Full(sha, hs + [h]) == Full(sha, hs) + [Node(sha, Rest(hs) + [h])] && Rest(hs + [h]) == []
    ensures |Rest(hs)| < 127 ==>
              Full(sha, hs + [h]) == Full(sha, hs) && Rest(hs + [h]) == Rest(hs) + [h]
    decreases |hs|
  {
    var t := hs + [h];
    if |hs| < FANOUT {
      if |hs| == 127 {
        assert t[..FANOUT] == t && t[FANOUT..] == [];
      }
    } else {
      FullSnoc(sha, hs[FANOUT..], h);
      assert t[..FANOUT] == hs[..FANOUT];
      assert t[FANOUT..] == hs[FANOUT..] + [h];
    }
  }

  /** The next level of a list with a carry: the complete groups, then the open group. */
  lemma {:induction false} UpOfFull(sha: Sha, hs: seq<Hash>, carry: seq<Hash>)
    requires |carry| <= 1
    ensures var open := Rest(hs) + carry;
            Up(sha, hs + carry) == Full(sha, hs) + (if open == [] then [] else [Node(sha, open)])
    decreases |hs|
  {
    var t := hs + carry;
    if |hs| < FANOUT {
      assert Rest(hs) == hs;
    } else {
      UpOfFull(sha, hs[FANOUT..], carry);
      assert t[..FANOUT] == hs[..FANOUT];
      assert t[FANOUT..] == hs[FANOUT..] + carry;
      if |t| == FANOUT {
        assert t == hs && t[..FANOUT] == t;
      }
    }
  }

  lemma {:induction false} LeavesSnoc(sha: Sha, data: Blob, block: Blob)
    requires |data| % BLOCK == 0 && 0 < |block| <= BLOCK
    ensures Leaves(sha, data + block) == Leaves(sha, data) + [sha(Pad(block))]
    decreases |data|
  {
    var t := data + block;
    if data == [] {
      assert t == block;
    } else {
      LeavesSnoc(sha, data[BLOCK..], block);
      assert t[..BLOCK] == data[..BLOCK];
      assert t[BLOCK..] == data[BLOCK..] + block;
      if |data| == BLOCK {
        assert data[..BLOCK] == data && Pad(data) == data;
        assert data[BLOCK..] == [];
      }
    }
  }

  // --- The layers as a base-128 counter ---------------------------------------

  /** A layer keeps what its SHA-256 context took, and the room that is left. */
  datatype Layer = Layer(context: Blob, remaining: nat) {
    predicate Valid() { |context| + remaining == BLOCK }

    function Add(data: Blob): (l: Layer)
      requires Valid() && |data| <= remaining
      ensures l.Valid()
    {
      Layer(context + data, remaining - |data|)
    }

    /** The hash of the zero-padded block. The layer itself becomes `Empty()`. */
    function Complete(sha: Sha): Hash
      requires Valid()
    {
      sha(context + Zeros(remaining))
    }
  }

  function Empty(): Layer { Layer([], BLOCK) }

  /** The layer holds exactly the hashes `hs`. */
  predicate Holds(l: Layer, hs: seq<Hash>) {
    |hs| <= FANOUT && l.context == Flat(hs) && l.Valid()
  }

  /**
   The layers after the leaf hashes `hs`: layer `k` holds the hashes of digit `k`
   of the block count, and `value` is set exactly for a count of 128^|layers|.
   */
  ghost predicate Counts(sha: Sha, layers: seq<Layer>, value: Option<Hash>, hs: seq<Hash>) {
    var n := |layers|;
    && (forall k {:trigger layers[k]} :: 0 <= k < n ==> Holds(layers[k], Rest(Level(sha, k, hs))))
    && match value {
      case Some(v) => Level(sha, n, hs) == [v] && |hs| == Pow128(n)
      case None => Level(sha, n, hs) == [] && (if n == 0 then hs == [] else |hs| > Pow128(n - 1))
    }
  }

  lemma {:induction false} HoldsAdd(l: Layer, hs: seq<Hash>, h: Hash)
    requires Holds(l, hs) && |hs| < FANOUT
    ensures Holds(l.Add(h), hs + [h])
    ensures l.Add(h).remaining == 0 <==> |hs| == 127
  {
    FlatConcat(hs, [h]);
    FlatOne(h);
  }

  lemma {:induction false} HoldsComplete(sha: Sha, l: Layer, hs: seq<Hash>)
    requires Holds(l, hs)
    ensures l.Complete(sha) == Node(sha, hs)
  {
  }

  lemma {:induction false} LevelEqual(sha: Sha, i: nat, k: nat, a: seq<Hash>, b: seq<Hash>)
    requires i <= k && Level(sha, i, a) == Level(sha, i, b)
    ensures Level(sha, k, a) == Level(sha, k, b)
  {
    if i < k {
      LevelEqual(sha, i, k - 1, a, b);
    }
  }

  /** If every lower digit is zero, the count is that many whole trees. */
  lemma {:induction false} WholeTrees(sha: Sha, n: nat, hs: seq<Hash>)
    requires forall k :: 0 <= k < n ==> Rest(Level(sha, k, hs)) == []
    ensures |hs| == Pow128(n) * |Level(sha, n, hs)|
  {
    if n > 0 {
      WholeTrees(sha, n - 1, hs);
      var low := Level(sha, n - 1, hs);
      assert Rest(low) == [];
      assert |low| == 128 * |Level(sha, n, hs)|;
      MulAssoc(Pow128(n - 1), |Level(sha, n, hs)|);
    }
  }

  lemma {:induction false} WholeTree(sha: Sha, n: nat, hs: seq<Hash>)
    requires forall k :: 0 <= k < n ==> Rest(Level(sha, k, hs)) == []
    requires |Level(sha, n, hs)| == 1
    ensures |hs| == Pow128(n)
  {
    WholeTrees(sha, n, hs);
  }

  lemma {:induction false} MulAssoc(p: nat, m: nat)
    ensures p * (128 * m) == (128 * p) * m
  {
  }

  /** `n` without its `k` low base-128 digits. */
  ghost function Shift(n: nat, k: nat): nat {
    if k == 0 then n else Shift(n, k - 1) / 128
  }

  lemma {:induction false} LevelLength(sha: Sha, k: nat, hs: seq<Hash>)
    ensures |Level(sha, k, hs)| == Shift(|hs|, k)
  {
    if k > 0 {
      LevelLength(sha, k - 1, hs);
    }
  }

  lemma {:induction false} ShiftBelow(n: nat, k: nat, m: nat)
    ensures Shift(n, k) < m <==> n < m * Pow128(k)
  {
    if k > 0 {
      ShiftBelow(n, k - 1, 128 * m);
      assert Shift(n, k) < m <==> Shift(n, k - 1) < 128 * m;
      MulAssoc(Pow128(k - 1), m);
    }
  }

  /** Layer `k` holds digit `k` of the block count in base 128. */
  lemma {:induction false} LayersHoldDigits(sha: Sha, layers: seq<Layer>, value: Option<Hash>, hs: seq<Hash>, k: nat)
    requires Counts(sha, layers, value, hs) && k < |layers|
    ensures |layers[k].context| == 32 * (Shift(|hs|, k) % 128)
    ensures value.Some? <==> |hs| == Pow128(|layers|)
  {
    LevelLength(sha, k, hs);
    assert Holds(layers[k], Rest(Level(sha, k, hs)));
    LevelLength(sha, |layers|, hs);
    ShiftBelow(|hs|, |layers|, 1);
  }

  // --- The root of an unfinished counter --------------------------------------

  /** The hash that the levels below `k` pass up, if they hold an open group. */
  ghost function Carry(sha: Sha, k: nat, hs: seq<Hash>): (c: seq<Hash>)
    ensures |c| <= 1
  {
    if k == 0 then [] else
    var open := Rest(Level(sha, k - 1, hs)) + Carry(sha, k - 1, hs);
    if open == [] then [] else [Node(sha, open)]
  }

  /** Level `k` of the Merkle tree, with its padded last block. */
  ghost function Nodes(sha: Sha, k: nat, hs: seq<Hash>): seq<Hash> {
    if k == 0 then hs else Up(sha, Nodes(sha, k - 1, hs))
  }

  /** A tree level is its complete groups and the carry from below. */
  lemma {:induction false} NodesByCarry(sha: Sha, k: nat, hs: seq<Hash>)
    ensures Nodes(sha, k, hs) == Level(sha, k, hs) + Carry(sha, k, hs)
  {
    if k > 0 {
      NodesByCarry(sha, k - 1, hs);
      UpOfFull(sha, Level(sha, k - 1, hs), Carry(sha, k - 1, hs));
    }
  }

  /** `m` nodes need `h` more levels. */
  ghost predicate NeedsLevels(m: nat, h: nat) {
    m <= Pow128(h) && (if h == 0 then m == 1 else m > Pow128(h - 1))
  }

  lemma {:induction false} NeedsFewerLevels(m: nat, h: nat)
    requires h > 0 && NeedsLevels(m, h)
    ensures m > 1 && NeedsLevels((m + 127) / 128, h - 1)
  {
    assert Pow128(h) == 128 * Pow128(h - 1);
    if h > 1 {
      assert Pow128(h - 1) == 128 * Pow128(h - 2);
    }
  }

  lemma {:induction false} RootOfUp(sha: Sha, low: seq<Hash>, up: seq<Hash>, h: nat, less: nat)
    requires h == less + 1 && NeedsLevels(|low|, h) && up == Up(sha, low)
    ensures NeedsLevels(|up|, less) && Root(sha, low) == Root(sha, up)
  {
    NeedsFewerLevels(|low|, h);
  }

  lemma {:induction false} RootOfNodes(sha: Sha, n: nat, hs: seq<Hash>, k: nat, left: nat)
    requires n == k + left && NeedsLevels(|hs|, n)
    ensures NeedsLevels(|Nodes(sha, k, hs)|, left)
    ensures Root(sha, hs) == Root(sha, Nodes(sha, k, hs))
    decreases k
  {
    if k > 0 {
      var more := left + 1;
      RootOfNodes(sha, n, hs, k - 1, more);
      RootOfUp(sha, Nodes(sha, k - 1, hs), Nodes(sha, k, hs), more, left);
    }
  }

  lemma {:induction false} RootAtTop(sha: Sha, n: nat, hs: seq<Hash>)
    requires NeedsLevels(|hs|, n)
    ensures [Root(sha, hs)] == Level(sha, n, hs) + Carry(sha, n, hs)
  {
    RootOfNodes(sha, n, hs, n, 0);
    NodesByCarry(sha, n, hs);
  }

  /**
   `root_hash` takes 32 zero bytes for "no carry". That loses a carry which is
   32 zero bytes, and the loss shows only at a layer that holds nothing else:
   in any other layer the zero padding puts the bytes back.
   */
  ghost predicate CarryVisible(sha: Sha, n: nat, hs: seq<Hash>) {
    sha(Zeros(BLOCK)) == NO_HASH ||
    forall k :: 0 <= k < n && Carry(sha, k, hs) == [NO_HASH] ==> Rest(Level(sha, k, hs)) != []
  }

  /** A hash that never gives 32 zero bytes loses no carry. */
  lemma {:induction false} NonzeroHashKeepsCarry(sha: Sha, n: nat, hs: seq<Hash>)
    requires forall b: Blob :: |b| == BLOCK ==> sha(b) != NO_HASH
    ensures CarryVisible(sha, n, hs)
  {
    forall k | 0 <= k < n
      ensures Carry(sha, k, hs) != [NO_HASH]
    {
      if k > 0 {
        var open := Rest(Level(sha, k - 1, hs)) + Carry(sha, k - 1, hs);
        if open != [] {
          assert |Pad(Flat(open))| == BLOCK;
        }
      }
    }
  }

  /** Zero bytes after a block that is padded with zero bytes change nothing. */
  lemma {:induction false} ZeroHashIsPadding(sha: Sha, hs: seq<Hash>)
    requires |hs| < FANOUT
    ensures Node(sha, hs + [NO_HASH]) == Node(sha, hs)
  {
    FlatConcat(hs, [NO_HASH]);
    FlatOne(NO_HASH);
    assert Pad(Flat(hs + [NO_HASH])) == Pad(Flat(hs));
  }

  /** `value` stands for the carry, with 32 zero bytes for none. */
  ghost predicate Carries(value: Hash, carry: seq<Hash>) {
    value == if carry == [] then NO_HASH else carry[0]
  }

  /** What `root_hash` makes of one layer: the value it carries on. */
  function RootStep(sha: Sha, layer: Layer, value: Hash): Hash
    requires layer.Valid() && layer.remaining >= 32
  {
    var added := if value != NO_HASH then layer.Add(value) else layer;
    if added.remaining != BLOCK then added.Complete(sha) else NO_HASH
  }

  /** The number of layers for a count of leaf hashes. */
  ghost function Height(n: nat): nat
    decreases n
  {
    if n <= 1 then 0 else 1 + Height((n + 127) / 128)
  }

  lemma {:induction false} HeightOf(n: nat, h: nat)
    requires NeedsLevels(n, h)
    ensures Height(n) == h
  {
    if h > 0 {
      NeedsFewerLevels(n, h);
      HeightOf((n + 127) / 128, h - 1);
    }
  }

  // --- One leaf hash enters the counter ---------------------------------------

  /** The layers are ready for the next leaf hash: they have room for it. */
  ghost predicate Ready(sha: Sha, layers: seq<Layer>, hs: seq<Hash>) {
    var n := |layers|;
    && (forall k {:trigger layers[k]} :: 0 <= k < n ==> Holds(layers[k], Rest(Level(sha, k, hs))))
    && Level(sha, n, hs) == []
    && (if n == 0 then hs == [] else |hs| >= Pow128(n - 1))
  }

  /** A finished root value becomes the seed of a new top layer. */
  lemma {:induction false} SeedLayer(sha: Sha, layers: seq<Layer>, v: Hash, hs: seq<Hash>)
    requires Counts(sha, layers, Some(v), hs)
    ensures Ready(sha, layers + [Empty().Add(v)], hs)
  {
    var n := |layers|;
    HoldsAdd(Empty(), [], v);
    assert [] + [v] == [v];
    assert Rest([v]) == [v];
    assert Level(sha, n + 1, hs) == Full(sha, [v]);
  }

  /** The counter before a leaf is the start of the carry chain. */
  lemma {:induction false} RippleStarts(sha: Sha, layers: seq<Layer>, hs: seq<Hash>, leaf: Hash)
    requires Ready(sha, layers, hs)
    ensures forall k :: 0 <= k < |layers| ==> layers[k].Valid() && layers[k].remaining >= 32
    ensures var (after, value) := Ripple(sha, layers, 0, leaf);
            Counts(sha, after, value, hs + [leaf])
  {
    RippleCounts(sha, layers, 0, hs, hs + [leaf], leaf);
  }

  /** The carry chain of `add_block`, from layer `i` on: the layers and the new value. */
  function Ripple(sha: Sha, layers: seq<Layer>, i: nat, carried: Hash): (seq<Layer>, Option<Hash>)
    requires i <= |layers| && forall k :: i <= k < |layers| ==> layers[k].Valid() && layers[k].remaining >= 32
    decreases |layers| - i
  {
    if i == |layers| then (layers, Some(carried)) else
    var layer := layers[i].Add(carried);
    if layer.remaining != 0 then (layers[i := layer], None)
    else Ripple(sha, layers[i := Empty()], i + 1, layer.Complete(sha))
  }

  /** The carry chain reached layer `i`: every layer below it is empty again. */
  ghost predicate Rippling(sha: Sha, layers: seq<Layer>, i: nat, hs: seq<Hash>, next: seq<Hash>, carried: Hash) {
    && i <= |layers|
    && Level(sha, i, next) == Level(sha, i, hs) + [carried]
    && (forall k {:trigger layers[k]} :: 0 <= k < i ==> layers[k] == Empty() && Rest(Level(sha, k, next)) == [])
    && (forall k {:trigger layers[k]} :: i <= k < |layers| ==> Holds(layers[k], Rest(Level(sha, k, hs))))
  }

  lemma {:induction false} HoldsRoom(l: Layer, hs: seq<Hash>)
    requires Holds(l, hs) && |hs| < FANOUT
    ensures l.Valid() && l.remaining >= 32
  {
  }

  lemma {:induction false} RippleStops(sha: Sha, layers: seq<Layer>, i: nat, hs: seq<Hash>, next: seq<Hash>,
                                       carried: Hash)
    requires i < |layers| && Rippling(sha, layers, i, hs, next, carried)
    requires |Rest(Level(sha, i, hs))| < 127
    ensures Holds(layers[i], Rest(Level(sha, i, hs)))
    ensures forall k :: 0 <= k < |layers| ==>
              Holds(layers[i := layers[i].Add(carried)][k], Rest(Level(sha, k, next)))
    ensures Level(sha, |layers|, next) == Level(sha, |layers|, hs)
  {
    HoldsRoom(layers[i], Rest(Level(sha, i, hs)));
    var after := layers[i := layers[i].Add(carried)];
    HoldsAdd(layers[i], Rest(Level(sha, i, hs)), carried);
    FullSnoc(sha, Level(sha, i, hs), carried);
    assert Level(sha, i + 1, next) == Level(sha, i + 1, hs);
    forall k | 0 <= k < |layers|
      ensures Holds(after[k], Rest(Level(sha, k, next)))
    {
      if k < i {
        assert after[k] == Empty() && Rest(Level(sha, k, next)) == [];
      } else if k > i {
        LevelEqual(sha, i + 1, k, next, hs);
      }
    }
    LevelEqual(sha, i + 1, |layers|, next, hs);
  }

  lemma {:induction false} RippleStopCounts(sha: Sha, layers: seq<Layer>, i: nat, hs: seq<Hash>, next: seq<Hash>,
                                            carried: Hash)
    requires i < |layers| && Rippling(sha, layers, i, hs, next, carried)
    requires |Rest(Level(sha, i, hs))| < 127
    requires Level(sha, |layers|, hs) == [] && |next| == |hs| + 1 && |hs| >= Pow128(|layers| - 1)
    ensures Holds(layers[i], Rest(Level(sha, i, hs)))
    ensures Counts(sha, layers[i := layers[i].Add(carried)], None, next)
  {
    RippleStops(sha, layers, i, hs, next, carried);
  }

  lemma {:induction false} RippleGoesOn(sha: Sha, layers: seq<Layer>, i: nat, hs: seq<Hash>, next: seq<Hash>,
                                        carried: Hash)
    requires i < |layers| && Rippling(sha, layers, i, hs, next, carried)
    requires |Rest(Level(sha, i, hs))| == 127
    ensures Holds(layers[i], Rest(Level(sha, i, hs)))
    ensures layers[i].Add(carried).remaining == 0
    ensures Rippling(sha, layers[i := Empty()], i + 1, hs, next, layers[i].Add(carried).Complete(sha))
  {
    var open := Rest(Level(sha, i, hs));
    HoldsAdd(layers[i], open, carried);
    HoldsComplete(sha, layers[i].Add(carried), open + [carried]);
    FullSnoc(sha, Level(sha, i, hs), carried);
  }

  lemma {:induction false} RippleEnds(sha: Sha, layers: seq<Layer>, hs: seq<Hash>, next: seq<Hash>, carried: Hash)
    requires Rippling(sha, layers, |layers|, hs, next, carried)
    requires Level(sha, |layers|, hs) == []
    ensures Counts(sha, layers, Some(carried), next)
  {
    assert [] + [carried] == [carried];
    forall k | 0 <= k < |layers|
      ensures Rest(Level(sha, k, next)) == [] && Holds(layers[k], [])
    {
      assert layers[k] == Empty() && Rest(Level(sha, k, next)) == [];
    }
    WholeTree(sha, |layers|, next);
  }

  lemma {:induction false} RippleCounts(sha: Sha, layers: seq<Layer>, i: nat, hs: seq<Hash>, next: seq<Hash>,
                                        carried: Hash)
    requires Rippling(sha, layers, i, hs, next, carried)
    requires Level(sha, |layers|, hs) == [] && |next| == |hs| + 1
    requires |layers| > 0 ==> |hs| >= Pow128(|layers| - 1)
    ensures forall k :: i <= k < |layers| ==> layers[k].Valid() && layers[k].remaining >= 32
    ensures var (after, value) := Ripple(sha, layers, i, carried);
            Counts(sha, after, value, next)
    decreases |layers| - i
  {
    forall k | i <= k < |layers|
      ensures layers[k].Valid() && layers[k].remaining >= 32
    {
      HoldsRoom(layers[k], Rest(Level(sha, k, hs)));
    }
    if i == |layers| {
      RippleEnds(sha, layers, hs, next, carried);
    } else {
      var open := Rest(Level(sha, i, hs));
      HoldsAdd(layers[i], open, carried);
      if |open| < 127 {
        RippleStopCounts(sha, layers, i, hs, next, carried);
        assert Ripple(sha, layers, i, carried) == (layers[i := layers[i].Add(carried)], None);
      } else {
        RippleGoesOn(sha, layers, i, hs, next, carried);
        RippleCounts(sha, layers[i := Empty()], i + 1, hs, next, layers[i].Add(carried).Complete(sha));
      }
    }
  }

  function Seeded(layers: seq<Layer>, value: Option<Hash>): seq<Layer> {
    if value.Some? then layers + [Empty().Add(value.value)] else layers
  }

  lemma {:induction false} SeededReady(sha: Sha, layers: seq<Layer>, value: Option<Hash>, hs: seq<Hash>)
    requires Counts(sha, layers, value, hs)
    ensures Ready(sha, Seeded(layers, value), hs)
  {
    if value.Some? {
      SeedLayer(sha, layers, value.value, hs);
    }
  }

  lemma {:induction false} LeafOfBlock(sha: Sha, block: Blob)
    requires |block| <= BLOCK
    ensures Empty().Add(block).Complete(sha) == sha(Pad(block))
  {
    assert [] + block == block;
  }

  /** One more block of data, through the whole of `add_block`. */
  lemma {:induction false} BlockEnters(sha: Sha, layers: seq<Layer>, value: Option<Hash>, whole: Blob, block: Blob)
    requires |whole| % BLOCK == 0 && 0 < |block| <= BLOCK
    requires Counts(sha, layers, value, Leaves(sha, whole))
    ensures var seeded := Seeded(layers, value);
            forall k :: 0 <= k < |seeded| ==> seeded[k].Valid() && seeded[k].remaining >= 32
    ensures var (after, top) := Ripple(sha, Seeded(layers, value), 0, Empty().Add(block).Complete(sha));
            Counts(sha, after, top, Leaves(sha, whole + block))
  {
    LeafOfBlock(sha, block);
    SeededReady(sha, layers, value, Leaves(sha, whole));
    LeavesSnoc(sha, whole, block);
    RippleStarts(sha, Seeded(layers, value), Leaves(sha, whole), sha(Pad(block)));
  }

  // --- The root ---------------------------------------------------------------

  /** The value after one layer of `root_hash` is the carry above that layer. */
  lemma {:induction false} CarryStep(sha: Sha, n: nat, hs: seq<Hash>, i: nat, layer: Layer, value: Hash)
    requires i < n && CarryVisible(sha, n, hs)
    requires Holds(layer, Rest(Level(sha, i, hs))) && Carries(value, Carry(sha, i, hs))
    ensures layer.remaining >= 32 && Carries(RootStep(sha, layer, value), Carry(sha, i + 1, hs))
  {
    var open, carry := Rest(Level(sha, i, hs)), Carry(sha, i, hs);
    assert open + [] == open;
    if value != NO_HASH {
      HoldsAdd(layer, open, value);
      HoldsComplete(sha, layer.Add(value), open + [value]);
    } else {
      HoldsComplete(sha, layer, open);
      ZeroHashIsPadding(sha, open);
      if carry != [] && open == [] {
        assert [] + [NO_HASH] == [NO_HASH] && Pad(Flat([])) == Zeros(BLOCK);
      }
    }
  }

  /** The value that `root_hash` carries into layer `i`. */
  function CarriedTo(sha: Sha, layers: seq<Layer>, i: nat): Hash
    requires i <= |layers| && forall k :: 0 <= k < |layers| ==> layers[k].Valid() && layers[k].remaining >= 32
  {
    if i == 0 then NO_HASH else RootStep(sha, layers[i - 1], CarriedTo(sha, layers, i - 1))
  }

  /** A zero carry into an empty layer is lost, unless a block of zero bytes hashes to zero bytes. */
  lemma {:induction false} CarryLost(sha: Sha, hs: seq<Hash>, i: nat, layer: Layer, value: Hash)
    requires Holds(layer, Rest(Level(sha, i, hs))) && Carries(value, Carry(sha, i, hs))
    requires Carry(sha, i, hs) == [NO_HASH] && Rest(Level(sha, i, hs)) == [] && sha(Zeros(BLOCK)) != NO_HASH
    ensures layer.remaining >= 32 && !Carries(RootStep(sha, layer, value), Carry(sha, i + 1, hs))
  {
    HoldsComplete(sha, layer, []);
    ZeroHashIsPadding(sha, []);
    assert [] + [NO_HASH] == [NO_HASH] && Pad(Flat([])) == Zeros(BLOCK);
  }

  /** The value carried into layer `i` is the carry of the Merkle tree. */
  ghost predicate Tracked(sha: Sha, layers: seq<Layer>, hs: seq<Hash>, i: nat)
    requires i <= |layers| && forall k :: 0 <= k < |layers| ==> layers[k].Valid() && layers[k].remaining >= 32
  {
    Carries(CarriedTo(sha, layers, i), Carry(sha, i, hs))
  }

  /** At every layer the carried value is the carry of the Merkle tree, exactly if no zero carry is lost. */
  lemma {:induction false} CarryIsTracked(sha: Sha, layers: seq<Layer>, hs: seq<Hash>)
    requires forall k {:trigger layers[k]} :: 0 <= k < |layers| ==> Holds(layers[k], Rest(Level(sha, k, hs)))
    requires forall k :: 0 <= k < |layers| ==> layers[k].Valid() && layers[k].remaining >= 32
    ensures CarryVisible(sha, |layers|, hs) <==>
            forall i :: 0 <= i <= |layers| ==> Tracked(sha, layers, hs, i)
  {
    if CarryVisible(sha, |layers|, hs) {
      forall i | 0 <= i <= |layers|
        ensures Tracked(sha, layers, hs, i)
      {
        TracksTo(sha, layers, hs, i);
      }
    } else {
      var k :| 0 <= k < |layers| && Carry(sha, k, hs) == [NO_HASH] && Rest(Level(sha, k, hs)) == [];
      if Tracked(sha, layers, hs, k) {
        CarryLost(sha, hs, k, layers[k], CarriedTo(sha, layers, k));
        assert !Tracked(sha, layers, hs, k + 1);
      }
    }
  }

  lemma {:induction false} TracksTo(sha: Sha, layers: seq<Layer>, hs: seq<Hash>, i: nat)
    requires i <= |layers| && CarryVisible(sha, |layers|, hs)
    requires forall k {:trigger layers[k]} :: 0 <= k < |layers| ==> Holds(layers[k], Rest(Level(sha, k, hs)))
    requires forall k :: 0 <= k < |layers| ==> layers[k].Valid() && layers[k].remaining >= 32
    ensures Tracked(sha, layers, hs, i)
  {
    if i > 0 {
      var prev := i - 1;
      TracksTo(sha, layers, hs, prev);
      CarryStep(sha, |layers|, hs, prev, layers[prev], CarriedTo(sha, layers, prev));
    }
  }

  /** The layers from `i` on, folded from the bottom. */
  function RootFold(sha: Sha, layers: seq<Layer>, i: nat, value: Hash): Hash
    requires i <= |layers| && forall k :: i <= k < |layers| ==> layers[k].Valid() && layers[k].remaining >= 32
    decreases |layers| - i
  {
    if i == |layers| then value else RootFold(sha, layers, i + 1, RootStep(sha, layers[i], value))
  }

  lemma {:induction false} RootFoldIsCarry(sha: Sha, layers: seq<Layer>, hs: seq<Hash>, i: nat, value: Hash)
    requires i <= |layers| && CarryVisible(sha, |layers|, hs)
    requires forall k {:trigger layers[k]} :: 0 <= k < |layers| ==> Holds(layers[k], Rest(Level(sha, k, hs)))
    requires Carries(value, Carry(sha, i, hs))
    requires forall k :: i <= k < |layers| ==> layers[k].Valid() && layers[k].remaining >= 32
    ensures Carries(RootFold(sha, layers, i, value), Carry(sha, |layers|, hs))
    decreases |layers| - i
  {
    if i < |layers| {
      CarryStep(sha, |layers|, hs, i, layers[i], value);
      RootFoldIsCarry(sha, layers, hs, i + 1, RootStep(sha, layers[i], value));
    }
  }

  lemma {:induction false} CountsRoom(sha: Sha, layers: seq<Layer>, value: Option<Hash>, hs: seq<Hash>)
    requires Counts(sha, layers, value, hs)
    ensures forall k :: 0 <= k < |layers| ==> layers[k].Valid() && layers[k].remaining >= 32
  {
    forall k | 0 <= k < |layers|
      ensures layers[k].Valid() && layers[k].remaining >= 32
    {
      HoldsRoom(layers[k], Rest(Level(sha, k, hs)));
    }
  }

  /** The streaming hasher. `Fed()` is all data that it received. */
  class FsVerityHasher {
    const sha: Sha
    var layers: seq<Layer>
    var value: Option<Hash>
    var nBytes: nat
    var partial: Blob
    var wroteFinalBlock: bool
    /** The data of the blocks that are in the layers. */
    ghost var whole: Blob

    ghost function Fed(): Blob
      reads this
    {
      whole + partial
    }

    /** The layers count the leaf hashes of `whole`. */
    ghost predicate Counted()
      reads this
    {
      nBytes == |whole| && Counts(sha, layers, value, Leaves(sha, whole))
    }

    ghost predicate Valid()
      reads this
    {
      !wroteFinalBlock && |partial| < BLOCK && |whole| % BLOCK == 0 && Counted()
    }

    constructor (sha: Sha)
      ensures Valid() && Fed() == [] && this.sha == sha
    {
      this.sha := sha;
      layers, value, nBytes, partial, wroteFinalBlock := [], None, 0, [], false;
      whole := [];
    }

    /** Adds `data` to the end of the hashed data, in any chunks. */
    method Update(data: Blob)
      requires Valid()
      modifies this
      ensures Valid() && Fed() == old(Fed()) + data
    {
      var rest := data;
      while rest != []
        invariant Valid()
        invariant Fed() + rest == old(Fed()) + data
        decreases |rest|
      {
        var want := BLOCK - |partial|;
        var take := if want < |rest| then want else |rest|;
        Regroup(whole, partial, rest, take);
        partial := partial + rest[..take];
        rest := rest[take..];
        if |partial| == BLOCK {
          var block := partial;
          partial := [];
          AddBlock(block);
          assert Fed() == whole;
        }
      }
    }

    /** Adds one block to the layers. */
    method AddBlock(block: Blob)
      requires !wroteFinalBlock && 0 < |block| <= BLOCK && |whole| % BLOCK == 0 && Counted()
      modifies this`layers, this`value, this`nBytes, this`wroteFinalBlock, this`whole
      ensures Counted() && whole == old(whole) + block
      ensures wroteFinalBlock == (|block| < BLOCK)
    {
      if |block| < BLOCK {
        wroteFinalBlock := true;
      }
      BlockEnters(sha, layers, value, whole, block);
      if value.Some? {
        layers := layers + [Empty().Add(value.value)];
        value := None;
      }
      var context := Empty().Add(block);
      nBytes := nBytes + |block|;
      whole := whole + block;
      var leaf := context.Complete(sha);
      AddLeaf(leaf);
    }

    /** The carry chain of `add_block`: one leaf hash enters the counter. */
    method AddLeaf(leaf: Hash)
      requires value.None? && forall k :: 0 <= k < |layers| ==> layers[k].Valid() && layers[k].remaining >= 32
      modifies this`layers, this`value
      ensures (layers, value) == Ripple(sha, old(layers), 0, leaf)
    {
      var carried := leaf;
      var i := 0;
      while i < |layers|
        invariant 0 <= i <= |layers| && value.None?
        invariant forall k :: i <= k < |layers| ==> layers[k].Valid() && layers[k].remaining >= 32
        invariant Ripple(sha, layers, i, carried) == Ripple(sha, old(layers), 0, leaf)
      {
        ghost var before := layers;
        layers := layers[i := layers[i].Add(carried)];
        if layers[i].remaining != 0 {
          return;
        }
        carried := layers[i].Complete(sha);
        layers := layers[i := Empty()];
        assert layers == before[i := Empty()];
        i := i + 1;
      }
      value := Some(carried);
    }

    /** One layer of `root_hash`: the carry enters the layer, and the layer is closed if it holds anything. */
    method CloseLayer(i: nat, carry: Hash) returns (up: Hash)
      requires i < |layers| && layers[i].Valid() && layers[i].remaining >= 32
      modifies this`layers
      ensures up == RootStep(sha, old(layers[i]), carry)
      ensures |layers| == old(|layers|) && forall k :: i < k < |layers| ==> layers[k] == old(layers)[k]
    {
      if carry != NO_HASH {
        layers := layers[i := layers[i].Add(carry)];
      }
      if layers[i].remaining != BLOCK {
        up := layers[i].Complete(sha);
        layers := layers[i := Empty()];
      } else {
        up := NO_HASH;
      }
    }

    /** The root of the counter: the Merkle root unless a zero carry is lost. */
    method RootHash(ghost hs: seq<Hash>) returns (root: Hash)
      requires Counts(sha, layers, value, hs)
      modifies this`layers, this`value
      ensures CarryVisible(sha, Height(|hs|), hs) ==> root == Root(sha, hs)
    {
      CountedRoot(sha, layers, value, hs);
      if value.Some? {
        return value.value;
      }
      root := NO_HASH;
      var i := 0;
      while i < |layers|
        invariant 0 <= i <= |layers| == |old(layers)|
        invariant forall k :: i <= k < |layers| ==> layers[k] == old(layers)[k]
        invariant RootFold(sha, old(layers), i, root) == RootFold(sha, old(layers), 0, NO_HASH)
      {
        root := CloseLayer(i, root);
        i := i + 1;
      }
      value := Some(root);
    }

    /** The fs-verity digest of all data that the hasher received. */
    method Finalize() returns (digest: Hash)
      requires Valid()
      modifies this
      ensures var hs := Leaves(sha, old(Fed()));
              CarryVisible(sha, Height(|hs|), hs) ==> digest == Digest(sha, old(Fed()))
    {
      if partial != [] {
        var block := partial;
        partial := [];
        AddBlock(block);
      }
      assert whole == old(Fed());
      var root := RootHash(Leaves(sha, whole));
      var context := [1] + [1] + [12] + [0] + Zeros(4) + Le(nBytes, 8) + root + Zeros(32) + Zeros(32) + Zeros(144);
      digest := sha(context);
    }
  }

  lemma {:induction false} Regroup(whole: Blob, partial: Blob, rest: Blob, take: nat)
    requires take <= |rest|
    ensures whole + (partial + rest[..take]) + rest[take..] == whole + partial + rest
    ensures whole + (partial + rest[..take]) + [] + rest[take..] == whole + partial + rest
  {
    assert rest == rest[..take] + rest[take..];
  }

  /** The root by its two cases: the set value, or the fold of the layers. */
  lemma {:induction false} CountedRoot(sha: Sha, layers: seq<Layer>, value: Option<Hash>, hs: seq<Hash>)
    requires Counts(sha, layers, value, hs)
    ensures forall k :: 0 <= k < |layers| ==> layers[k].Valid() && layers[k].remaining >= 32
    ensures value.Some? ==> value.value == Root(sha, hs)
    ensures value.None? && CarryVisible(sha, Height(|hs|), hs) ==>
              RootFold(sha, layers, 0, NO_HASH) == Root(sha, hs)
  {
    var n := |layers|;
    CountsRoom(sha, layers, value, hs);
    if value.Some? {
      RootAtTop(sha, n, hs);
      assert Carry(sha, n, hs) == [] && [value.value] + [] == [value.value];
    } else if n > 0 {
      LevelLength(sha, n, hs);
      ShiftBelow(|hs|, n, 1);
      HeightOf(|hs|, n);
      RootAtTop(sha, n, hs);
      assert [] + Carry(sha, n, hs) == Carry(sha, n, hs);
      if CarryVisible(sha, n, hs) {
        RootFoldIsCarry(sha, layers, hs, 0, NO_HASH);
      }
    }
  }

  // --- A lost carry -----------------------------------------------------------

  const ONE_HASH: Hash := [1] + Zeros(31)

  /** A hash function that gives 32 zero bytes for one block only. */
  function ZeroOnce(): Sha {
    (b: Blob) => if b == Pad(ONE_HASH) then NO_HASH else ONE_HASH
  }

  function Ones(n: nat): (hs: seq<Hash>)
    ensures |hs| == n && forall i :: 0 <= i < n ==> hs[i] == ONE_HASH
  {
    seq(n, _ => ONE_HASH)
  }

  lemma {:induction false} NodeOfTwo(hs: seq<Hash>)
    requires 2 <= |hs| <= FANOUT && hs[1] == ONE_HASH
    ensures Node(ZeroOnce(), hs) == ONE_HASH
  {
    assert Flat(hs) == hs[0] + (hs[1..][0] + Flat(hs[1..][1..]));
    assert Pad(Flat(hs))[32] == 1;
    assert Pad(ONE_HASH)[32] == 0;
  }

  lemma {:induction false} FullOfOnes(n: nat)
    ensures Full(ZeroOnce(), Ones(n)) == Ones(n / 128)
    ensures Rest(Ones(n)) == Ones(n % 128)
  {
    if n >= FANOUT {
      FullOfOnes(n - 128);
      assert Ones(n)[FANOUT..] == Ones(n - 128);
      NodeOfTwo(Ones(n)[..FANOUT]);
      assert [ONE_HASH] + Ones(n / 128 - 1) == Ones(n / 128);
    }
  }

  lemma {:induction false} OnesLevels()
    ensures Level(ZeroOnce(), 0, Ones(16385)) == Ones(16385) && Rest(Ones(16385)) == Ones(1)
    ensures Level(ZeroOnce(), 1, Ones(16385)) == Ones(128) && Rest(Ones(128)) == []
    ensures Level(ZeroOnce(), 2, Ones(16385)) == Ones(1) && Rest(Ones(1)) == Ones(1)
    ensures Level(ZeroOnce(), 3, Ones(16385)) == []
  {
    FullOfOnes(16385);
    FullOfOnes(128);
    FullOfOnes(1);
  }

  lemma {:induction false} OnesNodes()
    ensures Ones(1) == [ONE_HASH] && Flat([ONE_HASH]) == ONE_HASH
    ensures Node(ZeroOnce(), [ONE_HASH]) == NO_HASH
    ensures Node(ZeroOnce(), [NO_HASH]) == ONE_HASH
    ensures Node(ZeroOnce(), [ONE_HASH, ONE_HASH]) == ONE_HASH
  {
    FlatOne(ONE_HASH);
    FlatOne(NO_HASH);
    assert Pad(NO_HASH)[0] == 0 && Pad(ONE_HASH)[0] == 1;
    NodeOfTwo([ONE_HASH, ONE_HASH]);
  }

  lemma {:induction false} OnesCarries()
    ensures Carry(ZeroOnce(), 1, Ones(16385)) == [NO_HASH]
    ensures Carry(ZeroOnce(), 2, Ones(16385)) == [ONE_HASH]
    ensures Carry(ZeroOnce(), 3, Ones(16385)) == [ONE_HASH]
  {
    OnesLevels();
    OnesNodes();
    var sha, hs := ZeroOnce(), Ones(16385);
    assert Rest(Level(sha, 0, hs)) + Carry(sha, 0, hs) == [ONE_HASH];
    assert Rest(Level(sha, 1, hs)) + Carry(sha, 1, hs) == [NO_HASH];
    assert Rest(Level(sha, 2, hs)) + Carry(sha, 2, hs) == [ONE_HASH, ONE_HASH];
  }

  lemma {:induction false} ZeroFold(layers: seq<Layer>)
    requires layers == [Layer(ONE_HASH, 4064), Empty(), Layer(ONE_HASH, 4064)]
    ensures RootFold(ZeroOnce(), layers, 0, NO_HASH) == NO_HASH
  {
    var sha := ZeroOnce();
    HoldsComplete(sha, layers[0], [ONE_HASH]);
    assert RootStep(sha, layers[0], NO_HASH) == NO_HASH;
    assert RootStep(sha, layers[1], NO_HASH) == NO_HASH;
    assert RootStep(sha, layers[2], NO_HASH) == NO_HASH;
    assert RootFold(sha, layers, 2, NO_HASH) == RootFold(sha, layers, 3, NO_HASH);
    assert RootFold(sha, layers, 1, NO_HASH) == RootFold(sha, layers, 2, NO_HASH);
  }

  lemma {:induction false} OnesCount()
    ensures Counts(ZeroOnce(), [Layer(ONE_HASH, 4064), Empty(), Layer(ONE_HASH, 4064)], None, Ones(16385))
  {
    OnesLevels();
    OnesNodes();
  }

  lemma {:induction false} OnesRoot()
    ensures Root(ZeroOnce(), Ones(16385)) == ONE_HASH
  {
    OnesLevels();
    OnesCarries();
    assert Pow128(1) == 128 && Pow128(2) == 128 * Pow128(1) && Pow128(3) == 128 * Pow128(2);
    RootAtTop(ZeroOnce(), 3, Ones(16385));
    assert [] + [ONE_HASH] == [ONE_HASH];
  }

  /**
   The assumption is needed: with a hash that gives 32 zero bytes once, 16385
   equal leaves make a counter whose root is not the Merkle root.
   */
  lemma {:induction false} ZeroCarryIsLost()
    ensures var layers := [Layer(ONE_HASH, 4064), Empty(), Layer(ONE_HASH, 4064)];
            && Counts(ZeroOnce(), layers, None, Ones(16385))
            && !CarryVisible(ZeroOnce(), 3, Ones(16385))
            && RootFold(ZeroOnce(), layers, 0, NO_HASH) != Root(ZeroOnce(), Ones(16385))
  {
    OnesCount();
    OnesRoot();
    OnesLevels();
    OnesCarries();
    assert ZeroOnce()(Zeros(BLOCK)) == ONE_HASH by {
      assert Pad(ONE_HASH)[0] == 1;
    }
    ZeroFold([Layer(ONE_HASH, 4064), Empty(), Layer(ONE_HASH, 4064)]);
    assert ONE_HASH[0] == 1;
  }
}
