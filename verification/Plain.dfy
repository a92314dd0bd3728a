/**
 Which names a reader can lose. The reader of a directory block finds the end of
 its last name by the first zero byte, so the names that matter are those that
 end a block or the tail: they follow from the lengths of the sorted names.
 */
module Plain {
  import opened Bytes
  import opened Order
  import opened DirPack
  import opened Tree
  import opened Inodes
  import opened Collect
  import opened Readback

  /** How many of the names fit a block that has `used` bytes, each with its 12 bytes of head. */
  function Fill(names: seq<Blob>, used: nat): (k: nat)
    ensures k <= |names|
  {
    if names == [] || used + 12 + |names[0]| > BLOCK then 0 else 1 + Fill(names[1..], used + 12 + |names[0]|)
  }

  /** No name that ends a block has a zero byte. */
  predicate PlainNames(names: seq<Blob>) {
    var k := Fill(names, 0);
    k == 0 || (0 !in names[k - 1] && PlainNames(names[k..]))
  }

  function NamesOf(es: seq<DirEnt>): (r: seq<Blob>)
    ensures |r| == |es| && forall i {:trigger r[i]} :: 0 <= i < |es| ==> r[i] == es[i].name
  {
    seq(|es|, i requires 0 <= i < |es| => es[i].name)
  }

  lemma {:induction false} SpanFront(es: seq<DirEnt>)
    requires es != []
    ensures Span(es) == EntrySize(es[0]) + Span(es[1..])
  {
    if |es| == 1 {
      assert es[..0] == [] == es[1..];
    } else {
      var init := es[..|es| - 1];
      SpanFront(init);
      assert es[1..][..|es| - 2] == init[1..];
    }
  }

  /** A block takes all its entries, and no entry after them. */
  lemma {:induction false} FillIs(block: seq<DirEnt>, next: seq<DirEnt>, used: nat)
    requires used + Span(block) <= BLOCK
    requires next != [] ==> used + Span(block) + EntrySize(next[0]) > BLOCK
    ensures Fill(NamesOf(block + next), used) == |block|
    decreases |block|
  {
    var names := NamesOf(block + next);
    if block == [] {
      assert next != [] ==> names[0] == next[0].name;
    } else {
      SpanFront(block);
      FillIs(block[1..], next, used + EntrySize(block[0]));
      assert names[0] == block[0].name && names[1..] == NamesOf(block[1..] + next);
    }
  }

  lemma {:induction false} BlockPlain(block: seq<DirEnt>, next: seq<DirEnt>)
    requires FullBlock(block) && Greedy(block, next)
    ensures PlainNames(NamesOf(block + next)) <==> EndsPlain(block) && PlainNames(NamesOf(next))
  {
    var names := NamesOf(block + next);
    FillIs(block, next, 0);
    assert names[|block| - 1] == block[|block| - 1].name && names[|block|..] == NamesOf(next);
  }

  lemma {:induction false} FlattenFront(blocks: seq<seq<DirEnt>>)
    requires blocks != []
    ensures Flatten(blocks) == blocks[0] + Flatten(blocks[1..])
  {
    if |blocks| > 1 {
      var init := blocks[..|blocks| - 1];
      FlattenFront(init);
      assert blocks[1..][..|blocks| - 2] == init[1..];
    } else {
      assert blocks[..0] == [] == blocks[1..];
    }
  }

  /** The entries after the first block start with the next block, or are the tail. */
  lemma {:induction false} NextOf(blocks: seq<seq<DirEnt>>, tail: seq<DirEnt>)
    requires blocks != [] && (forall i :: 0 <= i < |blocks| ==> FullBlock(blocks[i]))
    requires (forall i :: 0 <= i < |blocks| - 1 ==> GreedyAt(blocks, i)) && Greedy(blocks[|blocks| - 1], tail)
    ensures Greedy(blocks[0], Flatten(blocks[1..]) + tail)
  {
    if |blocks| > 1 {
      FlattenFront(blocks[1..]);
      assert GreedyAt(blocks, 0) && FullBlock(blocks[1]);
    } else {
      assert Flatten(blocks[1..]) + tail == tail;
    }
  }

  lemma {:induction false} BlocksPlain(blocks: seq<seq<DirEnt>>, tail: seq<DirEnt>)
    requires forall i :: 0 <= i < |blocks| ==> FullBlock(blocks[i])
    requires forall i :: 0 <= i < |blocks| - 1 ==> GreedyAt(blocks, i)
    requires (blocks != [] ==> Greedy(blocks[|blocks| - 1], tail)) && Span(tail) <= BLOCK
    ensures PlainNames(NamesOf(Flatten(blocks) + tail)) <==> AllPlain(blocks) && EndsPlain(tail)
    decreases |blocks|
  {
    if blocks == [] {
      assert Flatten(blocks) + tail == tail;
      if tail != [] {
        BlockPlain(tail, []);
        assert tail + [] == tail;
      }
    } else {
      var rest := blocks[1..];
      forall i | 0 <= i < |rest| - 1
        ensures GreedyAt(rest, i)
      {
        assert GreedyAt(blocks, i + 1);
      }
      FlattenFront(blocks);
      NextOf(blocks, tail);
      BlockPlain(blocks[0], Flatten(rest) + tail);
      assert Flatten(blocks) + tail == blocks[0] + (Flatten(rest) + tail);
      BlocksPlain(rest, tail);
      PlainFront(blocks);
    }
  }

  lemma {:induction false} PlainFront(blocks: seq<seq<DirEnt>>)
    requires blocks != []
    ensures AllPlain(blocks) <==> EndsPlain(blocks[0]) && AllPlain(blocks[1..])
  {
    if EndsPlain(blocks[0]) && AllPlain(blocks[1..]) {
      forall i | 0 <= i < |blocks|
        ensures EndsPlain(blocks[i])
      {
        assert i > 0 ==> blocks[i] == blocks[1..][i - 1];
      }
    }
  }

  /** The packing of a list is plain exactly if its names are, whatever the inodes. */
  lemma {:induction false} PackedPlain(es: seq<DirEnt>, d: DirData)
    requires Packed(es, d)
    ensures DirPlain(d) <==> PlainNames(NamesOf(es))
  {
    BlocksPlain(d.blocks, d.inline);
  }

  // --- Sorted lists of names ------------------------------------------------------

  ghost predicate Ascending(a: seq<Blob>) {
    forall i, j :: 0 <= i < j < |a| ==> Less(a[i], a[j])
  }

  lemma {:induction false} IndexGrows(a: seq<Blob>, b: seq<Blob>, k: nat) returns (j: nat)
    requires Ascending(a) && Ascending(b) && (forall x :: x in a ==> x in b) && k < |a|
    ensures k <= j < |b| && b[j] == a[k]
  {
    assert a[k] in a;
    j :| 0 <= j < |b| && b[j] == a[k];
    if k > 0 {
      var i := IndexGrows(a, b, k - 1);
      InOrder(b, i, j, a[k - 1], a[k]);
    }
  }

  lemma {:induction false} InOrder(b: seq<Blob>, i: nat, j: nat, x: Blob, y: Blob)
    requires Ascending(b) && i < |b| && j < |b| && b[i] == x && b[j] == y && Less(x, y)
    ensures i < j
  {
    LessTotal(x, y);
    LessTotal(x, x);
  }

  lemma {:induction false} IndexStays(a: seq<Blob>, b: seq<Blob>, k: nat) returns (j: nat)
    requires Ascending(a) && Ascending(b) && |a| == |b| && (forall x :: x in a ==> x in b) && k < |a|
    ensures j <= k && b[j] == a[k]
    decreases |a| - k
  {
    assert a[k] in a;
    j :| 0 <= j < |b| && b[j] == a[k];
    if k + 1 < |a| {
      var i := IndexStays(a, b, k + 1);
      InOrder(b, j, i, a[k], a[k + 1]);
    }
  }

  /** Of two ascending lists of one length, one that holds the other is the other. */
  lemma {:induction false} SameAscending(a: seq<Blob>, b: seq<Blob>)
    requires Ascending(a) && Ascending(b) && |a| == |b| && forall x :: x in a ==> x in b
    ensures a == b
  {
    forall k | 0 <= k < |a|
      ensures a[k] == b[k]
    {
      var i := IndexGrows(a, b, k);
      var j := IndexStays(a, b, k);
      LessTotal(b[j], b[i]);
    }
  }
}
