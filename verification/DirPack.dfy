/** Directory entries and their packing into blocks and an inline tail. */
module DirPack {
  import opened Bytes

  const FT_REG: nat := 1
  const FT_DIR: nat := 2
  const FT_CHR: nat := 3
  const FT_LNK: nat := 7

  datatype DirEnt = DirEnt(name: Blob, inode: nat, fileType: nat)

  datatype DirData = DirData(blocks: seq<seq<DirEnt>>, inline: seq<DirEnt>, size: nat, nlink: nat)

  const BLOCK: nat := 4096
  const MAX_INLINE: nat := 2048

  function EntrySize(e: DirEnt): nat { 12 + |e.name| }

  /** The bytes of a block of entries: 12 for each entry, then the names. */
  function Span(es: seq<DirEnt>): nat {
    if es == [] then 0 else Span(es[..|es| - 1]) + EntrySize(es[|es| - 1])
  }

  function Dirs(es: seq<DirEnt>): nat {
    if es == [] then 0 else Dirs(es[..|es| - 1]) + (if es[|es| - 1].fileType == FT_DIR then 1 else 0)
  }

  function Flatten(blocks: seq<seq<DirEnt>>): seq<DirEnt> {
    if blocks == [] then [] else Flatten(blocks[..|blocks| - 1]) + blocks[|blocks| - 1]
  }

  predicate ShortNames(es: seq<DirEnt>) {
    forall i :: 0 <= i < |es| ==> |es[i].name| <= 255
  }

  predicate FullBlock(es: seq<DirEnt>) {
    es != [] && Span(es) <= BLOCK
  }

  /** The block has no room for the entry that comes after it. */
  predicate Greedy(block: seq<DirEnt>, next: seq<DirEnt>) {
    next != [] ==> Span(block) + EntrySize(next[0]) > BLOCK
  }

  predicate GreedyAt(blocks: seq<seq<DirEnt>>, i: nat)
    requires i + 1 < |blocks|
  {
    Greedy(blocks[i], blocks[i + 1])
  }

  /** `d` is the greedy packing of `entries`. */
  predicate Packed(entries: seq<DirEnt>, d: DirData) {
    && Flatten(d.blocks) + d.inline == entries
    && (forall i :: 0 <= i < |d.blocks| ==> FullBlock(d.blocks[i]))
    && (forall i :: 0 <= i < |d.blocks| - 1 ==> GreedyAt(d.blocks, i))
    && (d.blocks != [] ==> Greedy(d.blocks[|d.blocks| - 1], d.inline))
    && Span(d.inline) <= MAX_INLINE
    && d.size == 4096 * |d.blocks| + Span(d.inline)
    && d.nlink == Dirs(entries)
  }

  /** The state of the packing loop after the entries `done`. */
  ghost predicate Packing(done: seq<DirEnt>, blocks: seq<seq<DirEnt>>, rest: seq<DirEnt>) {
    && Flatten(blocks) + rest == done
    && (forall i :: 0 <= i < |blocks| ==> FullBlock(blocks[i]))
    && (forall i :: 0 <= i < |blocks| - 1 ==> GreedyAt(blocks, i))
    && (blocks != [] ==> Greedy(blocks[|blocks| - 1], rest))
    && (done != [] ==> rest != [])
    && Span(rest) <= BLOCK
  }

  lemma {:induction false} SpanSnoc(es: seq<DirEnt>, e: DirEnt)
    ensures Span(es + [e]) == Span(es) + EntrySize(e)
    ensures Dirs(es + [e]) == Dirs(es) + (if e.fileType == FT_DIR then 1 else 0)
  {
    assert (es + [e])[..|es|] == es;
  }

  lemma {:induction false} SpanOne(e: DirEnt)
    ensures Span([e]) == EntrySize(e)
  {
    assert [e][..0] == [];
  }

  lemma {:induction false} FlattenSnoc(blocks: seq<seq<DirEnt>>, b: seq<DirEnt>)
    ensures Flatten(blocks + [b]) == Flatten(blocks) + b
  {
    assert (blocks + [b])[..|blocks|] == blocks;
  }

  lemma {:induction false} PackAppend(done: seq<DirEnt>, blocks: seq<seq<DirEnt>>, rest: seq<DirEnt>, e: DirEnt)
    requires Packing(done, blocks, rest) && Span(rest) + EntrySize(e) <= BLOCK
    ensures Packing(done + [e], blocks, rest + [e])
  {
    SpanSnoc(rest, e);
    assert Flatten(blocks) + (rest + [e]) == done + [e];
    if blocks != [] {
      FlattenNonempty(blocks);
      assert (rest + [e])[0] == rest[0];
    }
  }

  lemma {:induction false} FlattenNonempty(blocks: seq<seq<DirEnt>>)
    requires blocks != [] && FullBlock(blocks[|blocks| - 1])
    ensures Flatten(blocks) != []
  {
  }

  lemma {:induction false} CloseBlock(blocks: seq<seq<DirEnt>>, rest: seq<DirEnt>, next: seq<DirEnt>)
    requires forall i :: 0 <= i < |blocks| ==> FullBlock(blocks[i])
    requires forall i :: 0 <= i < |blocks| - 1 ==> GreedyAt(blocks, i)
    requires blocks != [] ==> Greedy(blocks[|blocks| - 1], rest)
    requires FullBlock(rest) && Greedy(rest, next)
    ensures var bs := blocks + [rest];
            && (forall i :: 0 <= i < |bs| ==> FullBlock(bs[i]))
            && (forall i :: 0 <= i < |bs| - 1 ==> GreedyAt(bs, i))
            && Greedy(bs[|bs| - 1], next)
  {
    var bs := blocks + [rest];
    forall i | 0 <= i < |bs| - 1
      ensures GreedyAt(bs, i)
    {
      assert i < |blocks| - 1 ==> GreedyAt(blocks, i);
    }
  }

  lemma {:induction false} PackTurn(done: seq<DirEnt>, blocks: seq<seq<DirEnt>>, rest: seq<DirEnt>, e: DirEnt)
    requires Packing(done, blocks, rest) && Span(rest) + EntrySize(e) > BLOCK >= EntrySize(e)
    ensures Packing(done + [e], blocks + [rest], [e])
  {
    SpanOne(e);
    FlattenSnoc(blocks, rest);
    CloseBlock(blocks, rest, [e]);
  }

  /** A tail of more than 2048 bytes takes a block of its own. */
  lemma {:induction false} PackEnd(entries: seq<DirEnt>, blocks: seq<seq<DirEnt>>, rest: seq<DirEnt>)
    requires Packing(entries, blocks, rest)
    ensures Span(rest) <= MAX_INLINE ==>
              Packed(entries, DirData(blocks, rest, 4096 * |blocks| + Span(rest), Dirs(entries)))
    ensures Span(rest) > MAX_INLINE ==>
              Packed(entries, DirData(blocks + [rest], [], 4096 * (|blocks| + 1), Dirs(entries)))
  {
    if Span(rest) > MAX_INLINE {
      FlattenSnoc(blocks, rest);
      CloseBlock(blocks, rest, []);
      assert Flatten(blocks + [rest]) + [] == entries;
    }
  }

  /** One step of the packing loop, by its two branches. */
  lemma {:induction false} PackStep(entries: seq<DirEnt>, i: nat, blocks: seq<seq<DirEnt>>, rest: seq<DirEnt>)
    requires i < |entries| && ShortNames(entries) && Packing(entries[..i], blocks, rest)
    ensures var e := entries[i];
            && Span(rest + [e]) == Span(rest) + EntrySize(e) && Span([e]) == EntrySize(e)
            && Dirs(entries[..i + 1]) == Dirs(entries[..i]) + (if e.fileType == FT_DIR then 1 else 0)
            && (Span(rest) + EntrySize(e) <= BLOCK ==> Packing(entries[..i + 1], blocks, rest + [e]))
            && (Span(rest) + EntrySize(e) > BLOCK ==> Packing(entries[..i + 1], blocks + [rest], [e]))
  {
    var e := entries[i];
    assert entries[..i + 1] == entries[..i] + [e];
    SpanSnoc(rest, e);
    SpanOne(e);
    SpanSnoc(entries[..i], e);
    if Span(rest) + EntrySize(e) <= BLOCK {
      PackAppend(entries[..i], blocks, rest, e);
    } else {
      PackTurn(entries[..i], blocks, rest, e);
    }
  }

  /** The loop is at entry `i`. */
  ghost predicate PackingAt(entries: seq<DirEnt>, i: nat, blocks: seq<seq<DirEnt>>, rest: seq<DirEnt>, nBytes: nat,
                            nlink: nat) {
    && i <= |entries| && Packing(entries[..i], blocks, rest)
    && nBytes == Span(rest) && nlink == Dirs(entries[..i])
  }

  method FromEntries(entries: seq<DirEnt>) returns (d: DirData)
    requires ShortNames(entries)
    ensures Packed(entries, d)
  {
    var blocks: seq<seq<DirEnt>> := [];
    var rest: seq<DirEnt> := [];
    var nBytes: nat, nlink: nat := 0, 0;
    var i := 0;
    while i < |entries|
      invariant 0 <= i <= |entries| && PackingAt(entries, i, blocks, rest, nBytes, nlink)
    {
      PackStep(entries, i, blocks, rest);
      var entry := entries[i];
      if entry.fileType == FT_DIR {
        nlink := nlink + 1;
      }
      nBytes := nBytes + EntrySize(entry);
      if nBytes <= 4096 {
        rest := rest + [entry];
      } else {
        blocks := blocks + [rest];
        rest := [entry];
        nBytes := EntrySize(entry);
      }
      i := i + 1;
    }
    PackedAtEnd(entries, blocks, rest, nBytes, nlink);
    if nBytes > 2048 {
      blocks := blocks + [rest];
      rest := [];
      nBytes := 0;
    }
    d := DirData(blocks, rest, 4096 * |blocks| + nBytes, nlink);
  }

  /** After the last entry a long rest becomes a block, and a short one is the tail. */
  lemma {:induction false} PackedAtEnd(entries: seq<DirEnt>, blocks: seq<seq<DirEnt>>, rest: seq<DirEnt>, nBytes: nat,
                                       nlink: nat)
    requires PackingAt(entries, |entries|, blocks, rest, nBytes, nlink)
    ensures if nBytes > 2048 then Packed(entries, DirData(blocks + [rest], [], 4096 * (|blocks| + 1), nlink))
            else Packed(entries, DirData(blocks, rest, 4096 * |blocks| + nBytes, nlink))
  {
    assert entries[..|entries|] == entries;
    PackEnd(entries, blocks, rest);
  }
}
