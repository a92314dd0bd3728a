/**
 The two passes of the image writer. One program, `WriteErofs`, runs on an output
 that only counts and notes offsets, and again on an output that emits bytes.
 */
module Writer {
  import opened Bytes
  import opened Xattrs
  import opened DirPack
  import opened Inodes
  import opened Image

  /**
   An output is a sizing pass or an emitting pass. `stream` is what a pass was
   given so far. The emitting pass has it in the sink, and gave it to the hasher,
   as long as the sink did not fail. A sink that fails takes `room` bytes before
   it does, the last of them in the middle of a write.
   */
  class Output {
    const sizing: bool
    const known: Layout
    /** The bytes that the sink takes before it fails, if it does. */
    const room: Option<nat>
    var offset: nat
    var noted: Layout
    var sink: Blob
    /** The data that the hasher received. */
    var hashed: Blob
    var failed: bool
    ghost var stream: Blob

    function Refs(): Refs { if sizing then Blank else Known(known) }

    ghost predicate Valid()
      reads this
    {
      && offset == |stream|
      && sink <= stream
      && (sizing || failed || (sink == stream && hashed == stream))
      && (failed ==> room == Some(|sink|))
      && (!sizing ==> (failed <==> room.Some? && room.value < |stream|))
    }

    constructor Sizing()
      ensures Valid() && sizing && stream == [] && noted == NO_LAYOUT && !failed
    {
      sizing, known, room := true, NO_LAYOUT, None;
      offset, noted, sink, hashed, failed := 0, NO_LAYOUT, [], [], false;
      stream := [];
    }

    constructor Emitting(layout: Layout, room: Option<nat>)
      ensures Valid() && !sizing && known == layout && stream == []
      ensures !failed && this.room == room && noted == NO_LAYOUT
    {
      sizing, known, this.room := false, layout, room;
      offset, noted, sink, hashed, failed := 0, NO_LAYOUT, [], [], false;
      stream := [];
    }

    /** Appends `data` to the stream, which is `s + body` so far. */
    method Put(data: Blob, ghost s: Blob, ghost body: Blob)
      requires Valid() && stream == s + body
      modifies this
      ensures Valid() && stream == s + (body + data) && noted == old(noted)
    {
      ghost var before := stream;
      offset := offset + |data|;
      stream := stream + data;
      if !sizing && !failed {
        hashed := hashed + data;
        if room.Some? && room.value < |sink| + |data| {
          sink := sink + data[..room.value - |sink|];
          failed := true;
        } else {
          sink := sink + data;
        }
      }
      assert stream == s + (body + data);
      assert before <= stream;
    }

    method PutFirst(data: Blob)
      requires Valid()
      modifies this
      ensures Valid() && stream == old(stream) + data && noted == old(noted)
    {
      assert stream + [] == stream && [] + data == data;
      Put(data, stream, []);
    }

    /** `n` zero bytes: one jump of the count, or writes of at most 4096 bytes. */
    method PutZeros(n: nat, ghost s: Blob, ghost body: Blob)
      requires Valid() && stream == s + body
      modifies this
      ensures Valid() && stream == s + (body + Zeros(n)) && noted == old(noted)
    {
      if sizing {
        Put(Zeros(n), s, body);
        return;
      }
      var left := n;
      assert body + Zeros(0) == body;
      while left > 0
        invariant Valid() && 0 <= left <= n && noted == old(noted)
        invariant stream == s + (body + Zeros(n - left))
        decreases left
      {
        var take := if left < 4096 then left else 4096;
        ghost var done := body + Zeros(n - left);
        Put(Zeros(take), s, done);
        assert Zeros(n - left) + Zeros(take) == Zeros(n - left + take);
        assert done + Zeros(take) == body + (Zeros(n - left) + Zeros(take));
        left := left - take;
      }
    }

    method PadTo(align: nat, ghost s: Blob, ghost body: Blob)
      requires Valid() && stream == s + body && align > 0
      modifies this
      ensures Valid() && noted == old(noted)
      ensures stream == s + (body + Zeros(RoundUp(|s + body|, align) - |s + body|))
    {
      PutZeros(RoundUp(offset, align) - offset, s, body);
    }

    method NoteInode()
      requires Valid()
      modifies this`noted
      ensures Valid()
      ensures noted == if sizing then old(noted).(inodes := old(noted).inodes + [|stream|]) else old(noted)
    {
      if sizing { noted := noted.(inodes := noted.inodes + [offset]); }
    }

    method NoteInodesEnd()
      requires Valid()
      modifies this`noted
      ensures Valid()
      ensures noted == if sizing then old(noted).(inodesEnd := Some(|stream|)) else old(noted)
    {
      if sizing { noted := noted.(inodesEnd := Some(offset)); }
    }

    method NoteXattr()
      requires Valid()
      modifies this`noted
      ensures Valid()
      ensures noted == if sizing then old(noted).(xattrs := old(noted).xattrs + [|stream|]) else old(noted)
    {
      if sizing { noted := noted.(xattrs := noted.xattrs + [offset]); }
    }

    method NoteBlock()
      requires Valid()
      modifies this`noted
      ensures Valid()
      ensures noted == if sizing then old(noted).(blocks := old(noted).blocks + [|stream|]) else old(noted)
    {
      if sizing { noted := noted.(blocks := noted.blocks + [offset]); }
    }

    method NoteEnd()
      requires Valid()
      modifies this`noted
      ensures Valid()
      ensures noted == if sizing then old(noted).(end := Some(|stream|)) else old(noted)
    {
      if sizing { noted := noted.(end := Some(offset)); }
    }
  }

  lemma {:induction false} Assoc(a: Blob, b: Blob, c: Blob)
    ensures (a + b) + c == a + (b + c)
  {
  }

  lemma {:induction false} Assoc3(a: Blob, b: Blob, c: Blob, d: Blob)
    ensures ((a + b) + c) + d == a + (b + c + d)
  {
  }

  lemma {:induction false} NoMore(a: Blob)
    ensures a + [] == a
  {
  }

  // --- Xattrs -----------------------------------------------------------------

  method WriteEntry(out: Output, x: LocalXattr)
    requires out.Valid() && Rem(|out.stream|, 4) == 0
    modifies out
    ensures out.Valid() && out.noted == old(out.noted)
    ensures out.stream == old(out.stream) + EntryBytes(x)
    ensures Rem(|out.stream|, 4) == 0
  {
    ghost var s := out.stream;
    var head, length := Le(|x.suffix|, 1) + Le(x.prefix, 1), Le(|x.value|, 2);
    out.PutFirst(head);
    out.Put(length, s, head);
    out.Put(x.suffix, s, head + length);
    out.Put(x.value, s, head + length + x.suffix);
    PadOfEntry(|s|, |EntryBody(x)|);
    out.PadTo(4, s, EntryBody(x));
  }

  lemma {:induction false} PadOfEntry(s: nat, n: nat)
    requires Rem(s, 4) == 0
    ensures RoundUp(s + n, 4) - (s + n) == RoundUp(n, 4) - n
    ensures Rem(s + RoundUp(n, 4), 4) == 0
  {
    RoundUpAdd(s, n, 4);
    RoundUpAligned(n, 4);
    RemAdd(s, RoundUp(n, 4), 4);
  }

  method WriteShared(out: Output, shared: seq<nat>)
    requires out.Valid() && RefsIn(out.Refs(), shared)
    modifies out
    ensures out.Valid() && out.noted == old(out.noted)
    ensures out.stream == old(out.stream) + SharedBytes(out.Refs(), shared)
  {
    ghost var s := out.stream;
    NoMore(s);
    assert shared[..0] == [];
    var i := 0;
    while i < |shared|
      invariant 0 <= i <= |shared| && RefsIn(out.Refs(), shared[..i])
      invariant out.Valid() && out.noted == old(out.noted)
      invariant out.stream == s + SharedBytes(out.Refs(), shared[..i])
    {
      assert shared[..i + 1][..i] == shared[..i];
      out.Put(Le(XattrRef(out.Refs(), shared[i]), 4), s, SharedBytes(out.Refs(), shared[..i]));
      i := i + 1;
    }
    assert shared[..|shared|] == shared;
  }

  method WriteLocals(out: Output, xs: seq<LocalXattr>)
    requires out.Valid() && Rem(|out.stream|, 4) == 0
    modifies out
    ensures out.Valid() && out.noted == old(out.noted)
    ensures out.stream == old(out.stream) + EntriesBytes(xs)
  {
    ghost var s := out.stream;
    NoMore(s);
    assert xs[..0] == [];
    var i := 0;
    while i < |xs|
      invariant 0 <= i <= |xs| && Rem(|out.stream|, 4) == 0
      invariant out.Valid() && out.noted == old(out.noted)
      invariant out.stream == s + EntriesBytes(xs[..i])
    {
      assert xs[..i + 1][..i] == xs[..i];
      WriteEntry(out, xs[i]);
      Assoc(s, EntriesBytes(xs[..i]), EntryBytes(xs[i]));
      i := i + 1;
    }
    assert xs[..|xs|] == xs;
  }

  lemma {:induction false} EntriesAligned(s: nat, n: nat)
    requires Rem(s, 4) == 0
    ensures Rem(s + 12 + 4 * n, 4) == 0
  {
    RemOf4(n);
    RemAdd(s, 12 + 4 * n, 4);
    RemAdd(12, 4 * n, 4);
  }

  method WriteXattrs(out: Output, xs: XattrSet)
    requires out.Valid() && RefsIn(out.Refs(), xs.shared) && Rem(|out.stream|, 4) == 0
    modifies out
    ensures out.Valid() && out.noted == old(out.noted)
    ensures out.stream == old(out.stream) + XattrBytes(out.Refs(), xs)
  {
    ghost var s := out.stream;
    NoMore(s);
    if xs.filter == {} {
      return;
    }
    out.PutFirst(FilterBytes(xs.filter));
    out.Put(Le(|xs.shared|, 1), s, FilterBytes(xs.filter));
    out.Put(Zeros(7), s, FilterBytes(xs.filter) + Le(|xs.shared|, 1));
    WriteShared(out, xs.shared);
    Assoc(s, XattrHead(xs), SharedBytes(out.Refs(), xs.shared));
    EntriesAligned(|s|, |xs.shared|);
    WriteLocals(out, xs.local);
    Assoc(s, XattrHead(xs) + SharedBytes(out.Refs(), xs.shared), EntriesBytes(xs.local));
  }

  // --- Directory blocks -------------------------------------------------------

  method WriteHeads(out: Output, es: seq<DirEnt>)
    requires out.Valid() && EntsIn(out.Refs(), es)
    modifies out
    ensures out.Valid() && out.noted == old(out.noted)
    ensures out.stream == old(out.stream) + HeadsTo(out.Refs(), es, |es|)
  {
    ghost var s := out.stream;
    NoMore(s);
    var nameOff := 12 * |es|;
    var i := 0;
    assert es[..0] == [];
    while i < |es|
      invariant 0 <= i <= |es| && nameOff == 12 * |es| + |NameBytes(es[..i])|
      invariant out.Valid() && out.noted == old(out.noted)
      invariant out.stream == s + HeadsTo(out.Refs(), es, i)
    {
      assert es[..i + 1][..i] == es[..i];
      WriteHead(out, es[i], nameOff);
      Assoc(s, HeadsTo(out.Refs(), es, i), HeadBytes(out.Refs(), es[i], nameOff));
      nameOff := nameOff + |es[i].name|;
      i := i + 1;
    }
  }

  method WriteHead(out: Output, e: DirEnt, nameOff: nat)
    requires out.Valid() && (out.Refs().Known? ==> e.inode < |out.Refs().layout.inodes|)
    modifies out
    ensures out.Valid() && out.noted == old(out.noted)
    ensures out.stream == old(out.stream) + HeadBytes(out.Refs(), e, nameOff)
  {
    ghost var s := out.stream;
    var nid := Nid(out.Refs(), e.inode);
    out.PutFirst(Le(nid, 8));
    out.Put(Le(nameOff, 2), s, Le(nid, 8));
    out.Put(Le(e.fileType, 1) + [0], s, Le(nid, 8) + Le(nameOff, 2));
    Assoc(Le(nid, 8) + Le(nameOff, 2), Le(e.fileType, 1), [0]);
  }

  method WriteDirBlock(out: Output, es: seq<DirEnt>)
    requires out.Valid() && EntsIn(out.Refs(), es)
    modifies out
    ensures out.Valid() && out.noted == old(out.noted)
    ensures out.stream == old(out.stream) + DirBlockBytes(out.Refs(), es)
  {
    ghost var s, heads := out.stream, HeadsTo(out.Refs(), es, |es|);
    WriteHeads(out, es);
    NoMore(heads);
    assert es[..0] == [];
    var i := 0;
    while i < |es|
      invariant 0 <= i <= |es|
      invariant out.Valid() && out.noted == old(out.noted)
      invariant out.stream == s + (heads + NameBytes(es[..i]))
    {
      assert es[..i + 1][..i] == es[..i];
      out.Put(es[i].name, s, heads + NameBytes(es[..i]));
      Assoc(heads, NameBytes(es[..i]), es[i].name);
      i := i + 1;
    }
    assert es[..|es|] == es;
  }

  lemma {:induction false} PadOfBlock(s: nat, span: nat)
    requires Rem(s, 4096) == 0 && 0 < span <= 4096
    ensures RoundUp(s + span, 4096) - (s + span) == 4096 - span
  {
    RoundUpAdd(s, span, 4096);
  }

  /** One data block of a directory, padded to 4096 bytes. */
  method WritePaddedBlock(out: Output, es: seq<DirEnt>)
    requires out.Valid() && EntsIn(out.Refs(), es) && FullBlock(es) && Rem(|out.stream|, 4096) == 0
    modifies out
    ensures out.Valid() && out.noted == old(out.noted)
    ensures out.stream == old(out.stream) + (DirBlockBytes(out.Refs(), es) + Zero4096(Span(es)))
    ensures |out.stream| == |old(out.stream)| + 4096
  {
    ghost var s := out.stream;
    WriteDirBlock(out, es);
    DirBlockLength(out.Refs(), es);
    NameBytesLength(es);
    PadOfBlock(|s|, Span(es));
    out.PadTo(4096, s, DirBlockBytes(out.Refs(), es));
  }

  lemma {:induction false} BlocksSnoc(refs: Refs, s: Blob, blocks: seq<seq<DirEnt>>, i: nat)
    requires i < |blocks| && forall i :: 0 <= i < |blocks| ==> EntsIn(refs, blocks[i]) && FullBlock(blocks[i])
    ensures (s + DirBlocksTo(refs, blocks, i)) + (DirBlockBytes(refs, blocks[i]) + Zero4096(Span(blocks[i]))) ==
            s + DirBlocksTo(refs, blocks, i + 1)
  {
    var done, block, zeros := DirBlocksTo(refs, blocks, i), DirBlockBytes(refs, blocks[i]), Zero4096(Span(blocks[i]));
    Assoc(done, block, zeros);
    Assoc(s, done, block + zeros);
  }

  method WriteBlocks(out: Output, x: Inode)
    requires out.Valid() && InodeIn(out.Refs(), x) && Rem(|out.stream|, 4096) == 0
    modifies out
    ensures out.Valid() && out.noted == old(out.noted)
    ensures out.stream == old(out.stream) + BlockBytes(out.Refs(), x)
  {
    ghost var s := out.stream;
    NoMore(s);
    if x.kind.DirKind? {
      var blocks := x.kind.dir.blocks;
      var i := 0;
      while i < |blocks|
        invariant 0 <= i <= |blocks| && Rem(|out.stream|, 4096) == 0
        invariant out.Valid() && out.noted == old(out.noted)
        invariant out.stream == s + DirBlocksTo(out.Refs(), blocks, i)
      {
        BlocksSnoc(out.Refs(), s, blocks, i);
        WritePaddedBlock(out, blocks[i]);
        i := i + 1;
      }
    }
  }

  // --- Inodes -----------------------------------------------------------------

  method WriteCompact(out: Output, x: Inode, idx: nat, ghost mm: Mtime, word: nat)
    requires out.Valid() && Compact(x, mm)
    modifies out
    ensures out.Valid() && out.noted == old(out.noted)
    ensures out.stream == old(out.stream) + HeaderBytes(x, idx, mm, word)
  {
    ghost var s := out.stream;
    var format, icount := Le(LayoutBits(x.kind), 2), Le(x.xattrs.Icount(), 2);
    var mode, links := Le(InodeMode(x), 2), Le(LinksOf(x.kind), 2);
    var size, data, ino, uid, gid := Le(SizeOf(x.kind), 4), Le(word, 4), Le(idx, 4), Le(x.uid, 2), Le(x.gid, 2);
    out.PutFirst(format);
    out.Put(icount, s, format);
    out.Put(mode, s, format + icount);
    out.Put(links, s, format + icount + mode);
    out.Put(size, s, format + icount + mode + links);
    out.Put(Zeros(4), s, format + icount + mode + links + size);
    out.Put(data, s, format + icount + mode + links + size + Zeros(4));
    out.Put(ino, s, format + icount + mode + links + size + Zeros(4) + data);
    out.Put(uid, s, format + icount + mode + links + size + Zeros(4) + data + ino);
    out.Put(gid, s, format + icount + mode + links + size + Zeros(4) + data + ino + uid);
    out.Put(Zeros(4), s, format + icount + mode + links + size + Zeros(4) + data + ino + uid + gid);
  }

  method WriteExtended(out: Output, x: Inode, idx: nat, ghost mm: Mtime, word: nat)
    requires out.Valid() && !Compact(x, mm)
    modifies out
    ensures out.Valid() && out.noted == old(out.noted)
    ensures out.stream == old(out.stream) + HeaderBytes(x, idx, mm, word)
  {
    Assoc(out.stream, ExtendedFront(x, idx, word), ExtendedBack(x));
    WriteExtendedFront(out, x, idx, word);
    WriteExtendedBack(out, x);
  }

  method WriteExtendedFront(out: Output, x: Inode, idx: nat, word: nat)
    requires out.Valid()
    modifies out
    ensures out.Valid() && out.noted == old(out.noted)
    ensures out.stream == old(out.stream) + ExtendedFront(x, idx, word)
  {
    ghost var s := out.stream;
    var format, icount, mode := Le(1 + LayoutBits(x.kind), 2), Le(x.xattrs.Icount(), 2), Le(InodeMode(x), 2);
    var size, data, ino, uid, gid := Le(SizeOf(x.kind), 8), Le(word, 4), Le(idx, 4), Le(x.uid, 4), Le(x.gid, 4);
    out.PutFirst(format);
    out.Put(icount, s, format);
    out.Put(mode, s, format + icount);
    out.Put(Zeros(2), s, format + icount + mode);
    out.Put(size, s, format + icount + mode + Zeros(2));
    out.Put(data, s, format + icount + mode + Zeros(2) + size);
    out.Put(ino, s, format + icount + mode + Zeros(2) + size + data);
    out.Put(uid, s, format + icount + mode + Zeros(2) + size + data + ino);
    out.Put(gid, s, format + icount + mode + Zeros(2) + size + data + ino + uid);
  }

  method WriteExtendedBack(out: Output, x: Inode)
    requires out.Valid()
    modifies out
    ensures out.Valid() && out.noted == old(out.noted)
    ensures out.stream == old(out.stream) + ExtendedBack(x)
  {
    ghost var s := out.stream;
    var secs, nanos, links := Le(x.mtime.0, 8), Le(x.mtime.1, 4), Le(LinksOf(x.kind), 4);
    out.PutFirst(secs);
    out.Put(nanos, s, secs);
    out.Put(links, s, secs + nanos);
    out.Put(Zeros(16), s, secs + nanos + links);
  }

  method WriteInline(out: Output, kind: Kind)
    requires out.Valid() && (kind.DirKind? ==> EntsIn(out.Refs(), kind.dir.inline))
    modifies out
    ensures out.Valid() && out.noted == old(out.noted)
    ensures out.stream == old(out.stream) + InlineBytes(out.Refs(), kind)
  {
    ghost var s := out.stream;
    NoMore(s);
    match kind
    case DirKind(dir) =>
      WriteDirBlock(out, dir.inline);
    case BackedReg(_, tail) =>
      var i := 0;
      while i < Quot(tail, 4)
        invariant 0 <= i <= Quot(tail, 4)
        invariant out.Valid() && out.noted == old(out.noted)
        invariant out.stream == s + Index(i)
      {
        out.Put([255, 255, 255, 255], s, Index(i));
        assert Index(i) + [255, 255, 255, 255] == Index(i + 1);
        i := i + 1;
      }
    case SymlinkKind(target) =>
      out.PutFirst(target);
    case EmptyReg =>
    case WhiteoutKind =>
  }

  /** The padding before the header, as the writer works it out step by step. */
  method WriteLead(out: Output, x: Inode, mm: Mtime)
    requires out.Valid()
    requires x.kind.DirKind? ==> x.kind.dir.inline != [] || x.kind.dir.blocks != []
    modifies out
    ensures out.Valid() && out.noted == old(out.noted)
    ensures var at := |old(out.stream)|;
            out.stream == old(out.stream) + Zeros(HeaderAt(x, mm, at) - at)
  {
    ghost var s := out.stream;
    NoMore(s);
    out.PadTo(32, s, []);
    ghost var slot := RoundUp(|s|, 32);
    assert [] + Zeros(slot - |s|) == Zeros(slot - |s|);
    var head := HeaderSize(x, mm) + x.xattrs.ByteSize();
    var pad := 0;
    if x.kind.BackedReg? && x.kind.inlineTail > 0 {
      var rem := ToBoundary(out.offset + head);
      if rem > 0 && rem < x.kind.inlineTail {
        pad := RoundUp(rem, 32);
      }
    }
    if LayoutBits(x.kind) == LAYOUT_FLAT_INLINE {
      var inlineSize := Rem(SizeOf(x.kind), 4096);
      if x.kind.SymlinkKind? {
        if Rem(out.offset, 4096) + head + inlineSize > 4096 && ToBoundary(out.offset) > 0 {
          pad := ToBoundary(out.offset);
        }
      } else {
        var rem := ToBoundary(out.offset + head);
        if rem > 0 && rem < inlineSize {
          pad := RoundUp(rem, 32);
        }
      }
    }
    assert HeaderAt(x, mm, |s|) == slot + pad;
    out.PutZeros(pad, s, Zeros(slot - |s|));
    assert Zeros(slot - |s|) + Zeros(pad) == Zeros(slot - |s| + pad);
  }

  lemma {:induction false} InodeWhole(refs: Refs, x: Inode, idx: nat, mm: Mtime, s: Blob, place: nat)
    requires InodeIn(refs, x) && (refs.Known? ==> idx < |refs.layout.blocks|) && |s| <= place
    ensures var lead, body := Zeros(place - |s|), BodyBytes(refs, x, idx, mm);
            var whole := s + (lead + body);
            && (s + lead) + body == whole
            && s + (lead + body + Zeros(RoundUp(|whole|, 32) - |whole|)) == s + InodeBytes(refs, x, idx, mm, |s|, place)
  {
    var lead, body := Zeros(place - |s|), BodyBytes(refs, x, idx, mm);
    Assoc(s, lead, body);
    assert |s + (lead + body)| == place + BodySize(x, mm);
  }

  method WriteInode(out: Output, x: Inode, idx: nat, mm: Mtime)
    requires out.Valid() && InodeIn(out.Refs(), x) && (out.Refs().Known? ==> idx < |out.Refs().layout.blocks|)
    requires x.kind.DirKind? ==> x.kind.dir.inline != [] || x.kind.dir.blocks != []
    requires x.xattrs.Icount() <= 0xFFFF
    modifies out
    ensures out.Valid()
    ensures out.stream == old(out.stream)
            + InodeBytes(out.Refs(), x, idx, mm, |old(out.stream)|, HeaderAt(x, mm, |old(out.stream)|))
    ensures out.noted == if !out.sizing then old(out.noted)
                         else old(out.noted).(inodes := old(out.noted).inodes + [HeaderAt(x, mm, |old(out.stream)|)])
  {
    ghost var s := out.stream;
    ghost var place := HeaderAt(x, mm, |s|);
    WriteLead(out, x, mm);
    HeaderAligned(x, mm, |s|);
    out.NoteInode();
    WriteRest(out, x, idx, mm, s, place);
  }

  /** Header, xattr area and inline data of an inode at its place, and the zeros up to the next slot. */
  method WriteRest(out: Output, x: Inode, idx: nat, mm: Mtime, ghost s: Blob, ghost place: nat)
    requires out.Valid() && InodeIn(out.Refs(), x) && (out.Refs().Known? ==> idx < |out.Refs().layout.blocks|)
    requires |s| <= place && out.stream == s + Zeros(place - |s|) && Rem(place, 32) == 0
    modifies out
    ensures out.Valid() && out.noted == old(out.noted)
    ensures out.stream == s + InodeBytes(out.Refs(), x, idx, mm, |s|, place)
  {
    WriteBody(out, x, idx, mm, DataWord(x.kind, BlockStart(out.Refs(), idx)));
    InodeWhole(out.Refs(), x, idx, mm, s, place);
    out.PadTo(32, s, Zeros(place - |s|) + BodyBytes(out.Refs(), x, idx, mm));
  }

  method WriteHeader(out: Output, x: Inode, idx: nat, mm: Mtime, word: nat)
    requires out.Valid()
    modifies out
    ensures out.Valid() && out.noted == old(out.noted)
    ensures out.stream == old(out.stream) + HeaderBytes(x, idx, mm, word)
  {
    if Compact(x, mm) {
      WriteCompact(out, x, idx, mm, word);
    } else {
      WriteExtended(out, x, idx, mm, word);
    }
  }

  lemma {:induction false} HeaderKeepsQuads(s: nat, x: Inode, mm: Mtime)
    requires Rem(s, 32) == 0
    ensures Rem(s + HeaderSize(x, mm), 4) == 0
  {
    RemOfMultiple(s, 32, 4);
    RemOf4(8);
    RemOf4(16);
    RemAdd(s, HeaderSize(x, mm), 4);
  }

  method WriteBody(out: Output, x: Inode, idx: nat, mm: Mtime, word: nat)
    requires out.Valid() && InodeIn(out.Refs(), x) && (out.Refs().Known? ==> idx < |out.Refs().layout.blocks|)
    requires word == DataWord(x.kind, BlockStart(out.Refs(), idx))
    requires Rem(|out.stream|, 32) == 0
    modifies out
    ensures out.Valid() && out.noted == old(out.noted)
    ensures out.stream == old(out.stream) + BodyBytes(out.Refs(), x, idx, mm)
  {
    Assoc3(out.stream, HeaderBytes(x, idx, mm, word), XattrBytes(out.Refs(), x.xattrs),
        InlineBytes(out.Refs(), x.kind));
    HeaderKeepsQuads(|out.stream|, x, mm);
    WriteHeader(out, x, idx, mm, word);
    WriteXattrs(out, x.xattrs);
    WriteInline(out, x.kind);
  }

  // --- The program of both passes ---------------------------------------------

  method WriteFront(out: Output, p: Plan)
    requires out.Valid() && out.stream == []
    requires p.inodes != [] && Image.Covers(out.Refs(), |p.inodes|, |p.shared|)
    modifies out
    ensures out.Valid() && out.noted == old(out.noted)
    ensures out.stream == FrontBytes(p, out.Refs())
  {
    var magic, version, flags, format := Le(0xD078_629A, 4), Le(1, 4), Le(p.flags, 4), Le(0, 4);
    out.PutFirst(magic);
    assert [] + magic == magic;
    out.Put(version, [], magic);
    out.Put(flags, [], magic + version);
    out.Put(format, [], magic + version + flags);
    out.Put(Zeros(16), [], magic + version + flags + format);
    out.PadTo(1024, [], magic + version + flags + format + Zeros(16));
    assert out.stream == CfsHeader(p.flags);
    ghost var s := out.stream;
    var rootNid, blocks, xattrBlock := Nid(out.Refs(), 0), BlockCount(out.Refs()), XattrBlock(out.Refs());
    out.PutFirst(SuperBytes(rootNid, |p.inodes|, blocks, p.mm, xattrBlock));
  }

  /** The shape that every inode of a plan has. */
  ghost predicate Shaped(p: Plan) {
    forall i :: 0 <= i < |p.inodes| ==> InodeShaped(p.inodes[i])
  }

  ghost predicate InodeShaped(x: Inode) {
    && x.xattrs.Icount() <= 0xFFFF
    && (x.kind.DirKind? ==> x.kind.dir.inline != [] || x.kind.dir.blocks != [])
  }

  ghost predicate Runs(out: Output, p: Plan) {
    Closed(p) && Shaped(p) && Image.Covers(out.Refs(), |p.inodes|, |p.shared|)
  }

  /** The pass is at the start of inode `i`. */
  ghost predicate AtInode(out: Output, p: Plan, i: nat)
    requires Runs(out, p) && i <= |p.inodes|
    reads out
  {
    && out.Valid()
    && out.stream == InodesTo(p, out.Refs(), i)
    && out.noted == if out.sizing then NO_LAYOUT.(inodes := InodePlaces(p, i)) else NO_LAYOUT
  }

  /** The pass is at the start of entry `i` of the shared table. */
  ghost predicate AtEntry(out: Output, p: Plan, i: nat)
    requires Runs(out, p) && i <= |p.shared|
    reads out
  {
    && out.Valid()
    && out.stream == XattrsTo(p, out.Refs(), i)
    && out.noted == if out.sizing then LayoutOf(p).(xattrs := XattrPlaces(p, i), blocks := [], end := None)
                    else NO_LAYOUT
  }

  /** The pass is at the start of the data blocks of inode `i`. */
  ghost predicate AtBlocks(out: Output, p: Plan, i: nat)
    requires Runs(out, p) && i <= |p.inodes|
    reads out
  {
    && out.Valid()
    && out.stream == BlocksTo(p, out.Refs(), i)
    && out.noted == if out.sizing then LayoutOf(p).(blocks := BlockPlaces(p, i), end := None) else NO_LAYOUT
  }

  method WriteOneInode(out: Output, p: Plan, i: nat)
    requires Runs(out, p) && i < |p.inodes| && AtInode(out, p, i)
    modifies out
    ensures AtInode(out, p, i + 1)
  {
    InodesStep(p, out.Refs(), i);
    PlaceIs(p, i, |out.stream|);
    assert InodeShaped(p.inodes[i]);
    WriteInode(out, p.inodes[i], i, p.mm);
  }

  method WriteInodes(out: Output, p: Plan)
    requires Runs(out, p) && AtInode(out, p, 0)
    modifies out
    ensures AtInode(out, p, |p.inodes|)
  {
    var i := 0;
    while i < |p.inodes|
      invariant 0 <= i <= |p.inodes| && AtInode(out, p, i)
    {
      WriteOneInode(out, p, i);
      i := i + 1;
    }
  }

  method EndInodes(out: Output, p: Plan)
    requires Runs(out, p) && AtInode(out, p, |p.inodes|)
    modifies out
    ensures AtEntry(out, p, 0)
  {
    ghost var s := out.stream;
    NoMore(s);
    out.PadTo(32, s, []);
    assert [] + Zeros(RoundUp(|s|, 32) - |s|) == Zeros(RoundUp(|s|, 32) - |s|);
    out.NoteInodesEnd();
  }

  method WriteOneEntry(out: Output, p: Plan, i: nat)
    requires Runs(out, p) && i < |p.shared| && AtEntry(out, p, i)
    modifies out
    ensures AtEntry(out, p, i + 1)
  {
    XattrsStep(p, out.Refs(), i);
    XattrsLenAligned(p, i);
    out.NoteXattr();
    WriteEntry(out, p.shared[i]);
  }

  method WriteTable(out: Output, p: Plan)
    requires Runs(out, p) && AtEntry(out, p, 0)
    modifies out
    ensures AtEntry(out, p, |p.shared|)
  {
    var i := 0;
    while i < |p.shared|
      invariant 0 <= i <= |p.shared| && AtEntry(out, p, i)
    {
      WriteOneEntry(out, p, i);
      i := i + 1;
    }
  }

  method StartBlocks(out: Output, p: Plan)
    requires Runs(out, p) && AtEntry(out, p, |p.shared|)
    modifies out
    ensures AtBlocks(out, p, 0)
  {
    ghost var s := out.stream;
    NoMore(s);
    out.PadTo(4096, s, []);
    assert [] + Zeros(RoundUp(|s|, 4096) - |s|) == Zeros(RoundUp(|s|, 4096) - |s|);
  }

  method WriteOneRun(out: Output, p: Plan, i: nat)
    requires Runs(out, p) && i < |p.inodes| && AtBlocks(out, p, i)
    modifies out
    ensures AtBlocks(out, p, i + 1)
  {
    BlocksStep(p, out.Refs(), i);
    BlocksLenAligned(p, i);
    out.NoteBlock();
    WriteBlocks(out, p.inodes[i]);
  }

  method WriteAllBlocks(out: Output, p: Plan)
    requires Runs(out, p) && AtBlocks(out, p, 0)
    modifies out
    ensures AtBlocks(out, p, |p.inodes|)
  {
    var i := 0;
    while i < |p.inodes|
      invariant 0 <= i <= |p.inodes| && AtBlocks(out, p, i)
    {
      WriteOneRun(out, p, i);
      i := i + 1;
    }
  }

  method WriteErofs(out: Output, p: Plan)
    requires out.Valid() && Runs(out, p) && out.stream == [] && out.noted == NO_LAYOUT
    modifies out
    ensures out.Valid() && out.stream == ImageBytes(p, out.Refs())
    ensures out.sizing ==> out.noted == LayoutOf(p)
  {
    WriteFront(out, p);
    WriteInodes(out, p);
    EndInodes(out, p);
    WriteTable(out, p);
    StartBlocks(out, p);
    WriteAllBlocks(out, p);
    out.NoteEnd();
  }

  /** The sizing pass: the layout of the plan and the length of the image. */
  method SizePlan(p: Plan) returns (layout: Layout, size: nat)
    requires Closed(p) && Shaped(p)
    ensures layout == LayoutOf(p) && size == BlocksLen(p, |p.inodes|)
  {
    var pass := new Output.Sizing();
    WriteErofs(pass, p);
    layout, size := pass.noted, pass.offset;
  }

  /**
   The emitting pass over the layout of the sizing pass. Its length check cannot
   fail. A sink with room for the image has it, and so has the hasher. A sink
   with less room fails, and keeps as many bytes of the image as it has room for.
   */
  method EmitPlan(p: Plan, layout: Layout, size: nat, room: Option<nat>)
    returns (ok: bool, sink: Blob, hashed: Blob)
    requires Closed(p) && Shaped(p) && layout == LayoutOf(p) && size == BlocksLen(p, |p.inodes|)
    ensures sink <= FinalImage(p)
    ensures ok ==> sink == hashed == FinalImage(p)
    ensures !ok <==> room.Some? && room.value < |FinalImage(p)|
    ensures !ok ==> room == Some(|sink|)
  {
    LayoutCovers(p);
    var pass := new Output.Emitting(layout, room);
    WriteErofs(pass, p);
    PassesAgree(p, Known(layout));
    assert pass.offset == size;
    ok, sink, hashed := !pass.failed, pass.sink, pass.hashed;
  }
}
