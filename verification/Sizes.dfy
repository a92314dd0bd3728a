/**
 The packed entries of the sizes metadata: a checksum, two varints and the type
 of the object, which older entries leave out.
 */
module Sizes {
  import opened Bytes
  import opened Order
  import Varint

  type u64 = Varint.u64

  datatype SizeEntry = SizeEntry(checksum: Blob, compressed: u64, unpacked: u64, objtype: Option<nat>)

  datatype SizeProblem = Short | BadVarint(why: Varint.Problem) | BadType | TrailingBytes

  datatype Unpacked = Ok(entry: SizeEntry) | Err(why: SizeProblem)

  /** What the types of the fields demand: 32 bytes of checksum, and a known object type. */
  predicate Valid(e: SizeEntry) {
    |e.checksum| == 32 && (e.objtype.Some? ==> 1 <= e.objtype.value <= 9)
  }

  function TypeByte(t: Option<nat>): Blob
    requires t.Some? ==> t.value < 256
  {
    if t.None? then [] else [t.value]
  }

  function Packing(e: SizeEntry): Blob
    requires Valid(e)
  {
    e.checksum + (Varint.Encoding(e.compressed) + (Varint.Encoding(e.unpacked) + TypeByte(e.objtype)))
  }

  method PackEntry(e: SizeEntry, before: Blob) returns (out: Blob)
    requires Valid(e)
    ensures out == before + Packing(e)
  {
    out := before + e.checksum;
    out := Varint.Encode(e.compressed, out);
    out := Varint.Encode(e.unpacked, out);
    if e.objtype.Some? {
      out := out + [e.objtype.value];
    }
    PackAssoc(before, e.checksum, Varint.Encoding(e.compressed), Varint.Encoding(e.unpacked), TypeByte(e.objtype));
  }

  lemma {:induction false} PackAssoc(a: Blob, b: Blob, c: Blob, d: Blob, e: Blob)
    ensures (((a + b) + c) + d) + e == a + (b + (c + (d + e)))
    ensures e == [] ==> ((a + b) + c) + d == a + (b + (c + (d + e)))
  {
    assert e == [] ==> d + e == d;
  }

  /** The end of an entry: nothing, or the type byte. */
  function LastByte(checksum: Blob, c: u64, u: u64, last: Blob): Unpacked {
    if |last| == 0 then Ok(SizeEntry(checksum, c, u, None))
    else if |last| > 1 then Err(TrailingBytes)
    else if 1 <= last[0] <= 9 then Ok(SizeEntry(checksum, c, u, Some(last[0])))
    else Err(BadType)
  }

  /** The first error in the order of the fields, or the entry. */
  function Unpacking(buf: Blob): Unpacked {
    if |buf| < 32 then Err(Short)
    else
      match Varint.Decoding(buf[32..])
      case Err(why) => Err(BadVarint(why))
      case Ok(c, n) =>
        Varint.Canonical(buf[32..], c, n);
        match Varint.Decoding(buf[32..][n..])
        case Err(why) => Err(BadVarint(why))
        case Ok(u, m) =>
          Varint.Canonical(buf[32..][n..], u, m);
          LastByte(buf[..32], c, u, buf[32..][n..][m..])
  }

  method UnpackEntry(buf: Blob) returns (r: Unpacked)
    ensures r == Unpacking(buf)
  {
    if |buf| < 32 {
      return Err(Short);
    }
    var pos := 32;
    var c := Varint.Decode(buf[pos..]);
    if c.Err? {
      return Err(BadVarint(c.why));
    }
    Varint.Canonical(buf[32..], c.value, c.size);
    pos := pos + c.size;
    assert buf[pos..] == buf[32..][c.size..];
    var u := Varint.Decode(buf[pos..]);
    if u.Err? {
      return Err(BadVarint(u.why));
    }
    Varint.Canonical(buf[pos..], u.value, u.size);
    assert buf[pos + u.size..] == buf[pos..][u.size..];
    pos := pos + u.size;
    if |buf| - pos > 1 {
      return Err(TrailingBytes);
    }
    if |buf| == pos {
      return Ok(SizeEntry(buf[..32], c.value, u.value, None));
    }
    var t := buf[pos];
    assert buf[pos..] == [t];
    if !(1 <= t <= 9) {
      return Err(BadType);
    }
    return Ok(SizeEntry(buf[..32], c.value, u.value, Some(t)));
  }

  /** An encoding at the start of a text is the one that the decoder finds. */
  lemma {:induction false} DecodesFirst(v: u64, tail: Blob, s: Blob)
    requires s == Varint.Encoding(v) + tail
    ensures Varint.Decoding(s) == Varint.Ok(v, |Varint.Encoding(v)|) && s[|Varint.Encoding(v)|..] == tail
  {
    Varint.Canonical(s, v, |Varint.Encoding(v)|);
  }

  lemma {:induction false} UnpackedIsPacked(buf: Blob, e: SizeEntry, rest: Blob, n: nat, more: Blob, m: nat)
    requires Unpacking(buf) == Ok(e) && rest == buf[32..]
    requires Varint.Decoding(rest) == Varint.Ok(e.compressed, n) && n <= |rest| && more == rest[n..]
    requires Varint.Decoding(more) == Varint.Ok(e.unpacked, m) && m <= |more|
    ensures Valid(e) && buf == Packing(e)
  {
    Varint.Canonical(rest, e.compressed, n);
    Varint.Canonical(more, e.unpacked, m);
    assert more[m..] == TypeByte(e.objtype);
    assert more == Varint.Encoding(e.unpacked) + TypeByte(e.objtype);
    assert rest == Varint.Encoding(e.compressed) + more;
    assert buf == e.checksum + rest;
  }

  lemma {:induction false} PackedUnpacks(buf: Blob, e: SizeEntry, rest: Blob, more: Blob)
    requires Valid(e) && buf == Packing(e)
    requires more == Varint.Encoding(e.unpacked) + TypeByte(e.objtype) && rest == Varint.Encoding(e.compressed) + more
    ensures Unpacking(buf) == Ok(e)
  {
    assert buf[..32] == e.checksum && buf[32..] == rest;
    DecodesFirst(e.compressed, more, rest);
    DecodesFirst(e.unpacked, TypeByte(e.objtype), more);
  }

  /** A buffer unpacks to an entry exactly when it is the packing of that entry. */
  lemma {:induction false} UnpackIsPack(buf: Blob, e: SizeEntry)
    ensures Unpacking(buf) == Ok(e) <==> Valid(e) && buf == Packing(e)
  {
    if Unpacking(buf) == Ok(e) {
      var n := Varint.Decoding(buf[32..]).size;
      Varint.Canonical(buf[32..], e.compressed, n);
      var m := Varint.Decoding(buf[32..][n..]).size;
      Varint.Canonical(buf[32..][n..], e.unpacked, m);
      UnpackedIsPacked(buf, e, buf[32..], n, buf[32..][n..], m);
    }
    if Valid(e) && buf == Packing(e) {
      var more := Varint.Encoding(e.unpacked) + TypeByte(e.objtype);
      PackedUnpacks(buf, e, Varint.Encoding(e.compressed) + more, more);
    }
  }

  // --- The sorted array of entries -------------------------------------------------------

  ghost predicate AllValid(entries: seq<SizeEntry>) {
    forall i :: 0 <= i < |entries| ==> Valid(entries[i])
  }

  function ChecksumOf(e: SizeEntry): Blob { e.checksum }

  /** The entries in the order of their checksums, which keeps the order of equal ones. */
  function InOrder(entries: seq<SizeEntry>): seq<SizeEntry> { Sort(KeyLe(ChecksumOf), entries) }

  lemma {:induction false} ChecksumLe(a: SizeEntry, b: SizeEntry)
    ensures KeyLe(ChecksumOf)(a, b) <==> Leq(a.checksum, b.checksum)
  {
    var key := ChecksumOf;
    assert key(a) == a.checksum && key(b) == b.checksum;
  }

  lemma {:induction false} InOrderKeeps(entries: seq<SizeEntry>)
    requires AllValid(entries)
    ensures multiset(InOrder(entries)) == multiset(entries) && AllValid(InOrder(entries))
    ensures forall i, j :: 0 <= i < j < |entries| ==>
              Leq(InOrder(entries)[i].checksum, InOrder(entries)[j].checksum)
  {
    var le, s := KeyLe(ChecksumOf), InOrder(entries);
    KeyLeTotal(ChecksumOf);
    SortSorts(le, entries);
    SortPermutes(le, entries);
    SameElements(s, entries);
    forall i | 0 <= i < |s| ensures Valid(s[i]) {
      assert s[i] in entries;
    }
    forall i, j | 0 <= i < j < |s| ensures Leq(s[i].checksum, s[j].checksum) {
      ChecksumLe(s[i], s[j]);
      assert le(s[i], s[j]);
    }
  }

  /**
   The array of packed entries: one element for each entry, in checksum order,
   each of which unpacks to its entry.
   */
  method PackSizes(entries: seq<SizeEntry>) returns (bufs: seq<Blob>)
    requires AllValid(entries)
    ensures |bufs| == |entries| && multiset(InOrder(entries)) == multiset(entries)
    ensures forall i, j :: 0 <= i < j < |bufs| ==> Leq(InOrder(entries)[i].checksum, InOrder(entries)[j].checksum)
    ensures forall i :: 0 <= i < |bufs| ==> Unpacking(bufs[i]) == Ok(InOrder(entries)[i])
  {
    InOrderKeeps(entries);
    var sorted := InOrder(entries);
    bufs := [];
    while |bufs| < |sorted|
      invariant |bufs| <= |sorted|
      invariant forall i :: 0 <= i < |bufs| ==> Unpacking(bufs[i]) == Ok(sorted[i])
    {
      var e := sorted[|bufs|];
      var buf := PackEntry(e, []);
      assert buf == Packing(e);
      UnpackIsPack(buf, e);
      bufs := bufs + [buf];
    }
  }
}
