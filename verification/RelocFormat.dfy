/** The layout of a base relocation table (section "The .reloc Section" of the Microsoft PE/COFF
    specification), and that the walk of the relocation view inverts it. */
module RelocFormat {
  import opened Words
  import opened ByteOrder
  import opened Layout
  import opened PeImage
  import opened Reloc

  datatype BlockData = BlockData(page: dword, entries: seq<Entry>)

  predicate ValidEntry(e: Entry) { e.offset < 0x1000 && e.kind < 16 }

  function Size(b: BlockData): nat { 8 + 2 * |b.entries| }

  predicate ValidTable(bs: seq<BlockData>) {
    forall i :: 0 <= i < |bs| ==> Size(bs[i]) < 0x1_0000_0000
                                  && forall k :: 0 <= k < |bs[i].entries| ==> ValidEntry(bs[i].entries[k])
  }

  function EncodeEntries(es: seq<Entry>): (s: seq<byte>)
    ensures |s| == 2 * |es|
  {
    if es == [] then [] else StoreLE(2, es[0].kind * 0x1000 + es[0].offset) + EncodeEntries(es[1..])
  }

  function EncodeBlock(b: BlockData): (s: seq<byte>)
    ensures |s| == Size(b)
  {
    StoreLE(4, b.page) + StoreLE(4, Size(b)) + EncodeEntries(b.entries)
  }

  function EncodeTable(bs: seq<BlockData>): seq<byte> {
    if bs == [] then [] else EncodeBlock(bs[0]) + EncodeTable(bs[1..])
  }

  /** The blocks, one behind the other, and behind them eight bytes whose size word is zero. */
  predicate TableAt(mem: seq<byte>, a: nat, bs: seq<BlockData>) {
    var end := a + |EncodeTable(bs)|;
    end + 8 <= |mem| && mem[a..end] == EncodeTable(bs) && mem[end + 4..end + 8] == [0, 0, 0, 0]
  }

  /** The prefix sums of the block sizes. */
  function OffsetOf(bs: seq<BlockData>, i: nat): nat
    requires i <= |bs|
  {
    if i == 0 then 0 else Size(bs[0]) + OffsetOf(bs[1..], i - 1)
  }

  lemma {:induction false} EntryBytes(es: seq<Entry>, k: nat)
    requires k < |es|
    ensures EncodeEntries(es)[2 * k..2 * k + 2] == StoreLE(2, es[k].kind * 0x1000 + es[k].offset)
  {
    if k == 0 {
    } else {
      EntryBytes(es[1..], k - 1);
      assert EncodeEntries(es)[2 * k..2 * k + 2] == EncodeEntries(es[1..])[2 * (k - 1)..2 * (k - 1) + 2];
    }
  }

  predicate BlockInMemory(mem: seq<byte>, a: nat, b: BlockData) {
    Size(b) < 0x1_0000_0000 && a + Size(b) <= |mem| && mem[a..a + Size(b)] == EncodeBlock(b)
  }

  lemma EncodedParts(b: BlockData)
    ensures EncodeBlock(b)[0..4] == StoreLE(4, b.page) && EncodeBlock(b)[4..8] == StoreLE(4, Size(b))
    ensures forall k :: 0 <= k < |b.entries| ==>
      EncodeBlock(b)[8 + 2 * k..8 + 2 * k + 2] == StoreLE(2, b.entries[k].kind * 0x1000 + b.entries[k].offset)
  {
    forall k | 0 <= k < |b.entries|
      ensures EncodeBlock(b)[8 + 2 * k..8 + 2 * k + 2] == StoreLE(2, b.entries[k].kind * 0x1000 + b.entries[k].offset)
    {
      EntryBytes(b.entries, k);
      assert EncodeBlock(b)[8..] == EncodeEntries(b.entries);
      assert EncodeBlock(b)[8 + 2 * k..8 + 2 * k + 2] == EncodeBlock(b)[8..][2 * k..2 * k + 2];
    }
  }

  /** A block in memory reads back as its page, its size, its number of entries and its entries. */
  lemma ReadsBlock(img: Image, a: nat, b: BlockData)
    requires ReadsMemory(img) && BlockInMemory(img.mem, a, b)
    ensures PageAt(img, a) == b.page && SizeAt(img, a) == Size(b) && Count(SizeAt(img, a)) == |b.entries|
  {
    EncodedParts(b);
    SubSlice(img.mem, a, EncodeBlock(b), 0, 4);
    SubSlice(img.mem, a, EncodeBlock(b), 4, 8);
    ReadsDword(img, a, b.page);
    ReadsDword(img, a + 4, Size(b));
  }

  lemma ReadsEntry(img: Image, a: nat, b: BlockData, k: nat)
    requires ReadsMemory(img) && BlockInMemory(img.mem, a, b)
    requires k < |b.entries| && ValidEntry(b.entries[k])
    ensures EntryAt(img, a, k) == b.entries[k]
  {
    var x := b.entries[k];
    EncodedParts(b);
    SubSlice(img.mem, a, EncodeBlock(b), 8 + 2 * k, 8 + 2 * k + 2);
    ReadsWord(img, a + 8 + 2 * k, x.kind * 0x1000 + x.offset);
  }

  lemma TableHead(mem: seq<byte>, a: nat, bs: seq<BlockData>)
    requires TableAt(mem, a, bs) && ValidTable(bs) && bs != []
    ensures BlockInMemory(mem, a, bs[0]) && TableAt(mem, a + Size(bs[0]), bs[1..]) && ValidTable(bs[1..])
  {
    var e, size := EncodeTable(bs), Size(bs[0]);
    SubSlice(mem, a, e, 0, size);
    SubSlice(mem, a, e, size, |e|);
    assert e[0..size] == EncodeBlock(bs[0]) && e[size..] == EncodeTable(bs[1..]);
  }

  predicate ReadsBackAs(img: Image, a: int, b: BlockData) {
    && PageAt(img, a) == b.page && SizeAt(img, a) == Size(b) && Count(SizeAt(img, a)) == |b.entries|
    && forall k :: 0 <= k < |b.entries| ==> EntryAt(img, a, k) == b.entries[k]
  }

  lemma EncodedStep(img: Image, a: dword, bs: seq<BlockData>)
    requires ReadsMemory(img) && ValidTable(bs) && TableAt(img.mem, a, bs) && |img.mem| <= 0x1_0000_0000 && bs != []
    ensures ReadsBackAs(img, a, bs[0])
    ensures NextBlock(img, a) == a + Size(bs[0]) && SizeAt(img, a) != 0
    ensures TableAt(img.mem, NextBlock(img, a), bs[1..]) && ValidTable(bs[1..])
  {
    TableHead(img.mem, a, bs);
    ReadsBlock(img, a, bs[0]);
    forall k | 0 <= k < |bs[0].entries| ensures EntryAt(img, a, k) == bs[0].entries[k] {
      ReadsEntry(img, a, bs[0], k);
    }
  }

  lemma {:induction false} EncodedEnds(img: Image, a: dword, bs: seq<BlockData>)
    requires ReadsMemory(img) && ValidTable(bs) && TableAt(img.mem, a, bs) && |img.mem| <= 0x1_0000_0000
    ensures WalkEnds(img, a, |bs|)
    decreases |bs|
  {
    if bs == [] {
      assert img.mem[a + 4..a + 8] == StoreLE(4, 0) by { StoreUnrolled(0); }
      ReadsDword(img, a + 4, 0);
    } else {
      EncodedStep(img, a, bs);
      EncodedEnds(img, NextBlock(img, a), bs[1..]);
    }
  }

  /** The i-th block visited is block i of the table, at the prefix sum of the sizes before it. */
  predicate VisitsBlock(img: Image, a: dword, bs: seq<BlockData>, i: nat)
    requires i < |bs|
  {
    Visited(img, a, |bs|)[i] == a + OffsetOf(bs, i) && ReadsBackAs(img, a + OffsetOf(bs, i), bs[i])
  }

  lemma {:induction false} EncodedVisit(img: Image, a: dword, bs: seq<BlockData>, i: nat)
    requires ReadsMemory(img) && ValidTable(bs) && TableAt(img.mem, a, bs) && |img.mem| <= 0x1_0000_0000 && i < |bs|
    ensures VisitsBlock(img, a, bs, i)
    decreases |bs|
  {
    EncodedStep(img, a, bs);
    if i == 0 {
    } else {
      EncodedVisit(img, NextBlock(img, a), bs[1..], i - 1);
      VisitTail(img, a, bs, i);
    }
  }

  lemma VisitTail(img: Image, a: dword, bs: seq<BlockData>, i: nat)
    requires 0 < i < |bs| && NextBlock(img, a) == a + Size(bs[0])
    requires VisitsBlock(img, NextBlock(img, a), bs[1..], i - 1)
    ensures VisitsBlock(img, a, bs, i)
  {
    VisitedTail(img, a, |bs|, i);
    assert bs[1..][i - 1] == bs[i] && OffsetOf(bs, i) == Size(bs[0]) + OffsetOf(bs[1..], i - 1);
  }

  lemma VisitedTail(img: Image, a: dword, n: nat, i: nat)
    requires 0 < i < n
    ensures Visited(img, a, n)[i] == Visited(img, NextBlock(img, a), n - 1)[i - 1]
  {
  }

  /** Walking an encoded table ends after exactly its blocks, visits them at the prefix sums of their
      sizes with no gap and no overlap, and reads back every page, size, count and entry. */
  lemma WalkInvertsEncoding(img: Image, a: dword, bs: seq<BlockData>)
    requires ReadsMemory(img) && ValidTable(bs) && TableAt(img.mem, a, bs) && |img.mem| <= 0x1_0000_0000
    ensures WalkEnds(img, a, |bs|)
    ensures forall i :: 0 <= i < |bs| ==> VisitsBlock(img, a, bs, i)
  {
    EncodedEnds(img, a, bs);
    forall i | 0 <= i < |bs| ensures VisitsBlock(img, a, bs, i) {
      EncodedVisit(img, a, bs, i);
    }
  }
}
