/** What the user of the relocation view gets to see: which block a click on a row opens, and which
    entries and addresses it shows. */
module RelocClicks {
  import opened Words
  import opened ByteOrder
  import opened Text
  import opened Layout
  import opened ListCtrl
  import opened PeImage
  import opened Reloc

  // ----- Which block a click opens -----

  lemma {:induction false} SectionRowAt(img: Image, blocks: seq<dword>, index: nat, before: string, r: nat)
    requires r < |blocks|
    ensures var cells := SectionRows(img, blocks, index, before)[r].cells;
            && |cells| == 4 && cells[0] == DecN(index + r + 1) && cells[2] == HexN(PageFoa(img, blocks[r]), 8)
            && cells[3] == Both(Count(SizeAt(img, blocks[r])))
    decreases r
  {
    if r == 0 {
    } else {
      SectionRowAt(img, blocks[1..], index + 1, NameAfter(img, FoaLookup(img, PageAt(img, blocks[0])), before), r - 1);
    }
  }

  /** The name shown for a block is that of the section its page lies in; for a page in no section it is the name
      of the row above, and in the first row the name left by an earlier translation. */
  lemma {:induction false} SectionNameAt(img: Image, blocks: seq<dword>, index: nat, before: string, r: nat)
    requires r < |blocks|
    ensures var rows, l := SectionRows(img, blocks, index, before), FoaLookup(img, PageAt(img, blocks[r]));
            && |rows[r].cells| == 4 && (r > 0 ==> |rows[r - 1].cells| == 4)
            && rows[r].cells[1] == if l.Found? && l.index < |img.sections| then Txt(img.sections[l.index].name)
                                   else if r == 0 then Txt(before)
                                   else rows[r - 1].cells[1]
    decreases r
  {
    var l := FoaLookup(img, PageAt(img, blocks[0]));
    var name := NameAfter(img, l, before);
    if r == 0 {
    } else {
      SectionNameAt(img, blocks[1..], index + 1, name, r - 1);
    }
  }

  /** Two section rows show the same page cell only for the same page offset. */
  lemma SameCellSameOffset(img: Image, v: View, a: dword, n: nat, r: nat, s: nat)
    requires v.sections == [] && r < n && s < n
    ensures var blocks, w := Visited(img, a, n), AfterWalk(img, v, a, 0, n);
            GetItemText(w.sections, r, 2) == GetItemText(w.sections, s, 2)
            <==> PageFoa(img, blocks[r]) == PageFoa(img, blocks[s])
  {
    var blocks, w := Visited(img, a, n), AfterWalk(img, v, a, 0, n);
    WalkMeans(img, v, a, n);
    assert w.sections == SectionRows(img, blocks, 0, v.sectionName);
    SectionRowAt(img, blocks, 0, v.sectionName, r);
    SectionRowAt(img, blocks, 0, v.sectionName, s);
    var x, y := PageFoa(img, blocks[r]), PageFoa(img, blocks[s]);
    assert GetItemText(w.sections, r, 2) == Hex(x, 8) && GetItemText(w.sections, s, 2) == Hex(y, 8);
    if Hex(x, 8) == Hex(y, 8) { HexInjective(x, y, 8); }
  }

  /** No block behind r has the page offset k. */
  predicate NoneAfter(img: Image, blocks: seq<dword>, r: int, k: dword) {
    forall s :: 0 <= s < |blocks| && r < s ==> PageFoa(img, blocks[s]) != k
  }

  lemma {:induction false} MapMiss(img: Image, blocks: seq<dword>, before: map<dword, dword>, k: dword)
    requires NoneAfter(img, blocks, -1, k)
    ensures k in PageMap(img, blocks, before) <==> k in before
    ensures k in before ==> PageMap(img, blocks, before)[k] == before[k]
  {
    if blocks == [] {
    } else {
      assert PageFoa(img, blocks[0]) != k;
      forall s | 0 <= s < |blocks[1..]| ensures PageFoa(img, blocks[1..][s]) != k {
        assert blocks[1..][s] == blocks[s + 1];
      }
      MapMiss(img, blocks[1..], before[PageFoa(img, blocks[0]) := blocks[0]], k);
    }
  }

  /** The last block with a page offset is the one the map holds for it. */
  lemma {:induction false} MapHit(img: Image, blocks: seq<dword>, before: map<dword, dword>, r: nat)
    requires r < |blocks| && NoneAfter(img, blocks, r, PageFoa(img, blocks[r]))
    ensures var k := PageFoa(img, blocks[r]);
            k in PageMap(img, blocks, before) && PageMap(img, blocks, before)[k] == blocks[r]
    decreases r
  {
    var k, m := PageFoa(img, blocks[r]), before[PageFoa(img, blocks[0]) := blocks[0]];
    forall s | 0 <= s < |blocks[1..]| && r - 1 < s ensures PageFoa(img, blocks[1..][s]) != k {
      assert blocks[1..][s] == blocks[s + 1];
    }
    if r == 0 {
      MapMiss(img, blocks[1..], m, k);
    } else {
      assert blocks[1..][r - 1] == blocks[r];
      MapHit(img, blocks[1..], m, r - 1);
    }
  }

  lemma {:induction false} LastWith(img: Image, blocks: seq<dword>, k: dword, r: nat) returns (s: nat)
    requires r < |blocks| && PageFoa(img, blocks[r]) == k
    ensures r <= s < |blocks| && PageFoa(img, blocks[s]) == k && NoneAfter(img, blocks, s, k)
    decreases |blocks| - r
  {
    s := r;
    if !NoneAfter(img, blocks, r, k) {
      var t :| r < t < |blocks| && PageFoa(img, blocks[t]) == k;
      s := LastWith(img, blocks, k, t);
    }
  }

  predicate Opens(m: map<dword, dword>, k: dword, block: dword) { k in m && m[k] == block }

  lemma {:induction false} WalkLength(img: Image, a: dword, n: nat, m: nat)
    requires WalkEnds(img, a, n) && WalkEnds(img, a, m)
    ensures n == m
    decreases n
  {
    if n == 0 {
    } else {
      WalkLength(img, NextBlock(img, a), n - 1, m - 1);
    }
  }

  lemma {:induction false} EndsFrom(img: Image, a: dword, n: nat, s: nat)
    requires WalkEnds(img, a, n) && s < n
    ensures WalkEnds(img, Visited(img, a, n)[s], n - s)
    decreases s
  {
    if s == 0 {
    } else {
      EndsFrom(img, NextBlock(img, a), n - 1, s - 1);
    }
  }

  /** A walk that ends visits no block twice. */
  lemma VisitsOnce(img: Image, a: dword, n: nat, s: nat, t: nat)
    requires WalkEnds(img, a, n) && s < n && t < n && Visited(img, a, n)[s] == Visited(img, a, n)[t]
    ensures s == t
  {
    EndsFrom(img, a, n, s);
    EndsFrom(img, a, n, t);
    WalkLength(img, Visited(img, a, n)[s], n - s, n - t);
  }

  /** After the walk into an empty list, a click on row r opens the block of row r exactly when its page
      offset is below 2^31, where the parse saturates, and no later block has the same page offset; or when
      it is not, no block has the saturated value as its page offset, and an earlier walk left this block
      under that value. */
  lemma ClickOpensItsBlock(img: Image, v: View, a: dword, n: nat, r: nat)
    requires v.sections == [] && WalkEnds(img, a, n) && r < n
    ensures var blocks, w := Visited(img, a, n), AfterWalk(img, v, a, 0, n);
            var page := PageFoa(img, blocks[r]);
            Opens(w.DPMap, ClickKey(w.sections, r), blocks[r])
            <==> if page <= INT_MAX32 then NoneAfter(img, blocks, r, page)
                 else NoneAfter(img, blocks, -1, INT_MAX32) && Opens(v.DPMap, INT_MAX32, blocks[r])
  {
    var blocks, w := Visited(img, a, n), AfterWalk(img, v, a, 0, n);
    WalkMeans(img, v, a, n);
    assert w.sections == SectionRows(img, blocks, 0, v.sectionName);
    SectionRowAt(img, blocks, 0, v.sectionName, r);
    var page, key := PageFoa(img, blocks[r]), ClickKey(w.sections, r);
    HexRoundTrip(page, 8);
    assert key == Min(page, INT_MAX32);
    if NoneAfter(img, blocks, -1, key) {
      MapMiss(img, blocks, v.DPMap, key);
      assert page != key && page > INT_MAX32;
    } else {
      var t :| 0 <= t < n && PageFoa(img, blocks[t]) == key;
      var s := LastWith(img, blocks, key, if page == key then r else t);
      MapHit(img, blocks, v.DPMap, s);
      if blocks[s] == blocks[r] { VisitsOnce(img, a, n, s, r); }
      assert Opens(w.DPMap, key, blocks[r]) <==> s == r;
    }
  }

  // ----- Which entries it shows -----

  /** All HIGHLOW entries in order, each with its texts. */
  function AllRows(img: Image, a: int, count: nat, baseRVA: dword, realVA: dword): seq<Item> {
    if count == 0 then []
    else if HighLow(img, a, count - 1)
    then AllRows(img, a, count - 1, baseRVA, realVA) + [Row(BlockCells(img, a, count - 1, baseRVA, realVA))]
    else AllRows(img, a, count - 1, baseRVA, realVA)
  }

  lemma {:induction false} AllRowsFilled(img: Image, a: int, count: nat, baseRVA: dword, realVA: dword, r: nat)
    requires r < |AllRows(img, a, count, baseRVA, realVA)|
    ensures AllRows(img, a, count, baseRVA, realVA)[r] != Blank(6)
    decreases count
  {
    if r < |AllRows(img, a, count - 1, baseRVA, realVA)| {
      AllRowsFilled(img, a, count - 1, baseRVA, realVA, r);
    } else {
      assert BlockCells(img, a, count - 1, baseRVA, realVA)[3] == Txt("HIGHLOW(3)") && Blank(6).cells[3] == Txt("");
    }
  }

  lemma {:induction false} LeadingOnly(img: Image, a: int, count: nat, baseRVA: dword, realVA: dword)
    requires HighLows(img, a, Leading(img, a, count), count) == 0
    ensures AllRows(img, a, count, baseRVA, realVA) == FilledRows(img, a, Leading(img, a, count), baseRVA, realVA)
    decreases count
  {
    if count == 0 {
    } else {
      LastOfLeading(img, a, count);
      LeadingOnly(img, a, count - 1, baseRVA, realVA);
    }
  }

  // Either the last entry is a leading one, or it is not HIGHLOW.
  lemma LastOfLeading(img: Image, a: int, count: nat)
    requires count > 0 && HighLows(img, a, Leading(img, a, count), count) == 0
    ensures var q := Leading(img, a, count - 1);
            && HighLows(img, a, q, count - 1) == 0
            && Leading(img, a, count) == (if HighLow(img, a, count - 1) then count else q)
            && (HighLow(img, a, count - 1) ==> q == count - 1)
  {
  }

  /** The rows are the block's HIGHLOW entries, in order and complete, exactly when no HIGHLOW entry
      stands behind an entry of another type. */
  lemma RowsAreTheEntries(img: Image, a: int, baseRVA: dword, realVA: dword)
    ensures var count := Count(SizeAt(img, a));
            BlockRows(img, a, baseRVA, realVA) == AllRows(img, a, count, baseRVA, realVA)
            <==> forall i :: Leading(img, a, count) <= i < count ==> !HighLow(img, a, i)
  {
    var count := Count(SizeAt(img, a));
    var p := Leading(img, a, count);
    var rest := HighLows(img, a, p, count);
    if rest == 0 {
      LeadingOnly(img, a, count, baseRVA, realVA);
      assert BlankRows(0) == [];
    } else {
      assert BlockRows(img, a, baseRVA, realVA)[p] == Blank(6);
      if p < |AllRows(img, a, count, baseRVA, realVA)| { AllRowsFilled(img, a, count, baseRVA, realVA, p); }
    }
  }

  // ----- Which addresses it shows -----

  /** The RVA cell of a shown entry is within one page of the page base used, its file offset lies at the
      same distance for every entry, and the far address is the RVA moved by the file's address. */
  lemma RowAddresses(img: Image, a: int, i: nat, baseRVA: dword, realVA: dword)
    ensures var cells := BlockCells(img, a, i, baseRVA, realVA);
            && cells[1].HexN? && cells[2].HexN? && cells[4].HexN?
            && U32(cells[1].value - cells[2].value) == U32(baseRVA - realVA)
            && U32(cells[1].value - baseRVA) == EntryAt(img, a, i).offset < 0x1000
            && U32(cells[4].value - cells[1].value) == img.fileBuff
  {
    AddressArithmetic(baseRVA, realVA, EntryAt(img, a, i).offset, img.fileBuff);
  }

  /** The texts of a shown entry: its number, its RVA, its file offset, the type, the far address, and the DWORD
      that lies in memory where the file offset leads. */
  lemma RowShows(img: Image, a: int, i: nat, baseRVA: dword, realVA: dword, p: dword, data: dword)
    requires p == (realVA + EntryAt(img, a, i).offset + img.fileBuff) % 0x1_0000_0000
    requires ReadsMemory(img) && Holds(img.mem, Field(p, StoreLE(4, data)))
    ensures var o := EntryAt(img, a, i).offset;
            BlockCells(img, a, i, baseRVA, realVA)
            == [DecN(i + 1), HexN((baseRVA + o) % 0x1_0000_0000, 8), HexN((realVA + o) % 0x1_0000_0000, 8),
                Txt("HIGHLOW(3)"), HexN((baseRVA + o + img.fileBuff) % 0x1_0000_0000, 8), HexN(data, 8)]
  {
    StoredDword(img, p, data);
    CellsShown(img, a, i, baseRVA, realVA, EntryAt(img, a, i).offset, p, data);
  }

  lemma StoredDword(img: Image, p: nat, data: dword)
    requires ReadsMemory(img) && Holds(img.mem, Field(p, StoreLE(4, data)))
    ensures DwordAt(img, p) == data
  {
    ReadsDword(img, p, data);
  }

  lemma CellsShown(img: Image, a: int, i: nat, baseRVA: dword, realVA: dword, o: nat, p: dword, data: dword)
    requires o == EntryAt(img, a, i).offset && p == (realVA + o + img.fileBuff) % 0x1_0000_0000
    requires DwordAt(img, p) == data
    ensures BlockCells(img, a, i, baseRVA, realVA)
            == [DecN(i + 1), HexN((baseRVA + o) % 0x1_0000_0000, 8), HexN((realVA + o) % 0x1_0000_0000, 8),
                Txt("HIGHLOW(3)"), HexN((baseRVA + o + img.fileBuff) % 0x1_0000_0000, 8), HexN(data, 8)]
  {
    Wrapped(baseRVA, o, img.fileBuff);
    Wrapped(realVA, o, img.fileBuff);
  }

  lemma Wrapped(x: dword, o: nat, fileBuff: dword)
    ensures U32(x + o) == (x + o) % 0x1_0000_0000
    ensures U32(U32(x + o) + fileBuff) == (x + o + fileBuff) % 0x1_0000_0000
  {
    WrapIs(x + o);
    AddWrapped(x + o, fileBuff);
    WrapIs(x + o + fileBuff);
  }

  lemma AddressArithmetic(baseRVA: dword, realVA: dword, o: nat, fileBuff: dword)
    requires o < 0x1000
    ensures var rva, foa := U32(baseRVA + o), U32(realVA + o);
            && U32(rva - foa) == U32(baseRVA - realVA) && U32(rva - baseRVA) == o
            && U32(U32(rva + fileBuff) - rva) == fileBuff
  {
    var rva, foa := U32(baseRVA + o), U32(realVA + o);
    NearDword(baseRVA + o);
    NearDword(realVA + o);
    NearDword(rva - foa);
    NearDword(baseRVA - realVA);
    NearDword(rva - baseRVA);
    NearDword(rva + fileBuff);
    NearDword(U32(rva + fileBuff) - rva);
  }

  /** The page base used is a global that the walk leaves at its last block, as is that page's file offset. So
      the rows of the block opened by a click show RVAs and far addresses of that block's own page exactly when
      it is the page of the last block too, and file offsets into it exactly when the two pages have the same
      file offset; in that case the data shown is that of the block's own page as well. */
  lemma ClickShowsLastPage(img: Image, v: View, a: dword, n: nat, r: nat, i: nat)
    requires r < n
    ensures var blocks, w := Visited(img, a, n), AfterWalk(img, v, a, |v.sections|, n);
            var last, own := blocks[n - 1], blocks[r];
            var shown := BlockCells(img, own, i, w.baseRVA, w.realVA);
            var meant := BlockCells(img, own, i, PageAt(img, own), PageFoa(img, own));
            && (shown[1] == meant[1] <==> PageAt(img, own) == PageAt(img, last))
            && (shown[4] == meant[4] <==> PageAt(img, own) == PageAt(img, last))
            && (shown[2] == meant[2] <==> PageFoa(img, own) == PageFoa(img, last))
            && (PageFoa(img, own) == PageFoa(img, last) ==> shown[5] == meant[5])
  {
    var blocks, w := Visited(img, a, n), AfterWalk(img, v, a, |v.sections|, n);
    assert w.baseRVA == PageAt(img, blocks[n - 1]) && w.realVA == PageFoa(img, blocks[n - 1]) by { WalkMeans(img, v, a, n); }
    RvaCellsTell(img, blocks[r], i, w.baseRVA, w.realVA, PageAt(img, blocks[r]), PageFoa(img, blocks[r]));
    FoaCellsTell(img, blocks[r], i, w.baseRVA, w.realVA, PageAt(img, blocks[r]), PageFoa(img, blocks[r]));
  }

  lemma RvaCellsTell(img: Image, a: int, i: nat, base1: dword, foa1: dword, base2: dword, foa2: dword)
    ensures var shown, meant := BlockCells(img, a, i, base1, foa1), BlockCells(img, a, i, base2, foa2);
            (shown[1] == meant[1] <==> base1 == base2) && (shown[4] == meant[4] <==> base1 == base2)
  {
    var o := EntryAt(img, a, i).offset;
    SameSum(base1, base2, o);
    SameSum(U32(base1 + o), U32(base2 + o), img.fileBuff);
  }

  lemma FoaCellsTell(img: Image, a: int, i: nat, base1: dword, foa1: dword, base2: dword, foa2: dword)
    ensures var shown, meant := BlockCells(img, a, i, base1, foa1), BlockCells(img, a, i, base2, foa2);
            (shown[2] == meant[2] <==> foa1 == foa2) && (foa1 == foa2 ==> shown[5] == meant[5])
  {
    SameSum(foa1, foa2, EntryAt(img, a, i).offset);
  }

  lemma SameSum(x: dword, y: dword, o: dword)
    ensures U32(x + o) == U32(y + o) <==> x == y
  {
    NearDword(x + o);
    NearDword(y + o);
  }
}
