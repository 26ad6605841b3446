/** The base relocation view (CRelocDialog.cpp): the walk over the blocks, the map from page offset to
    block, and the rows of a clicked block. The format is the section "The .reloc Section" of the
    Microsoft PE/COFF specification. */
module Reloc {
  import opened Words
  import opened Text
  import opened ListCtrl
  import opened PeImage

  // ----- A block in memory -----

  function PageAt(img: Image, a: int): dword { DwordAt(img, a) }

  function SizeAt(img: Image, a: int): dword { DwordAt(img, a + 4) }

  function Count(size: dword): dword { U32(size - 8) / 2 }

  function NextBlock(img: Image, a: dword): dword { U32(a + SizeAt(img, a)) }

  /** Directory 5 of the optional header leads to the first block. */
  function FirstBlock(img: Image): dword { U32(Foa(img, DirectoryRva(img, 5)) + img.fileBuff) }

  /** A 16-bit entry: a 12-bit offset below a 4-bit type. */
  datatype Entry = Entry(offset: nat, kind: nat)

  function Decode(w: word): Entry { Entry(w % 0x1000, w / 0x1000) }

  function EntryAt(img: Image, a: int, i: nat): Entry { Decode(WordAt(img, a + 8 + 2 * i)) }

  /** The walk from a meets a zero size after exactly n blocks. On any other memory the source's loop
      does not end. */
  predicate WalkEnds(img: Image, a: dword, n: nat)
    decreases n
  {
    if n == 0 then SizeAt(img, a) == 0 else SizeAt(img, a) != 0 && WalkEnds(img, NextBlock(img, a), n - 1)
  }

  function Visited(img: Image, a: dword, n: nat): (blocks: seq<dword>)
    ensures |blocks| == n
    decreases n
  {
    if n == 0 then [] else [a] + Visited(img, NextBlock(img, a), n - 1)
  }

  // ----- What the walk leaves behind -----

  function PageFoa(img: Image, a: dword): dword { Foa(img, PageAt(img, a)) }

  function SectionCells(img: Image, a: dword, index: nat, name: string): seq<Cell> {
    [DecN(index + 1), Txt(name), HexN(PageFoa(img, a), 8), Both(Count(SizeAt(img, a)))]
  }

  /** The globals of the file, which outlive the dialog, and the section list. */
  datatype View = View(
    baseRVA: dword, baseVA: dword, realVA: dword, sectionName: string, DPMap: map<dword, dword>, sections: seq<Item>)

  /** One turn of the walk, at block a. */
  function AfterBlock(img: Image, v: View, a: dword, index: nat): View {
    var foa, name := PageFoa(img, a), NameAfter(img, FoaLookup(img, PageAt(img, a)), v.sectionName);
    View(PageAt(img, a), U32(PageAt(img, a) + img.fileBuff), foa, name, v.DPMap[foa := a],
         Placed(v.sections, index, SectionCells(img, a, index, name)))
  }

  function AfterWalk(img: Image, v: View, a: dword, index: nat, n: nat): View
    decreases n
  {
    if n == 0 then v else AfterWalk(img, AfterBlock(img, v, a, index), NextBlock(img, a), index + 1, n - 1)
  }

  // The same, in terms of the list of blocks visited.

  /** A page that lies in no section shows the name of the section found before. */
  function NameOf(img: Image, blocks: seq<dword>, before: string): string {
    if blocks == [] then before
    else NameOf(img, blocks[1..], NameAfter(img, FoaLookup(img, PageAt(img, blocks[0])), before))
  }

  function SectionRows(img: Image, blocks: seq<dword>, index: nat, before: string): (rows: seq<Item>)
    ensures |rows| == |blocks|
  {
    if blocks == [] then []
    else var name := NameAfter(img, FoaLookup(img, PageAt(img, blocks[0])), before);
         [Row(SectionCells(img, blocks[0], index, name))] + SectionRows(img, blocks[1..], index + 1, name)
  }

  function PageMap(img: Image, blocks: seq<dword>, before: map<dword, dword>): map<dword, dword> {
    if blocks == [] then before else PageMap(img, blocks[1..], before[PageFoa(img, blocks[0]) := blocks[0]])
  }

  /** The walk lists exactly the blocks it visits, in order; it maps their page offsets; and it leaves the
      globals at the last of them. */
  lemma {:induction false} WalkMeans(img: Image, v: View, a: dword, n: nat)
    ensures var blocks, w := Visited(img, a, n), AfterWalk(img, v, a, |v.sections|, n);
            && w.sections == v.sections + SectionRows(img, blocks, |v.sections|, v.sectionName)
            && w.sectionName == NameOf(img, blocks, v.sectionName) && w.DPMap == PageMap(img, blocks, v.DPMap)
            && (n == 0 ==> w == v)
            && (n > 0 ==> w.baseRVA == PageAt(img, blocks[n - 1]) && w.realVA == PageFoa(img, blocks[n - 1])
                          && w.baseVA == U32(w.baseRVA + img.fileBuff))
    decreases n
  {
    if n == 0 {
    } else {
      WalkMeans(img, AfterBlock(img, v, a, |v.sections|), NextBlock(img, a), n - 1);
      assert Visited(img, a, n)[1..] == Visited(img, NextBlock(img, a), n - 1);
    }
  }

  // ----- The rows of one block -----

  predicate HighLow(img: Image, a: int, i: nat) { EntryAt(img, a, i).kind == 3 }

  function BlockCells(img: Image, a: int, i: nat, baseRVA: dword, realVA: dword): (cells: seq<Cell>)
    ensures |cells| == 6
  {
    var o := EntryAt(img, a, i).offset;
    var realRVA, realFOA := U32(baseRVA + o), U32(realVA + o);
    [DecN(i + 1), HexN(realRVA, 8), HexN(realFOA, 8), Txt("HIGHLOW(3)"), HexN(U32(realRVA + img.fileBuff), 8),
     HexN(DwordAt(img, U32(realFOA + img.fileBuff)), 8)]
  }

  /** How many entries at the front of the block are HIGHLOW. */
  function Leading(img: Image, a: int, count: nat): (p: nat)
    ensures p <= count
    ensures forall i :: 0 <= i < p ==> HighLow(img, a, i)
    ensures p < count ==> !HighLow(img, a, p)
  {
    if count == 0 then 0
    else var p := Leading(img, a, count - 1);
         if p == count - 1 && HighLow(img, a, count - 1) then count else p
  }

  function HighLows(img: Image, a: int, from: nat, count: nat): (n: nat)
    requires from <= count
    ensures n == 0 <==> forall i :: from <= i < count ==> !HighLow(img, a, i)
  {
    if from == count then 0
    else HighLows(img, a, from, count - 1) + if HighLow(img, a, count - 1) then 1 else 0
  }

  lemma {:induction false} HighLowsBound(img: Image, a: int, from: nat, count: nat)
    requires from < count && !HighLow(img, a, from)
    ensures HighLows(img, a, from, count) < count - from
    decreases count
  {
    if from == count - 1 {
    } else {
      HighLowsBound(img, a, from, count - 1);
    }
  }

  function FilledRows(img: Image, a: int, n: nat, baseRVA: dword, realVA: dword): (rows: seq<Item>)
    ensures |rows| == n
    ensures forall i :: 0 <= i < n ==> rows[i] == Row(BlockCells(img, a, i, baseRVA, realVA))
  {
    if n == 0 then [] else FilledRows(img, a, n - 1, baseRVA, realVA) + [Row(BlockCells(img, a, n - 1, baseRVA, realVA))]
  }

  function BlankRows(n: nat): (rows: seq<Item>)
    ensures |rows| == n && forall i :: 0 <= i < n ==> rows[i] == Blank(6)
  {
    if n == 0 then [] else BlankRows(n - 1) + [Blank(6)]
  }

  /** What the first count entries of a block become: those before the first entry of another type are
      shown with their texts; each later HIGHLOW entry only adds an empty row. */
  function RowsUpTo(img: Image, a: int, count: nat, baseRVA: dword, realVA: dword): seq<Item> {
    var p := Leading(img, a, count);
    FilledRows(img, a, p, baseRVA, realVA) + BlankRows(HighLows(img, a, p, count))
  }

  function BlockRows(img: Image, a: int, baseRVA: dword, realVA: dword): seq<Item> {
    RowsUpTo(img, a, Count(SizeAt(img, a)), baseRVA, realVA)
  }

  // One turn of the loop, at entry i.
  function BlockTurn(img: Image, a: int, i: nat, baseRVA: dword, realVA: dword, rows: seq<Item>): seq<Item> {
    if HighLow(img, a, i) then Placed(rows, i, BlockCells(img, a, i, baseRVA, realVA)) else rows
  }

  lemma RowsStep(img: Image, a: int, i: nat, baseRVA: dword, realVA: dword)
    ensures RowsUpTo(img, a, i + 1, baseRVA, realVA)
            == BlockTurn(img, a, i, baseRVA, realVA, RowsUpTo(img, a, i, baseRVA, realVA))
  {
    var p := Leading(img, a, i);
    if p < i {
      HighLowsBound(img, a, p, i);
    }
  }

  // The loop, entry by entry.
  function BlockLoop(img: Image, a: int, i: nat, baseRVA: dword, realVA: dword): seq<Item> {
    if i == 0 then [] else BlockTurn(img, a, i - 1, baseRVA, realVA, BlockLoop(img, a, i - 1, baseRVA, realVA))
  }

  lemma {:induction false} BlockLoopMeans(img: Image, a: int, i: nat, baseRVA: dword, realVA: dword)
    ensures BlockLoop(img, a, i, baseRVA, realVA) == RowsUpTo(img, a, i, baseRVA, realVA)
    decreases i
  {
    if i == 0 {
    } else {
      BlockLoopMeans(img, a, i - 1, baseRVA, realVA);
      RowsStep(img, a, i - 1, baseRVA, realVA);
    }
  }

  // ----- What a click finds -----

  function ClickKey(sections: seq<Item>, nRow: int): dword { U32(Strtol(GetItemText(sections, nRow, 2), 16)) }

  class RelocDialog {
    // Globals of the file.
    var baseRVA: dword
    var baseVA: dword
    var realVA: dword
    var sectionName: string
    var DPMap: map<dword, dword>
    // Members.
    var objSectionList: seq<Item>
    var objBlockList: seq<Item>

    constructor ()
      ensures baseRVA == baseVA == realVA == 0 && sectionName == "" && DPMap == map[]
      ensures objSectionList == objBlockList == []
    {
      baseRVA, baseVA, realVA, sectionName := 0, 0, 0, "";
      DPMap, objSectionList, objBlockList := map[], [], [];
    }

    ghost function Globals(): View
      reads this
    {
      View(baseRVA, baseVA, realVA, sectionName, DPMap, objSectionList)
    }

    // The body of the walk's loop.
    method ShowSection(img: Image, reloc: dword, relocIndex: nat)
      modifies this`baseRVA, this`baseVA, this`realVA, this`sectionName, this`DPMap, this`objSectionList
      ensures Globals() == AfterBlock(img, old(Globals()), reloc, relocIndex)
    {
      baseRVA := PageAt(img, reloc);
      baseVA := U32(baseRVA + img.fileBuff);
      realVA, sectionName := Foa(img, baseRVA), NameAfter(img, FoaLookup(img, baseRVA), sectionName);
      DPMap := DPMap[realVA := reloc];
      var count := Count(SizeAt(img, reloc));
      objSectionList := PutRow(objSectionList, relocIndex,
        [DecN(relocIndex + 1), Txt(sectionName), HexN(realVA, 8), Both(count)]);
    }

    method GetRelocTableInfo(img: Image, ghost n: nat)
      requires WalkEnds(img, FirstBlock(img), n)
      modifies this`baseRVA, this`baseVA, this`realVA, this`sectionName, this`DPMap, this`objSectionList
      ensures var v := old(Globals());
              Globals() == AfterWalk(img, v.(sectionName := NameAfter(img, FoaLookup(img, DirectoryRva(img, 5)), v.sectionName)),
                                     FirstBlock(img), 0, n)
    {
      var relocTableFOA := Foa(img, DirectoryRva(img, 5));
      sectionName := NameAfter(img, FoaLookup(img, DirectoryRva(img, 5)), sectionName);
      var reloc, relocIndex := U32(relocTableFOA + img.fileBuff), 0;
      ghost var all, left := AfterWalk(img, Globals(), reloc, 0, n), n;
      while SizeAt(img, reloc) != 0
        invariant WalkEnds(img, reloc, left) && AfterWalk(img, Globals(), reloc, relocIndex, left) == all
        decreases left
      {
        ShowSection(img, reloc, relocIndex);
        reloc := NextBlock(img, reloc);
        relocIndex := relocIndex + 1;
        left := left - 1;
      }
    }

    /** The rows of a block: its leading HIGHLOW entries, and an empty row for each later one. */
    method GetBlocksInfo(img: Image, reloc: int)
      requires objBlockList == []
      modifies this`objBlockList
      ensures objBlockList == BlockRows(img, reloc, baseRVA, realVA)
    {
      var count := Count(SizeAt(img, reloc));
      var i := 0;
      while i < count
        invariant 0 <= i <= count && objBlockList == BlockLoop(img, reloc, i, baseRVA, realVA)
      {
        var entry := EntryAt(img, reloc, i);
        if entry.kind == 3 {
          var realRVA := U32(baseRVA + entry.offset);
          var realFOA := U32(realVA + entry.offset);
          objBlockList := PutRow(objBlockList, i,
            [DecN(i + 1), HexN(realRVA, 8), HexN(realFOA, 8), Txt("HIGHLOW(3)"), HexN(U32(realRVA + img.fileBuff), 8),
             HexN(DwordAt(img, U32(realFOA + img.fileBuff)), 8)]);
        }
        i := i + 1;
      }
      BlockLoopMeans(img, reloc, count, baseRVA, realVA);
    }

    /** A click on row nRow: the RVA cell is parsed, DPMap is asked for it, which adds a null entry for a
        missing key, and the block found is shown. Through a null pointer nothing can be shown. */
    method OnClickList1(img: Image, nRow: int) returns (shown: bool)
      modifies this`DPMap, this`objBlockList
      ensures var key := ClickKey(objSectionList, nRow);
              var reloc := if key in old(DPMap) then old(DPMap)[key] else 0;
              && DPMap == old(DPMap)[key := reloc]
              && shown == (reloc != 0)
              && (shown ==> objBlockList == BlockRows(img, reloc, baseRVA, realVA))
              && (!shown ==> objBlockList == [])
    {
      var strRVA := GetItemText(objSectionList, nRow, 2);
      var dwRVA := U32(Strtol(strRVA, 16));
      if dwRVA !in DPMap {
        DPMap := DPMap[dwRVA := 0];
      }
      var curReloc := DPMap[dwRVA];
      objBlockList := [];
      shown := curReloc != 0;
      if shown {
        GetBlocksInfo(img, curReloc);
      }
    }
  }
}
