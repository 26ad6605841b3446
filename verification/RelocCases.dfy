/** Files on which the relocation view does not do what it seems meant to: one section, and directory 5 at
    its start, where a given relocation table lies. */
module RelocCases {
  import opened Words
  import opened ByteOrder
  import opened Text
  import opened Layout
  import opened ListCtrl
  import opened PeImage
  import opened Reloc
  import opened RelocFormat
  import opened RelocClicks

  // ----- The files -----

  const BASE: dword := 0x1000
  const TABLE: dword := 0x1160

  /** The file lies at address 0x1000: e_lfanew is 0x40, there is one section, the optional header has 0xE0 bytes
      and its directory 5 is RVA 0x2000; the section holds 0x2000 bytes from RVA 0x2000 and file offset 0x160. */
  predicate Headers(mem: seq<byte>) {
    && Holds(mem, Field(0x103C, StoreLE(4, 0x40)))
    && Holds(mem, Field(0x1046, StoreLE(2, 1)))
    && Holds(mem, Field(0x1054, StoreLE(2, 0xE0)))
    && Holds(mem, Field(0x10E0, StoreLE(4, 0x2000)))
    && Holds(mem, Field(0x1144, StoreLE(4, 0x2000)))
    && Holds(mem, Field(0x1148, StoreLE(4, 0x2000)))
    && Holds(mem, Field(0x114C, StoreLE(4, 0x160)))
  }

  /** The image of such a file, with a relocation table where directory 5 leads. */
  predicate IsFile(img: Image, bs: seq<BlockData>) {
    && ReadsMemory(img) && Translates(img) && HeadersDescribe(img, img.sections, img.firstHeader)
    && img.fileBuff == BASE && |img.mem| <= 0x1_0000_0000
    && Headers(img.mem) && TableAt(img.mem, TABLE, bs) && ValidTable(bs)
  }

  /** There is one for every table that fits into the address space. */
  lemma FileExists(bs: seq<BlockData>) returns (img: Image)
    requires ValidTable(bs) && |EncodeTable(bs)| <= 0xFFFF_0000
    ensures IsFile(img, bs)
  {
    var table, size := EncodeTable(bs), 0x1160 + |EncodeTable(bs)| + 8;
    var fields := Fields(table);
    FieldsFit(size, table);
    var mem := Written(size, fields);
    HeadersWritten(size, table);
    FieldWritten(size, fields, 7);
    FieldWritten(size, fields, 8);
    assert TableAt(mem, TABLE, bs);
    LoadedReadsMemory(mem, BASE, map[]);
    LoadedTranslates(mem, BASE, map[]);
    LoadedSections(mem, BASE, map[]);
    img := Load(mem, BASE, map[]);
  }

  function Fields(table: seq<byte>): seq<Field> {
    [Field(0x103C, StoreLE(4, 0x40)), Field(0x1046, StoreLE(2, 1)), Field(0x1054, StoreLE(2, 0xE0)),
     Field(0x10E0, StoreLE(4, 0x2000)), Field(0x1144, StoreLE(4, 0x2000)), Field(0x1148, StoreLE(4, 0x2000)),
     Field(0x114C, StoreLE(4, 0x160)), Field(0x1160, table), Field(0x1160 + |table| + 4, [0, 0, 0, 0])]
  }

  lemma FieldsFit(size: nat, table: seq<byte>)
    requires size == 0x1160 + |table| + 8
    ensures Fit(size, Fields(table))
  {
  }

  lemma HeadersWritten(size: nat, table: seq<byte>)
    requires size == 0x1160 + |table| + 8 && Fit(size, Fields(table))
    ensures Headers(Written(size, Fields(table)))
  {
    var fields := Fields(table);
    FieldWritten(size, fields, 0);
    FieldWritten(size, fields, 1);
    FieldWritten(size, fields, 2);
    FieldWritten(size, fields, 3);
    FieldWritten(size, fields, 4);
    FieldWritten(size, fields, 5);
    FieldWritten(size, fields, 6);
  }

  lemma DwordField(img: Image, at: nat, v: dword)
    requires ReadsMemory(img) && Holds(img.mem, Field(at, StoreLE(4, v)))
    ensures DwordAt(img, at) == v
  {
    ReadsDword(img, at, v);
  }

  lemma WordField(img: Image, at: nat, v: word)
    requires ReadsMemory(img) && Holds(img.mem, Field(at, StoreLE(2, v)))
    ensures WordAt(img, at) == v
  {
    ReadsWord(img, at, v);
  }

  predicate Describes(s: Section, virtualAddress: dword, sizeOfRawData: dword, pointerToRawData: dword) {
    s.virtualAddress == virtualAddress && s.sizeOfRawData == sizeOfRawData && s.pointerToRawData == pointerToRawData
  }

  lemma HeadersRead(img: Image)
    requires ReadsMemory(img) && img.fileBuff == BASE && Headers(img.mem)
    ensures NtHead(img) == 0x1040 && DirectoryRva(img, 5) == 0x2000 && SectionCount(img) == 1
    ensures Describes(SectionAt(img, 0), 0x2000, 0x2000, 0x160)
  {
    DwordField(img, 0x103C, 0x40);
    WordField(img, 0x1046, 1);
    WordField(img, 0x1054, 0xE0);
    DwordField(img, 0x10E0, 0x2000);
    DwordField(img, 0x1144, 0x2000);
    DwordField(img, 0x1148, 0x2000);
    DwordField(img, 0x114C, 0x160);
  }

  /** Its section translates the RVAs from 0x2000 to 0x4000 and refuses those below. */
  lemma Translations(img: Image, bs: seq<BlockData>, rva: dword)
    requires IsFile(img, bs)
    ensures 0x2000 <= rva <= 0x4000 ==> Foa(img, rva) == rva - 0x2000 + 0x160
    ensures rva < 0x2000 ==> Foa(img, rva) == 0xFFFF_FFFF
  {
    HeadersRead(img);
    OneSection(img.sections, rva);
    assert FoaLookup(img, rva) == FindFoa(img.sections, rva, 0);
  }

  lemma OneSection(secs: seq<Section>, rva: dword)
    requires |secs| == 1 && Describes(secs[0], 0x2000, 0x2000, 0x160)
    ensures 0x2000 <= rva <= 0x4000 ==> FindFoa(secs, rva, 0) == Found(rva - 0x2000 + 0x160, 0)
    ensures rva < 0x2000 ==> FindFoa(secs, rva, 0) == OutOfRange
  {
  }

  /** Directory 5 leads to the table, and the walk over it ends after its blocks and reads them back. */
  lemma FileWalk(img: Image, bs: seq<BlockData>, i: nat)
    requires IsFile(img, bs) && i < |bs|
    ensures FirstBlock(img) == TABLE && WalkEnds(img, TABLE, |bs|) && VisitsBlock(img, TABLE, bs, i)
  {
    HeadersRead(img);
    Translations(img, bs, 0x2000);
    WalkInvertsEncoding(img, TABLE, bs);
  }

  // ----- What goes wrong -----

  lemma SmallTable(bs: seq<BlockData>)
    requires |bs| == 1 || |bs| == 2
    ensures |EncodeTable(bs)| == Size(bs[0]) + if |bs| == 2 then Size(bs[1]) else 0
  {
    assert EncodeTable(bs[1..]) == if |bs| == 2 then EncodeBlock(bs[1]) + EncodeTable(bs[1..][1..]) else [];
    assert |bs| == 2 ==> bs[1..][1..] == [];
  }

  function LateHighLow(): seq<BlockData> { [BlockData(0x2000, [Entry(0, 10), Entry(8, 3)])] }

  /** A HIGHLOW entry behind one of another type is lost: its row is empty. */
  lemma LateEntryIsLost(baseRVA: dword, realVA: dword) returns (img: Image)
    ensures IsFile(img, LateHighLow())
    ensures FirstBlock(img) == TABLE && WalkEnds(img, TABLE, 1) && Count(SizeAt(img, TABLE)) == 2
    ensures BlockRows(img, TABLE, baseRVA, realVA) != AllRows(img, TABLE, 2, baseRVA, realVA)
  {
    SmallTable(LateHighLow());
    img := FileExists(LateHighLow());
    FileWalk(img, LateHighLow(), 0);
    SecondOnly(img, TABLE, baseRVA, realVA);
  }

  lemma SecondOnly(img: Image, a: int, baseRVA: dword, realVA: dword)
    requires Count(SizeAt(img, a)) == 2 && EntryAt(img, a, 0).kind != 3 && EntryAt(img, a, 1).kind == 3
    ensures BlockRows(img, a, baseRVA, realVA) != AllRows(img, a, 2, baseRVA, realVA)
  {
    assert !HighLow(img, a, 0) && HighLow(img, a, 1);
    assert Leading(img, a, 2) == 0;
    RowsAreTheEntries(img, a, baseRVA, realVA);
  }

  function TwoPages(): seq<BlockData> { [BlockData(0x2000, [Entry(8, 3)]), BlockData(0x3000, [])] }

  /** The entry at RVA 0x2008 of the first block is shown at RVA 0x3008, the same offset in the last page. */
  lemma FirstRowShowsLastPage(v: View) returns (img: Image)
    ensures IsFile(img, TwoPages())
    ensures FirstBlock(img) == TABLE && WalkEnds(img, TABLE, 2)
    ensures var blocks, w := Visited(img, TABLE, 2), AfterWalk(img, v, TABLE, |v.sections|, 2);
            && BlockCells(img, blocks[0], 0, PageAt(img, blocks[0]), PageFoa(img, blocks[0]))[1] == HexN(0x2008, 8)
            && BlockCells(img, blocks[0], 0, w.baseRVA, w.realVA)[1] == HexN(0x3008, 8)
  {
    SmallTable(TwoPages());
    img := FileExists(TwoPages());
    TwoPagesWalk(img, v);
    ShownAndMeant(img, AfterWalk(img, v, TABLE, |v.sections|, 2));
  }

  lemma ShownAndMeant(img: Image, w: View)
    requires PageAt(img, TABLE) == 0x2000 && EntryAt(img, TABLE, 0).offset == 8 && w.baseRVA == 0x3000
    ensures BlockCells(img, TABLE, 0, PageAt(img, TABLE), PageFoa(img, TABLE))[1] == HexN(0x2008, 8)
    ensures BlockCells(img, TABLE, 0, w.baseRVA, w.realVA)[1] == HexN(0x3008, 8)
  {
    RvaCell(img, TABLE, 0x2000, PageFoa(img, TABLE));
    RvaCell(img, TABLE, w.baseRVA, w.realVA);
  }

  lemma TwoPagesWalk(img: Image, v: View)
    requires IsFile(img, TwoPages())
    ensures FirstBlock(img) == TABLE && WalkEnds(img, TABLE, 2) && Visited(img, TABLE, 2)[0] == TABLE
    ensures PageAt(img, TABLE) == 0x2000 && EntryAt(img, TABLE, 0).offset == 8
    ensures AfterWalk(img, v, TABLE, |v.sections|, 2).baseRVA == 0x3000
  {
    FileWalk(img, TwoPages(), 0);
    FileWalk(img, TwoPages(), 1);
    assert EntryAt(img, TABLE, 0) == Entry(8, 3);
    var last := Visited(img, TABLE, 2)[1];
    assert PageAt(img, last) == 0x3000;
    LastBase(img, v, TABLE, 2);
  }

  lemma LastBase(img: Image, v: View, a: dword, n: nat)
    requires n > 0
    ensures AfterWalk(img, v, a, |v.sections|, n).baseRVA == PageAt(img, Visited(img, a, n)[n - 1])
  {
    WalkMeans(img, v, a, n);
  }

  lemma RvaCell(img: Image, a: int, baseRVA: dword, realVA: dword)
    requires EntryAt(img, a, 0).offset == 8
    ensures BlockCells(img, a, 0, baseRVA, realVA)[1] == HexN(U32(baseRVA + 8), 8)
  {
  }

  function BelowSections(): seq<BlockData> { [BlockData(0x1000, [Entry(0, 3)])] }

  /** A page below the first section is translated to 0xFFFFFFFF, which the click parses back as 0x7FFFFFFF: in
      the first dialog no block opens. */
  lemma PageBelowSectionsOpensNothing(v: View) returns (img: Image)
    requires v.sections == [] && v.DPMap == map[]
    ensures IsFile(img, BelowSections())
    ensures FirstBlock(img) == TABLE && WalkEnds(img, TABLE, 1) && PageFoa(img, TABLE) == 0xFFFF_FFFF
    ensures var w := AfterWalk(img, v, TABLE, 0, 1); !Opens(w.DPMap, ClickKey(w.sections, 0), TABLE)
  {
    SmallTable(BelowSections());
    img := FileExists(BelowSections());
    FileWalk(img, BelowSections(), 0);
    Translations(img, BelowSections(), 0x1000);
    ClickOpensItsBlock(img, v, TABLE, 1, 0);
  }

  function SamePage(): seq<BlockData> { [BlockData(0x2000, []), BlockData(0x2000, [])] }

  /** Of two blocks for one page, a click on the first row does not open the first. */
  lemma SamePageOpensTheLater(v: View) returns (img: Image)
    requires v.sections == []
    ensures IsFile(img, SamePage())
    ensures FirstBlock(img) == TABLE && WalkEnds(img, TABLE, 2)
    ensures var w := AfterWalk(img, v, TABLE, 0, 2);
            !Opens(w.DPMap, ClickKey(w.sections, 0), Visited(img, TABLE, 2)[0])
  {
    SmallTable(SamePage());
    img := FileExists(SamePage());
    FileWalk(img, SamePage(), 0);
    FileWalk(img, SamePage(), 1);
    Translations(img, SamePage(), 0x2000);
    ClickOpensItsBlock(img, v, TABLE, 2, 0);
    assert PageFoa(img, Visited(img, TABLE, 2)[1]) == 0x160;
  }
}
