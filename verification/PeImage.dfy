/** A PE file read into memory, and the two address translations over its section table
    (GlobalVals.cpp). Layouts follow the Microsoft PE/COFF specification, sections "MS-DOS Stub",
    "COFF File Header", "Optional Header Data Directories" and "Section Table". */
module PeImage {
  import opened Words
  import opened ByteOrder

  datatype Section = Section(virtualAddress: dword, sizeOfRawData: dword, pointerToRawData: dword, name: string)

  /** How a translation ends: found in section index, refused with a message box and -1, or off the end of
      the function. */
  datatype Lookup = Found(address: dword, index: nat) | OutOfRange | NoReturn

  /** The process memory with the file read in at address fileBuff: its bytes, and the DWORD and the WORD
      that a pointer to each address reads. Then the section table, the header slot at which it starts,
      which foaTorva reads even when the table is empty, the translation of every RVA, and the values that a
      call of rvaTofoa or foaTorva leaves behind when it ends without a return statement, by its argument. */
  datatype Image = Image(
    mem: seq<byte>,
    dwords: map<int, dword>,
    words: map<int, word>,
    fileBuff: dword,
    sections: seq<Section>,
    firstHeader: Section,
    lookups: map<int, Lookup>,
    stray: map<dword, dword>)

  /** The image of a memory: little-endian fields at any alignment, the section table its headers describe,
      and the translations over that table. The memory and the stray values are arbitrary. */
  function Load(mem: seq<byte>, fileBuff: dword, stray: map<dword, dword>): Image {
    var raw := Unparsed(mem, fileBuff, stray);
    var sections := seq(SectionCount(raw), i requires i >= 0 => SectionAt(raw, i));
    raw.(sections := sections, firstHeader := SectionAt(raw, 0),
         lookups := map rva | 0 <= rva < 0x1_0000_0000 :: FindFoa(sections, rva, 0))
  }

  // Before the section table is looked at.
  function Unparsed(mem: seq<byte>, fileBuff: dword, stray: map<dword, dword>): Image {
    var dwords := map a | 0 <= a <= |mem| - 4 :: DwordOf(mem, a);
    var words := map a | 0 <= a <= |mem| - 2 :: WordOf(mem, a);
    Image(mem, dwords, words, fileBuff, [], Section(0, 0, 0, ""), map[], stray)
  }

  function DwordOf(mem: seq<byte>, a: int): dword
    requires 0 <= a <= |mem| - 4
  {
    LoadBound(mem[a..a + 4]);
    PowUnrolled();
    LoadLE(mem[a..a + 4])
  }

  function WordOf(mem: seq<byte>, a: int): word
    requires 0 <= a <= |mem| - 2
  {
    LoadBound(mem[a..a + 2]);
    PowUnrolled();
    LoadLE(mem[a..a + 2])
  }

  // Reads through a pointer; past the end of the address space they give 0.
  function DwordAt(img: Image, address: int): dword { if address in img.dwords then img.dwords[address] else 0 }

  function WordAt(img: Image, address: int): word { if address in img.words then img.words[address] else 0 }

  /** Inside the memory a read is the little-endian field of its bytes. */
  predicate ReadsMemory(img: Image) {
    && (forall a :: 0 <= a <= |img.mem| - 4 ==> DwordAt(img, a) == DwordOf(img.mem, a))
    && (forall a :: 0 <= a <= |img.mem| - 2 ==> WordAt(img, a) == WordOf(img.mem, a))
  }

  lemma LoadedReadsMemory(mem: seq<byte>, fileBuff: dword, stray: map<dword, dword>)
    ensures ReadsMemory(Load(mem, fileBuff, stray))
  {
  }

  /** The text behind a char pointer: up to the terminating zero. */
  function TextAt(img: Image, address: nat): string
    decreases |img.mem| - address
  {
    if address >= |img.mem| || img.mem[address] == 0 then ""
    else [img.mem[address] as char] + TextAt(img, address + 1)
  }

  /** The text behind a WCHAR pointer, in 16-bit units that are not surrogates. */
  function WideTextAt(img: Image, address: nat): string
    decreases |img.mem| - address
  {
    var unit := WordAt(img, address);
    if address >= |img.mem| || unit == 0 then ""
    else [if 0xD800 <= unit < 0xE000 then '?' else unit as char] + WideTextAt(img, address + 2)
  }

  // ----- Headers -----

  function NtHead(img: Image): dword { U32(DwordAt(img, img.fileBuff + 0x3C) + img.fileBuff) }

  function DirectoryRva(img: Image, index: nat): dword { DwordAt(img, NtHead(img) + 24 + 96 + 8 * index) }

  function SectionCount(img: Image): word { WordAt(img, NtHead(img) + 6) }

  function SectionAt(img: Image, i: nat): Section {
    var head := NtHead(img) + 24 + WordAt(img, NtHead(img) + 20) + 40 * i;
    Section(DwordAt(img, head + 12), DwordAt(img, head + 16), DwordAt(img, head + 20), TextAt(img, head))
  }

  // ----- The translations -----

  /** The end of the raw data, in memory; the source compares against it inclusively, both ways. */
  function LastAddress(s: Section): dword { U32(s.virtualAddress + s.sizeOfRawData) }

  predicate HoldsRva(s: Section, rva: dword) { s.virtualAddress <= rva <= LastAddress(s) }

  predicate ClaimsFoa(s: Section, foa: dword) { s.pointerToRawData <= foa <= LastAddress(s) }

  function ToFoa(s: Section, rva: dword): dword { U32(rva - s.virtualAddress + s.pointerToRawData) }

  function ToRva(s: Section, foa: dword): dword { U32(foa - s.pointerToRawData + s.virtualAddress) }

  function FindFoa(secs: seq<Section>, rva: dword, i: nat): Lookup
    decreases |secs| - i
  {
    if i >= |secs| then NoReturn
    else if rva < secs[i].virtualAddress then OutOfRange
    else if HoldsRva(secs[i], rva) then Found(ToFoa(secs[i], rva), i)
    else FindFoa(secs, rva, i + 1)
  }

  function FindRva(secs: seq<Section>, foa: dword, i: nat): Lookup
    decreases |secs| - i
  {
    if i >= |secs| then NoReturn
    else if ClaimsFoa(secs[i], foa) then Found(ToRva(secs[i], foa), i)
    else FindRva(secs, foa, i + 1)
  }

  function Result(img: Image, l: Lookup, asked: dword): dword {
    match l
    case Found(a, _) => a
    case OutOfRange => 0xFFFF_FFFF
    case NoReturn => if asked in img.stray then img.stray[asked] else 0
  }

  function FoaLookup(img: Image, rva: dword): Lookup { if rva in img.lookups then img.lookups[rva] else NoReturn }

  /** The translations of an image are those over its section table. */
  predicate Translates(img: Image) {
    && (forall rva: dword :: FoaLookup(img, rva) == FindFoa(img.sections, rva, 0))
    && (img.sections != [] ==> img.firstHeader == img.sections[0])
  }

  lemma LoadedTranslates(mem: seq<byte>, fileBuff: dword, stray: map<dword, dword>)
    ensures Translates(Load(mem, fileBuff, stray))
  {
  }

  /** And its section table is the one the headers of that memory describe. */
  lemma LoadedSections(mem: seq<byte>, fileBuff: dword, stray: map<dword, dword>)
    ensures var img := Load(mem, fileBuff, stray); HeadersDescribe(img, img.sections, img.firstHeader)
  {
    var raw, img := Unparsed(mem, fileBuff, stray), Load(mem, fileBuff, stray);
    SameReads(raw, img, img.sections, img.firstHeader);
  }

  predicate HeadersDescribe(img: Image, secs: seq<Section>, first: Section) {
    && |secs| == SectionCount(img) && first == SectionAt(img, 0)
    && forall i :: 0 <= i < |secs| ==> secs[i] == SectionAt(img, i)
  }

  lemma SameReads(raw: Image, img: Image, secs: seq<Section>, first: Section)
    requires raw.mem == img.mem && raw.dwords == img.dwords && raw.words == img.words && raw.fileBuff == img.fileBuff
    requires HeadersDescribe(raw, secs, first)
    ensures HeadersDescribe(img, secs, first)
  {
    SameSection(raw, img, 0);
    forall i | 0 <= i < |secs| ensures secs[i] == SectionAt(img, i) {
      SameSection(raw, img, i);
    }
    assert NtHead(raw) == NtHead(img);
  }

  lemma SameSection(raw: Image, img: Image, i: nat)
    requires raw.mem == img.mem && raw.dwords == img.dwords && raw.words == img.words && raw.fileBuff == img.fileBuff
    ensures SectionAt(raw, i) == SectionAt(img, i)
  {
    assert NtHead(raw) == NtHead(img);
    var head := NtHead(img) + 24 + WordAt(img, NtHead(img) + 20) + 40 * i;
    SameText(raw, img, head);
  }

  lemma {:induction false} SameText(raw: Image, img: Image, a: nat)
    requires raw.mem == img.mem
    ensures TextAt(raw, a) == TextAt(img, a)
    decreases |img.mem| - a
  {
    if a >= |img.mem| || img.mem[a] == 0 {
    } else {
      SameText(raw, img, a + 1);
    }
  }

  // The first section header is read even when there is none.
  function RvaLookup(img: Image, foa: dword): Lookup {
    if foa < img.firstHeader.pointerToRawData then OutOfRange else FindRva(img.sections, foa, 0)
  }

  function Foa(img: Image, rva: dword): dword { Result(img, FoaLookup(img, rva), rva) }

  /** The global sectionName keeps its value unless a section is found. */
  function NameAfter(img: Image, l: Lookup, before: string): string {
    if l.Found? && l.index < |img.sections| then img.sections[l.index].name else before
  }

  method ScanForRva(secs: seq<Section>, rva: dword) returns (l: Lookup)
    ensures l == FindFoa(secs, rva, 0)
  {
    var i := 0;
    while i < |secs|
      invariant 0 <= i <= |secs| && FindFoa(secs, rva, i) == FindFoa(secs, rva, 0)
    {
      var secHead := secs[i];
      if rva < secHead.virtualAddress {
        return OutOfRange;
      }
      if rva >= secHead.virtualAddress && rva <= U32(secHead.virtualAddress + secHead.sizeOfRawData) {
        return Found(U32(rva - secHead.virtualAddress + secHead.pointerToRawData), i);
      }
      i := i + 1;
    }
    return NoReturn;
  }

  method ScanForFoa(secs: seq<Section>, foa: dword) returns (l: Lookup)
    ensures l == FindRva(secs, foa, 0)
  {
    var i := 0;
    while i < |secs|
      invariant 0 <= i <= |secs| && FindRva(secs, foa, i) == FindRva(secs, foa, 0)
    {
      var secHead := secs[i];
      if foa >= secHead.pointerToRawData && foa <= U32(secHead.virtualAddress + secHead.sizeOfRawData) {
        return Found(U32(foa - secHead.pointerToRawData + secHead.virtualAddress), i);
      }
      i := i + 1;
    }
    return NoReturn;
  }

  method RvaTofoa(img: Image, rva: dword, name: string) returns (foa: dword, sectionName: string)
    requires Translates(img)
    ensures foa == Foa(img, rva) && sectionName == NameAfter(img, FoaLookup(img, rva), name)
  {
    var l := ScanForRva(img.sections, rva);
    return Result(img, l, rva), NameAfter(img, l, name);
  }

  method FoaTorva(img: Image, foa: dword, name: string) returns (rva: dword, sectionName: string)
    ensures rva == Result(img, RvaLookup(img, foa), foa) && sectionName == NameAfter(img, RvaLookup(img, foa), name)
  {
    if foa < img.firstHeader.pointerToRawData {
      return 0xFFFF_FFFF, name;
    }
    var l := ScanForFoa(img.sections, foa);
    return Result(img, l, foa), NameAfter(img, l, name);
  }

  // ----- What they mean on a table laid out as a linker does -----

  function Shift(s: Section): int { s.virtualAddress - s.pointerToRawData }

  /** No 32-bit overflow; sections in address order, no closer together in memory than in the file. */
  predicate LaidOut(secs: seq<Section>) {
    && (forall i :: 0 <= i < |secs| ==>
          secs[i].virtualAddress + secs[i].sizeOfRawData < 0x1_0000_0000 && 0 <= Shift(secs[i]))
    && (forall i, j :: 0 <= i < j < |secs| ==>
          secs[i].virtualAddress + secs[i].sizeOfRawData <= secs[j].virtualAddress
          && secs[i].pointerToRawData <= secs[j].pointerToRawData
          && Shift(secs[i]) <= Shift(secs[j]))
  }

  /** The first section, from i on, whose raw data reaches an address. */
  predicate FirstReaching(secs: seq<Section>, address: dword, i: nat, k: nat) {
    && i <= k < |secs| && address <= secs[k].virtualAddress + secs[k].sizeOfRawData
    && forall j :: i <= j < k ==> secs[j].virtualAddress + secs[j].sizeOfRawData < address
  }

  predicate NoWrap(s: Section) { s.virtualAddress + s.sizeOfRawData < 0x1_0000_0000 }

  /** An RVA is translated exactly when the first section that reaches it also starts at or before it, and
      then to the same distance into that section's raw data. */
  lemma {:induction false} FoaMeans(secs: seq<Section>, rva: dword, i: nat, k: nat)
    requires forall j :: 0 <= j < |secs| ==> NoWrap(secs[j])
    requires i <= |secs| && k < |secs|
    ensures FindFoa(secs, rva, i) == Found(ToFoa(secs[k], rva), k)
            <==> FirstReaching(secs, rva, i, k) && secs[k].virtualAddress <= rva
    ensures HoldsRva(secs[k], rva) && secs[k].pointerToRawData + (rva - secs[k].virtualAddress) < 0x1_0000_0000
            ==> ToFoa(secs[k], rva) == secs[k].pointerToRawData + (rva - secs[k].virtualAddress)
    decreases |secs| - i
  {
    if i < |secs| && !HoldsRva(secs[i], rva) && rva >= secs[i].virtualAddress {
      FoaMeans(secs, rva, i + 1, k);
    }
  }

  /** What rvaTofoa returns, and the section name it leaves: section k decides if all before it end below the
      RVA and it does not. */
  lemma TranslationMeans(img: Image, rva: dword, k: nat, name: string)
    requires Translates(img) && forall j :: 0 <= j < |img.sections| ==> NoWrap(img.sections[j])
    requires FirstReaching(img.sections, rva, 0, k)
             || (k < |img.sections| && rva < img.sections[k].virtualAddress
                 && forall j :: 0 <= j < k ==> img.sections[j].virtualAddress + img.sections[j].sizeOfRawData < rva)
    ensures var s := img.sections[k];
            if s.virtualAddress <= rva
            then Foa(img, rva) == (s.pointerToRawData + rva - s.virtualAddress) % 0x1_0000_0000
                 && NameAfter(img, FoaLookup(img, rva), name) == s.name
            else Foa(img, rva) == 0xFFFF_FFFF && NameAfter(img, FoaLookup(img, rva), name) == name
  {
    FindFrom(img.sections, rva, 0, k);
  }

  lemma {:induction false} FindFrom(secs: seq<Section>, rva: dword, i: nat, k: nat)
    requires forall j :: 0 <= j < |secs| ==> NoWrap(secs[j])
    requires i <= k < |secs| && forall j :: i <= j < k ==> secs[j].virtualAddress + secs[j].sizeOfRawData < rva
    requires rva <= secs[k].virtualAddress + secs[k].sizeOfRawData
    ensures FindFoa(secs, rva, i) == if secs[k].virtualAddress <= rva then Found(ToFoa(secs[k], rva), k) else OutOfRange
    decreases k - i
  {
    if i == k {
    } else {
      FindFrom(secs, rva, i + 1, k);
    }
  }

  /** What foaTorva returns, and the section name it leaves: an offset below the first header's raw data is
      refused, and otherwise the first section decides that starts in the file at or before the offset and ends
      in memory at or behind it. */
  lemma BackMeans(img: Image, foa: dword, k: nat, name: string)
    requires Translates(img) && k < |img.sections| && forall j :: 0 <= j < |img.sections| ==> NoWrap(img.sections[j])
    requires var s := img.sections[k]; s.pointerToRawData <= foa <= s.virtualAddress + s.sizeOfRawData
    requires forall j :: 0 <= j < k ==>
               var s := img.sections[j]; foa < s.pointerToRawData || s.virtualAddress + s.sizeOfRawData < foa
    ensures var s, l := img.sections[k], RvaLookup(img, foa);
            if img.sections[0].pointerToRawData <= foa
            then Result(img, l, foa) == (s.virtualAddress + foa - s.pointerToRawData) % 0x1_0000_0000
                 && NameAfter(img, l, name) == s.name
            else Result(img, l, foa) == 0xFFFF_FFFF && NameAfter(img, l, name) == name
  {
    FirstClaim(img.sections, foa, 0, k);
  }

  lemma {:induction false} FoundHolds(secs: seq<Section>, rva: dword, i: nat)
    requires i <= |secs| && FindFoa(secs, rva, i).Found?
    ensures var k := FindFoa(secs, rva, i).index;
            i <= k < |secs| && HoldsRva(secs[k], rva) && FindFoa(secs, rva, i).address == ToFoa(secs[k], rva)
    decreases |secs| - i
  {
    if i < |secs| && !HoldsRva(secs[i], rva) {
      FoundHolds(secs, rva, i + 1);
    }
  }

  lemma {:induction false} FirstClaim(secs: seq<Section>, foa: dword, i: nat, k: nat)
    requires i <= k < |secs| && ClaimsFoa(secs[k], foa)
    ensures var l := FindRva(secs, foa, i);
            && l.Found? && i <= l.index <= k && ClaimsFoa(secs[l.index], foa) && l.address == ToRva(secs[l.index], foa)
            && forall j :: i <= j < l.index ==> !ClaimsFoa(secs[j], foa)
    decreases |secs| - i
  {
    if !ClaimsFoa(secs[i], foa) {
      FirstClaim(secs, foa, i + 1, k);
    }
  }

  lemma SameShift(rva: dword, a: int, b: int)
    ensures U32(rva - a + b) == rva <==> U32(a) == U32(b)
  {
    var m := 0x1_0000_0000;
    assert a == m * (a / m) + a % m && b == m * (b / m) + b % m;
    if U32(a) == U32(b) {
      ModUnique(rva - a + b, m, b / m - a / m, rva);
    }
    if U32(rva - a + b) == rva {
      var q := (rva - a + b) / m;
      assert rva - a + b == m * q + rva;
      ModUnique(b, m, a / m + q, a % m);
    }
  }

  /** Section c is the first that the way back takes the offset for its own. */
  predicate ClaimsFirst(secs: seq<Section>, foa: dword, c: int) {
    0 <= c < |secs| && ClaimsFoa(secs[c], foa) && forall j :: 0 <= j < c ==> !ClaimsFoa(secs[j], foa)
  }

  // The scan of foaTorva alone, on any section table.
  lemma ScanBack(secs: seq<Section>, rva: dword, foa: dword, k: nat)
    requires FindFoa(secs, rva, 0) == Found(foa, k)
    ensures k < |secs|
    ensures var back := FindRva(secs, foa, 0);
            back.Found? && back.address == rva
            <==> exists c :: ClaimsFirst(secs, foa, c) && U32(Shift(secs[c])) == U32(Shift(secs[k]))
  {
    FoundHolds(secs, rva, 0);
    if claiming :| 0 <= claiming < |secs| && ClaimsFoa(secs[claiming], foa) {
      FirstClaim(secs, foa, 0, claiming);
      var first := FindRva(secs, foa, 0).index;
      assert ClaimsFirst(secs, foa, first);
      AddWrapped(rva - Shift(secs[k]), Shift(secs[first]));
      SameShift(rva, Shift(secs[k]), Shift(secs[first]));
    } else {
      NoClaim(secs, foa, 0);
    }
  }

  /** rvaTofoa and foaTorva on any file, its sections in any order, overlapping or wrapping: an RVA that is
      translated comes back exactly when its offset is not below the first header's raw data, where the way
      back refuses it, and the first section to claim the offset is shifted, modulo 2^32, by the amount by
      which the RVA was translated. */
  lemma RoundTripInGeneral(img: Image, rva: dword)
    requires Translates(img) && FoaLookup(img, rva).Found?
    ensures var secs, found := img.sections, FoaLookup(img, rva);
            var back := RvaLookup(img, found.address);
            && found.index < |secs|
            && (back.Found? && back.address == rva
                <==> && secs[0].pointerToRawData <= found.address
                     && exists c :: ClaimsFirst(secs, found.address, c)
                                    && U32(Shift(secs[c])) == U32(Shift(secs[found.index])))
  {
    var found := FoaLookup(img, rva);
    ScanBack(img.sections, rva, found.address, found.index);
  }

  lemma {:induction false} NoClaim(secs: seq<Section>, foa: dword, i: nat)
    requires i <= |secs| && forall j :: i <= j < |secs| ==> !ClaimsFoa(secs[j], foa)
    ensures FindRva(secs, foa, i) == NoReturn
    decreases |secs| - i
  {
    if i == |secs| {
    } else {
      NoClaim(secs, foa, i + 1);
    }
  }

  /** What of that order counts for a translation by section k: the sections up to it. */
  predicate OrderedUpTo(secs: seq<Section>, k: nat) {
    && (forall i :: 0 <= i < |secs| && i <= k ==> NoWrap(secs[i]) && 0 <= Shift(secs[i]))
    && (forall i, j :: 0 <= i < j < |secs| && j <= k ==>
          secs[i].pointerToRawData <= secs[j].pointerToRawData && Shift(secs[i]) <= Shift(secs[j]))
  }

  /** In that order the condition is one on the earlier sections only. Going back scans for the first section
      whose end in MEMORY is not below the FILE offset; so it ends at the RVA exactly when every earlier
      section that reaches up to the offset in that sense is shifted by the same amount. */
  lemma RoundTripExactly(secs: seq<Section>, rva: dword, foa: dword, k: nat)
    requires FindFoa(secs, rva, 0) == Found(foa, k) && OrderedUpTo(secs, k)
    ensures k < |secs|
    ensures var back := FindRva(secs, foa, 0);
            && secs[0].pointerToRawData <= foa && back.Found?
            && (back.address == rva
                <==> forall j :: 0 <= j < k && foa <= secs[j].virtualAddress + secs[j].sizeOfRawData
                                 ==> Shift(secs[j]) == Shift(secs[k]))
  {
    FoundHolds(secs, rva, 0);
    var s := secs[k];
    assert foa == rva - Shift(s);
    FirstClaim(secs, foa, 0, k);
    var back := FindRva(secs, foa, 0);
    var c := back.index;
    assert secs[c].pointerToRawData <= foa && ToRva(secs[c], foa) == foa + Shift(secs[c]);
    assert Shift(secs[c]) <= Shift(s) by { if c < k {} }
    if Shift(secs[c]) == Shift(s) {
      forall j | 0 <= j < k && foa <= LastAddress(secs[j]) ensures Shift(secs[j]) == Shift(s) {
        if c < j { assert Shift(secs[c]) <= Shift(secs[j]); }
      }
    }
  }

  /** The same for the two functions of the source on a whole file. */
  lemma TranslationRoundTrip(img: Image, rva: dword)
    requires Translates(img) && FoaLookup(img, rva).Found? && OrderedUpTo(img.sections, FoaLookup(img, rva).index)
    ensures var secs, found := img.sections, FoaLookup(img, rva);
            var back := RvaLookup(img, found.address);
            && found.index < |secs| && back.Found?
            && (back.address == rva
                <==> forall j :: 0 <= j < found.index && found.address <= secs[j].virtualAddress + secs[j].sizeOfRawData
                                 ==> Shift(secs[j]) == Shift(secs[found.index]))
  {
    var found := FoaLookup(img, rva);
    RoundTripExactly(img.sections, rva, found.address, found.index);
  }

  /** A two-section file on which it fails: the second section's first byte comes back as an address
      inside the first section. */
  lemma RoundTripCanFail()
    ensures var secs := [Section(0x1000, 0x200, 0x400, ".text"), Section(0x2000, 0x200, 0x600, ".data")];
            LaidOut(secs) && FindFoa(secs, 0x2000, 0) == Found(0x600, 1) && FindRva(secs, 0x600, 0) == Found(0x1200, 0)
  {
    var secs := [Section(0x1000, 0x200, 0x400, ".text"), Section(0x2000, 0x200, 0x600, ".data")];
    assert FindFoa(secs, 0x2000, 1) == Found(0x600, 1);
  }

  /** Out of linker order, a file whose second section lies before the first one's raw data: the scan would
      find the way back, but the guard before it refuses. */
  lemma RoundTripCanBeRefused() returns (img: Image)
    ensures Translates(img) && img.sections == [Section(0x1000, 0x200, 0x800, "a"), Section(0x2000, 0x200, 0x400, "b")]
    ensures FoaLookup(img, 0x2000) == Found(0x400, 1) && FindRva(img.sections, 0x400, 0) == Found(0x2000, 1)
    ensures RvaLookup(img, 0x400) == OutOfRange
  {
    var secs := [Section(0x1000, 0x200, 0x800, "a"), Section(0x2000, 0x200, 0x400, "b")];
    img := Image([], map[], map[], 0, secs, secs[0], map rva | 0 <= rva < 0x1_0000_0000 :: FindFoa(secs, rva, 0), map[]);
    assert FindFoa(secs, 0x2000, 0) == FindFoa(secs, 0x2000, 1) == Found(0x400, 1);
    assert FindRva(secs, 0x400, 0) == FindRva(secs, 0x400, 1) == Found(0x2000, 1);
  }
}
