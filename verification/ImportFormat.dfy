/** The layout of import descriptors and address tables (section "The .idata Section" of the Microsoft PE/COFF
    specification), and that the import view shows what was written. */
module ImportFormat {
  import opened Words
  import opened ByteOrder
  import opened Text
  import opened ListCtrl
  import opened Layout
  import opened PeImage
  import opened ImportTable

  // ----- Modules -----

  datatype Module = Module(
    originalFirstThunk: dword, timeDateStamp: dword, forwarderChain: dword, nameRva: dword, firstThunk: dword, name: string)

  function Descriptor(m: Module): seq<dword> {
    [m.originalFirstThunk, m.timeDateStamp, m.forwarderChain, m.nameRva, m.firstThunk]
  }

  /** The descriptors, and behind them one without a name. */
  function EncodeModules(ms: seq<Module>, end: Module): seq<byte> {
    if ms == [] then EncodeDwords(Descriptor(end)) else EncodeDwords(Descriptor(ms[0])) + EncodeModules(ms[1..], end)
  }

  lemma {:induction false} ModulesLength(ms: seq<Module>, end: Module)
    ensures |EncodeModules(ms, end)| == 20 * |ms| + 20
  {
    if ms == [] {
    } else {
      ModulesLength(ms[1..], end);
    }
  }

  predicate ModulesAt(img: Image, ms: seq<Module>, end: Module) {
    && ReadsMemory(img) && |img.mem| <= 0x1_0000_0000
    && FileHolds(img, DirectoryRva(img, 1), EncodeModules(ms, end)) && end.nameRva == 0
    && forall i :: 0 <= i < |ms| ==> ms[i].nameRva != 0 && NameLies(img, ms[i].nameRva, ms[i].name)
  }

  /** Each descriptor lies 20 bytes behind the one before it. */
  lemma {:induction false} DescriptorLies(mem: seq<byte>, a: nat, ms: seq<Module>, end: Module, i: nat)
    requires Holds(mem, Field(a, EncodeModules(ms, end))) && i <= |ms|
    ensures Holds(mem, Field(a + 20 * i, EncodeDwords(Descriptor(if i < |ms| then ms[i] else end))))
    decreases i
  {
    if i == 0 {
      if ms != [] { HoldsBoth(mem, a, EncodeDwords(Descriptor(ms[0])), EncodeModules(ms[1..], end)); }
    } else {
      HoldsBoth(mem, a, EncodeDwords(Descriptor(ms[0])), EncodeModules(ms[1..], end));
      DescriptorLies(mem, a + 20, ms[1..], end, i - 1);
    }
  }

  lemma DescriptorRead(img: Image, a: nat, m: Module)
    requires ReadsMemory(img) && Holds(img.mem, Field(a, EncodeDwords(Descriptor(m))))
    ensures DwordAt(img, a) == m.originalFirstThunk && DwordAt(img, a + 4) == m.timeDateStamp
    ensures DwordAt(img, a + 8) == m.forwarderChain && NameRva(img, a) == m.nameRva && FirstThunk(img, a) == m.firstThunk
  {
    ReadsDwords(img, a, Descriptor(m), 0);
    ReadsDwords(img, a, Descriptor(m), 1);
    ReadsDwords(img, a, Descriptor(m), 2);
    ReadsDwords(img, a, Descriptor(m), 3);
    ReadsDwords(img, a, Descriptor(m), 4);
  }

  lemma ModuleLies(img: Image, ms: seq<Module>, end: Module, i: nat)
    requires ModulesAt(img, ms, end) && i <= |ms|
    ensures Holds(img.mem, Field(FirstModule(img) + 20 * i, EncodeDwords(Descriptor(if i < |ms| then ms[i] else end))))
  {
    DescriptorLies(img.mem, Foa(img, DirectoryRva(img, 1)) + img.fileBuff, ms, end, i);
  }

  /** The walk over the descriptors ends at the one without a name. */
  lemma ModulesWalk(img: Image, ms: seq<Module>, end: Module)
    requires ModulesAt(img, ms, end)
    ensures ModulesEnd(img, FirstModule(img), |ms|)
  {
    ModuleLies(img, ms, end, |ms|);
    DescriptorRead(img, FirstModule(img) + 20 * |ms|, end);
    forall i | 0 <= i < |ms| ensures NameRva(img, FirstModule(img) + 20 * i) != 0 {
      ModuleLies(img, ms, end, i);
      DescriptorRead(img, FirstModule(img) + 20 * i, ms[i]);
    }
  }

  /** And row i shows module i: its name, and the fields of its descriptor in the order of the columns. */
  lemma ModuleShown(img: Image, ms: seq<Module>, end: Module, i: nat)
    requires ModulesAt(img, ms, end) && i < |ms|
    ensures ModuleRows(img, FirstModule(img), |ms|)[i]
            == Item([Txt(ms[i].name), HexN(ms[i].originalFirstThunk, 8), HexN(ms[i].timeDateStamp, 8),
                     HexN(ms[i].forwarderChain, 8), HexN(ms[i].nameRva, 8), HexN(ms[i].firstThunk, 8)], false, false)
  {
    ModuleLies(img, ms, end, i);
    DescriptorCells(img, FirstModule(img) + 20 * i, ms[i]);
  }

  lemma DescriptorCells(img: Image, a: nat, m: Module)
    requires ReadsMemory(img) && Holds(img.mem, Field(a, EncodeDwords(Descriptor(m)))) && NameLies(img, m.nameRva, m.name)
    ensures ModuleCells(img, a)
            == [Txt(m.name), HexN(m.originalFirstThunk, 8), HexN(m.timeDateStamp, 8), HexN(m.forwarderChain, 8),
                HexN(m.nameRva, 8), HexN(m.firstThunk, 8)]
  {
    DescriptorRead(img, a, m);
    ReadsName(img, m.nameRva, m.name);
  }

  // ----- Thunks -----

  predicate ThunksAt(img: Image, rva: dword, thunks: seq<dword>) {
    && ReadsMemory(img) && |img.mem| <= 0x1_0000_0000
    && FileHolds(img, rva, EncodeDwords(thunks + [0])) && forall i :: 0 <= i < |thunks| ==> thunks[i] != 0
  }

  lemma ThunkRead(img: Image, rva: dword, thunks: seq<dword>, i: nat)
    requires ThunksAt(img, rva, thunks) && i <= |thunks|
    ensures ThunkAt(img, TableAddress(img, rva), i) == if i < |thunks| then thunks[i] else 0
  {
    ReadsDwords(img, Foa(img, rva) + img.fileBuff, thunks + [0], i);
  }

  /** The walk over the thunks ends at the zero behind them. */
  lemma ThunksWalk(img: Image, rva: dword, thunks: seq<dword>)
    requires ThunksAt(img, rva, thunks)
    ensures ThunksEnd(img, TableAddress(img, rva), |thunks|)
  {
    ThunkRead(img, rva, thunks, |thunks|);
    forall i | 0 <= i < |thunks| ensures ThunkAt(img, TableAddress(img, rva), i) != 0 {
      ThunkRead(img, rva, thunks, i);
    }
  }

  lemma RowOfThunk(img: Image, rva: dword, thunks: seq<dword>, i: nat)
    requires ThunksAt(img, rva, thunks) && i < |thunks|
    ensures FuncRows(img, rva, |thunks|)[i]
            == Item(ThunkCells(img, (rva + 4 * i) % 0x1_0000_0000, (Foa(img, rva) + 4 * i) % 0x1_0000_0000, thunks[i]), false, false)
  {
    ThunkRead(img, rva, thunks, i);
    ThunkRowAt(img, rva, Foa(img, rva), TableAddress(img, rva), |thunks|, i);
    WrapIs(rva + 4 * i);
    WrapIs(Foa(img, rva) + 4 * i);
  }

  /** Row i shows thunk i, and for an import by ordinal the ordinal. */
  lemma OrdinalShown(img: Image, rva: dword, thunks: seq<dword>, i: nat)
    requires ThunksAt(img, rva, thunks) && i < |thunks| && thunks[i] >= 0x8000_0000
    ensures var rvaHere, foaHere := (rva + 4 * i) % 0x1_0000_0000, (Foa(img, rva) + 4 * i) % 0x1_0000_0000;
            FuncRows(img, rva, |thunks|)[i]
            == Item([HexN(rvaHere, 8), HexN(foaHere, 8), HexN(thunks[i], 8), Txt("-.-"), Ordinal(thunks[i] - 0x8000_0000)], false, false)
  {
    RowOfThunk(img, rva, thunks, i);
    OrdinalCells(img, (rva + 4 * i) % 0x1_0000_0000, (Foa(img, rva) + 4 * i) % 0x1_0000_0000, thunks[i]);
  }

  lemma OrdinalCells(img: Image, rva: dword, foa: dword, thunk: dword)
    requires thunk >= 0x8000_0000
    ensures ThunkCells(img, rva, foa, thunk)
            == [HexN(rva, 8), HexN(foa, 8), HexN(thunk, 8), Txt("-.-"), Ordinal(thunk - 0x8000_0000)]
  {
  }

  /** For an import by name, the hint and the name that lie where the thunk leads. */
  lemma NameShown(img: Image, rva: dword, thunks: seq<dword>, i: nat, hint: word, name: string)
    requires ThunksAt(img, rva, thunks) && i < |thunks| && thunks[i] < 0x8000_0000
    requires Narrow(name) && FileHolds(img, thunks[i], StoreLE(2, hint) + EncodeText(name))
    ensures var rvaHere, foaHere := (rva + 4 * i) % 0x1_0000_0000, (Foa(img, rva) + 4 * i) % 0x1_0000_0000;
            FuncRows(img, rva, |thunks|)[i]
            == Item([HexN(rvaHere, 8), HexN(foaHere, 8), HexN(thunks[i], 8), HexN(hint, 4), Txt(name)], false, false)
  {
    RowOfThunk(img, rva, thunks, i);
    NamedCells(img, (rva + 4 * i) % 0x1_0000_0000, (Foa(img, rva) + 4 * i) % 0x1_0000_0000, thunks[i], hint, name);
  }

  lemma NamedCells(img: Image, rva: dword, foa: dword, thunk: dword, hint: word, name: string)
    requires ReadsMemory(img) && thunk < 0x8000_0000
    requires Narrow(name) && FileHolds(img, thunk, StoreLE(2, hint) + EncodeText(name))
    ensures ThunkCells(img, rva, foa, thunk) == [HexN(rva, 8), HexN(foa, 8), HexN(thunk, 8), HexN(hint, 4), Txt(name)]
  {
    HintRead(img, thunk, hint, name);
  }

  lemma HintRead(img: Image, thunk: dword, hint: word, name: string)
    requires ReadsMemory(img) && Narrow(name) && FileHolds(img, thunk, StoreLE(2, hint) + EncodeText(name))
    ensures var a := Foa(img, thunk) + img.fileBuff; WordAt(img, a) == hint && TextAt(img, a + 2) == name
  {
    var a := Foa(img, thunk) + img.fileBuff;
    HoldsBoth(img.mem, a, StoreLE(2, hint), EncodeText(name));
    ReadsWord(img, a, hint);
    ReadsText(img, a + 2, name);
  }
}
