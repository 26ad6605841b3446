/** The import table view (CImportTableDialog.cpp): the walk over the module descriptors and, for a
    clicked module, over its address table. The format is the section "The .idata Section" of the
    Microsoft PE/COFF specification. */
module ImportTable {
  import opened Words
  import opened Text
  import opened ListCtrl
  import opened PeImage

  // ----- Modules: descriptors of 20 bytes, up to one without a name -----

  function NameRva(img: Image, t: int): dword { DwordAt(img, t + 12) }

  function FirstThunk(img: Image, t: int): dword { DwordAt(img, t + 16) }

  function ModuleCells(img: Image, t: int): (cells: seq<Cell>)
    ensures |cells| == 6
  {
    [Txt(TextAt(img, U32(Foa(img, NameRva(img, t)) + img.fileBuff))), HexN(DwordAt(img, t), 8), HexN(DwordAt(img, t + 4), 8),
     HexN(DwordAt(img, t + 8), 8), HexN(NameRva(img, t), 8), HexN(FirstThunk(img, t), 8)]
  }

  /** Inside the memory, the first descriptor without a name is number n. Elsewhere the source's walk
      leaves the memory. */
  predicate ModulesEnd(img: Image, t: int, n: nat) {
    && t + 20 * n + 20 <= |img.mem| <= 0x1_0000_0000
    && NameRva(img, t + 20 * n) == 0 && forall i :: 0 <= i < n ==> NameRva(img, t + 20 * i) != 0
  }

  function ModuleRows(img: Image, t: int, n: nat): (rows: seq<Item>)
    ensures |rows| == n
    ensures forall i :: 0 <= i < n ==> rows[i] == Row(ModuleCells(img, t + 20 * i))
  {
    if n == 0 then [] else ModuleRows(img, t, n - 1) + [Row(ModuleCells(img, t + 20 * (n - 1)))]
  }

  /** Directory 1 leads to the first descriptor. */
  function FirstModule(img: Image): dword { U32(Foa(img, DirectoryRva(img, 1)) + img.fileBuff) }

  // ----- Thunks: DWORDs, up to a zero -----

  /** Bit 31 is set. */
  predicate ByOrdinal(thunk: dword) { thunk / 0x8000_0000 == 1 }

  /** A row of the address table: RVA, file offset and value of the thunk, and what it imports. */
  function ThunkCells(img: Image, rva: dword, foa: dword, thunk: dword): (cells: seq<Cell>)
    ensures |cells| == 5
  {
    var name := U32(Foa(img, thunk) + img.fileBuff);
    if ByOrdinal(thunk) then [HexN(rva, 8), HexN(foa, 8), HexN(thunk, 8), Txt("-.-"), Ordinal(thunk % 0x8000_0000)]
    else [HexN(rva, 8), HexN(foa, 8), HexN(thunk, 8), HexN(WordAt(img, name), 4), Txt(TextAt(img, name + 2))]
  }

  /** The address table of a module in memory. */
  function TableAddress(img: Image, rva: dword): dword { U32(Foa(img, rva) + img.fileBuff) }

  function ThunkAt(img: Image, iat: int, i: int): dword { DwordAt(img, iat + 4 * i) }

  /** Inside the memory, the first zero word of the table is number n. */
  predicate ThunksEnd(img: Image, iat: int, n: nat) {
    && iat + 4 * n + 4 <= |img.mem| <= 0x1_0000_0000
    && ThunkAt(img, iat, n) == 0 && forall i :: 0 <= i < n ==> ThunkAt(img, iat, i) != 0
  }

  // The loop stands at word n exactly when it reads zero.
  lemma ThunkGoesOn(img: Image, iat: int, n: nat, i: nat)
    requires ThunksEnd(img, iat, n) && i <= n && DwordAt(img, iat + 4 * i) != 0
    ensures i < n && iat + 4 * i < 0x1_0000_0000
  {
    assert ThunkAt(img, iat, n) == 0;
  }

  lemma ThunkStops(img: Image, iat: int, n: nat, i: nat)
    requires ThunksEnd(img, iat, n) && i <= n && DwordAt(img, iat + 4 * i) == 0
    ensures i == n
  {
    assert i < n ==> ThunkAt(img, iat, i) != 0;
  }

  function ThunkRow(img: Image, rva: dword, foa: dword, iat: int, i: nat): Item {
    Row(ThunkCells(img, U32(rva + 4 * i), U32(foa + 4 * i), ThunkAt(img, iat, i)))
  }

  function ThunkRows(img: Image, rva: dword, foa: dword, iat: int, n: nat): (rows: seq<Item>)
    ensures |rows| == n
  {
    if n == 0 then [] else ThunkRows(img, rva, foa, iat, n - 1) + [ThunkRow(img, rva, foa, iat, n - 1)]
  }

  lemma {:induction false} ThunkRowAt(img: Image, rva: dword, foa: dword, iat: int, n: nat, i: nat)
    requires i < n
    ensures ThunkRows(img, rva, foa, iat, n)[i] == ThunkRow(img, rva, foa, iat, i)
    decreases n
  {
    if i == n - 1 {
    } else {
      ThunkRowAt(img, rva, foa, iat, n - 1, i);
    }
  }

  /** The rows of the address table at an RVA. */
  function FuncRows(img: Image, rva: dword, n: nat): (rows: seq<Item>) {
    ThunkRows(img, rva, Foa(img, rva), TableAddress(img, rva), n)
  }

  /** The three cursors stay in lockstep: the word the file offset leads to is the one under the pointer. */
  lemma Lockstep(fileBuff: dword, rva: dword, foa: dword, iat: int, i: nat)
    requires iat == U32(foa + fileBuff) && iat + 4 * i < 0x1_0000_0000
    ensures U32(U32(foa + 4 * i) + fileBuff) == iat + 4 * i
    ensures U32(U32(rva + 4 * i) + 4) == U32(rva + 4 * (i + 1)) && U32(U32(foa + 4 * i) + 4) == U32(foa + 4 * (i + 1))
  {
    AddWrapped(foa + 4 * i, fileBuff);
    AddWrapped(foa + fileBuff, 4 * i);
    AddWrapped(rva + 4 * i, 4);
    AddWrapped(foa + 4 * i, 4);
  }

  function ClickKey(modules: seq<Item>, nRow: int): dword { U32(Strtol(GetItemText(modules, nRow, 5), 16)) }

  class ImportTableDialog {
    var objModuleList: seq<Item>
    var objFuncList: seq<Item>

    constructor ()
      ensures objModuleList == [] && objFuncList == []
    {
      objModuleList, objFuncList := [], [];
    }

    /** Fills the new, empty list with one row per descriptor, up to the first without a name. */
    method GetImportTableInfo(img: Image, ghost n: nat)
      requires objModuleList == [] && ModulesEnd(img, FirstModule(img), n)
      modifies this`objModuleList
      ensures objModuleList == ModuleRows(img, FirstModule(img), n)
    {
      WalkModules(img, FirstModule(img), n);
    }

    // The loop over the descriptors.
    method WalkModules(img: Image, first: int, ghost n: nat)
      requires objModuleList == [] && ModulesEnd(img, first, n)
      modifies this`objModuleList
      ensures objModuleList == ModuleRows(img, first, n)
    {
      var importTable, i := first, 0;
      while NameRva(img, importTable) != 0
        invariant 0 <= i <= n && importTable == first + 20 * i
        invariant objModuleList == ModuleRows(img, first, i)
        decreases n - i
      {
        ShowModule(img, importTable, i);
        importTable := importTable + 20;
        i := i + 1;
      }
    }

    method ShowModule(img: Image, importTable: int, i: nat)
      requires i == |objModuleList|
      modifies this`objModuleList
      ensures objModuleList == old(objModuleList) + [Row(ModuleCells(img, importTable))]
    {
      var name := TextAt(img, U32(Foa(img, NameRva(img, importTable)) + img.fileBuff));
      var INTRVA, timeDateStamp, forwarderChain :=
        DwordAt(img, importTable), DwordAt(img, importTable + 4), DwordAt(img, importTable + 8);
      objModuleList := PutRow(objModuleList, i,
        [Txt(name), HexN(INTRVA, 8), HexN(timeDateStamp, 8), HexN(forwarderChain, 8), HexN(NameRva(img, importTable), 8),
         HexN(FirstThunk(img, importTable), 8)]);
    }

    // One row: the value is read through the file offset, the kind through the pointer.
    method ShowThunk(img: Image, IAT: int, IATRVA: dword, IATFOA: dword, i: nat)
      requires U32(IATFOA + img.fileBuff) == IAT && i == |objFuncList|
      modifies this`objFuncList
      ensures objFuncList == old(objFuncList) + [Row(ThunkCells(img, IATRVA, IATFOA, DwordAt(img, IAT)))]
    {
      var valueCell := HexN(DwordAt(img, U32(IATFOA + img.fileBuff)), 8);
      var thunk := DwordAt(img, IAT);
      var hint, apiName;
      if !ByOrdinal(thunk) {
        var nameTable: int := U32(Foa(img, thunk) + img.fileBuff);
        hint, apiName := HexN(WordAt(img, nameTable), 4), Txt(TextAt(img, nameTable + 2));
      } else {
        hint, apiName := Txt("-.-"), Ordinal(thunk % 0x8000_0000);
      }
      objFuncList := PutRow(objFuncList, i, [HexN(IATRVA, 8), HexN(IATFOA, 8), valueCell, hint, apiName]);
    }

    // One turn of the loop: row i, and the two offsets moved on.
    method ShowAndAdvance(img: Image, ghost rva: dword, ghost foa: dword, ghost iat: int,
                          IAT: int, IATRVA: dword, IATFOA: dword, i: nat)
      returns (nextRVA: dword, nextFOA: dword)
      requires IAT == iat + 4 * i < 0x1_0000_0000 && IATRVA == U32(rva + 4 * i) && IATFOA == U32(foa + 4 * i)
      requires iat == U32(foa + img.fileBuff) && objFuncList == ThunkRows(img, rva, foa, iat, i)
      modifies this`objFuncList
      ensures objFuncList == ThunkRows(img, rva, foa, iat, i + 1)
      ensures nextRVA == U32(rva + 4 * (i + 1)) && nextFOA == U32(foa + 4 * (i + 1))
    {
      Lockstep(img.fileBuff, rva, foa, iat, i);
      ShowThunk(img, IAT, IATRVA, IATFOA, i);
      nextRVA := U32(IATRVA + 4);
      nextFOA := U32(IATFOA + 4);
    }

    // The loop over the thunks.
    method WalkThunks(img: Image, rva: dword, foa: dword, iat: int, ghost n: nat)
      requires objFuncList == [] && ThunksEnd(img, iat, n) && iat == U32(foa + img.fileBuff)
      modifies this`objFuncList
      ensures objFuncList == ThunkRows(img, rva, foa, iat, n)
    {
      var IATRVA, IATFOA, IAT, i := rva, foa, iat, 0;
      while DwordAt(img, IAT) != 0
        invariant 0 <= i <= n && IAT == iat + 4 * i
        invariant IATRVA == U32(rva + 4 * i) && IATFOA == U32(foa + 4 * i)
        invariant objFuncList == ThunkRows(img, rva, foa, iat, i)
        decreases n - i
      {
        ThunkGoesOn(img, iat, n, i);
        IATRVA, IATFOA := ShowAndAdvance(img, rva, foa, iat, IAT, IATRVA, IATFOA, i);
        IAT := IAT + 4;
        i := i + 1;
      }
      ThunkStops(img, iat, n, i);
    }

    /** One row per thunk, up to the first zero word. */
    method GetFuncInfo(img: Image, rva: dword, ghost n: nat)
      requires objFuncList == [] && ThunksEnd(img, TableAddress(img, rva), n)
      modifies this`objFuncList
      ensures objFuncList == FuncRows(img, rva, n)
    {
      var foa := Foa(img, rva);
      WalkThunks(img, rva, foa, U32(foa + img.fileBuff), n);
    }

    /** A click on a module row shows the address table its FirstThunk cell is parsed to. */
    method OnClickList1(img: Image, nRow: int, ghost n: nat)
      requires ThunksEnd(img, TableAddress(img, ClickKey(objModuleList, nRow)), n)
      modifies this`objFuncList
      ensures objFuncList == FuncRows(img, ClickKey(objModuleList, nRow), n)
    {
      var IATRVA := U32(Strtol(GetItemText(objModuleList, nRow, 5), 16));
      objFuncList := [];
      GetFuncInfo(img, IATRVA, n);
    }
  }

  // ----- What the view shows -----

  /** Row i shows RVA0 + 4i, its file offset and word i of the table; it is of the ordinal kind exactly when
      bit 31 is set, and then the ordinal shown plus 2^31 is the word. Under the name kind stands the hint and
      text that the word leads to. */
  lemma ThunkRowsMean(img: Image, rva: dword, n: nat, i: nat)
    requires ThunksEnd(img, TableAddress(img, rva), n) && i < n
    ensures |FuncRows(img, rva, n)| == n
    ensures var cells, thunk := FuncRows(img, rva, n)[i].cells, ThunkAt(img, TableAddress(img, rva), i);
            && |cells| == 5 && thunk != 0
            && cells[0] == HexN(U32(rva + 4 * i), 8) && cells[1] == HexN(U32(Foa(img, rva) + 4 * i), 8)
            && cells[2] == HexN(thunk, 8)
            && (cells[3] == Txt("-.-") <==> thunk >= 0x8000_0000)
            && (thunk >= 0x8000_0000 ==> cells[4].Ordinal? && cells[4].ordinal + 0x8000_0000 == thunk)
            && (thunk < 0x8000_0000 ==> var name := U32(Foa(img, thunk) + img.fileBuff);
                                        cells[3] == HexN(WordAt(img, name), 4) && cells[4] == Txt(TextAt(img, name + 2)))
  {
    ThunkRowAt(img, rva, Foa(img, rva), TableAddress(img, rva), n, i);
  }

  /** A walk has one length only, so the number of rows is the index of the first zero word. */
  lemma LengthIsUnique(img: Image, iat: int, n: nat, m: nat)
    requires ThunksEnd(img, iat, n) && ThunksEnd(img, iat, m)
    ensures n == m
  {
    assert n < m ==> ThunkAt(img, iat, n) != 0;
    assert m < n ==> ThunkAt(img, iat, m) != 0;
  }

  /** A click on module row r opens that module's own table exactly when its FirstThunk is below 2^31. */
  lemma ClickOpensItsTable(img: Image, n: nat, r: nat)
    requires r < n
    ensures var t := FirstModule(img);
            ClickKey(ModuleRows(img, t, n), r) == FirstThunk(img, t + 20 * r) <==> FirstThunk(img, t + 20 * r) <= INT_MAX32
  {
    var rows, thunk := ModuleRows(img, FirstModule(img), n), FirstThunk(img, FirstModule(img) + 20 * r);
    HexCellKey(rows, r, thunk);
    HexRoundTrip(thunk, 8);
  }

  lemma HexCellKey(rows: seq<Item>, r: nat, v: dword)
    requires r < |rows| && |rows[r].cells| == 6 && rows[r].cells[5] == HexN(v, 8)
    ensures ClickKey(rows, r) == U32(Strtol(Hex(v, 8), 16))
  {
  }
}
