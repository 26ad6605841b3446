/** The export table view (CExportTableDialog.cpp): the join of the function address table with the name
    ordinal table. The format is the section "The .edata Section (Image Only)" of the Microsoft PE/COFF
    specification. */
module ExportTable {
  import opened Words
  import opened Text
  import opened ListCtrl
  import opened PeImage

  /** The ordinal base and the three tables of the export directory: addresses by function index, and by
      name index the function index it selects and the name itself. */
  datatype Exports = Exports(ordinalBase: dword, functions: seq<dword>, ordinals: seq<word>, names: seq<string>)

  predicate Valid(x: Exports) { |x.ordinals| == |x.names| }

  function Pointer(img: Image, rva: dword): dword { U32(Foa(img, rva) + img.fileBuff) }

  /** The directory behind data directory 0 and the tables it points to. */
  function ExportsOf(img: Image): (x: Exports)
    ensures Valid(x)
  {
    var t := Pointer(img, DirectoryRva(img, 0));
    TablesOf(img, DwordAt(img, t + 16), DwordAt(img, t + 20), DwordAt(img, t + 24),
             DwordAt(img, t + 28), DwordAt(img, t + 32), DwordAt(img, t + 36))
  }

  function TablesOf(img: Image, ordinalBase: dword, functionCount: dword, nameCount: dword,
                    functionTable: dword, nameTable: dword, ordinalTable: dword): (x: Exports)
    ensures Valid(x)
  {
    Exports(ordinalBase, DwordsFrom(img, Pointer(img, functionTable), functionCount),
            WordsFrom(img, Pointer(img, ordinalTable), nameCount), NamesFrom(img, Pointer(img, nameTable), nameCount))
  }

  function DwordsFrom(img: Image, a: nat, n: nat): (s: seq<dword>)
    ensures |s| == n
    decreases n
  {
    if n == 0 then [] else [DwordAt(img, a)] + DwordsFrom(img, a + 4, n - 1)
  }

  function WordsFrom(img: Image, a: nat, n: nat): (s: seq<word>)
    ensures |s| == n
    decreases n
  {
    if n == 0 then [] else [WordAt(img, a)] + WordsFrom(img, a + 2, n - 1)
  }

  function NamesFrom(img: Image, a: nat, n: nat): (s: seq<string>)
    ensures |s| == n
    decreases n
  {
    if n == 0 then [] else [TextAt(img, Pointer(img, DwordAt(img, a)))] + NamesFrom(img, a + 4, n - 1)
  }

  // ----- The reference -----

  /** The first of the names from i on that selects the function, or the number of names if none does. */
  function FirstName(ordinals: seq<word>, index: nat, i: nat): (n: nat)
    requires i <= |ordinals|
    ensures i <= n <= |ordinals|
    ensures forall j :: i <= j < n ==> ordinals[j] != index
    ensures n < |ordinals| ==> ordinals[n] == index
    decreases |ordinals| - i
  {
    if i == |ordinals| || ordinals[i] == index then i else FirstName(ordinals, index, i + 1)
  }

  /** The row of a function: its ordinal, RVA and file offset, and the first name exported for it. */
  function ExportCells(img: Image, x: Exports, index: nat): (cells: seq<Cell>)
    requires Valid(x) && index < |x.functions|
    ensures |cells| == 4
  {
    var n := FirstName(x.ordinals, index, 0);
    [HexN(U32(index + x.ordinalBase), 4), HexN(x.functions[index], 8), HexN(Foa(img, x.functions[index]), 8),
     Txt(if n < |x.names| then x.names[n] else "--")]
  }

  /** The functions among the first count that have an address. */
  function Exported(functions: seq<dword>, count: nat): (s: seq<nat>)
    requires count <= |functions|
    ensures forall k :: 0 <= k < |s| ==> s[k] < count
  {
    if count == 0 then []
    else Exported(functions, count - 1) + if functions[count - 1] != 0 then [count - 1] else []
  }

  /** The list after the first count functions. */
  function ExportRows(img: Image, x: Exports, count: nat): (rows: seq<Item>)
    requires Valid(x) && count <= |x.functions|
  {
    if count == 0 then []
    else var rows := ExportRows(img, x, count - 1);
         if x.functions[count - 1] != 0 then rows + [Row(ExportCells(img, x, count - 1))] else rows
  }

  class ExportTableDialog {
    var objExportTab: seq<Item>

    constructor ()
      ensures objExportTab == []
    {
      objExportTab := [];
    }

    /** Fills the new, empty list from the export directory. */
    method GetExportTableInfo(img: Image)
      requires objExportTab == []
      modifies this
      ensures var x := ExportsOf(img); objExportTab == ExportRows(img, x, |x.functions|)
    {
      var x := ExportsOf(img);
      JoinTables(img, x);
    }

    // The loop over the functions.
    method JoinTables(img: Image, x: Exports)
      requires objExportTab == [] && Valid(x)
      modifies this
      ensures objExportTab == ExportRows(img, x, |x.functions|)
    {
      var iCol, index := 0, 0;
      while index < |x.functions|
        invariant 0 <= index <= |x.functions| && iCol == |objExportTab|
        invariant objExportTab == ExportRows(img, x, index)
      {
        if x.functions[index] != 0 {
          var cells := JoinFunction(img, x, index);
          objExportTab := PutRow(objExportTab, iCol, cells);
          iCol := iCol + 1;
        }
        index := index + 1;
      }
    }

    // The search for a name, and the texts of the row in either case.
    method JoinFunction(img: Image, x: Exports, index: nat) returns (cells: seq<Cell>)
      requires Valid(x) && index < |x.functions|
      ensures cells == ExportCells(img, x, index)
    {
      var address := x.functions[index];
      var i := 0;
      while i < |x.ordinals|
        invariant 0 <= i <= |x.ordinals| && FirstName(x.ordinals, index, i) == FirstName(x.ordinals, index, 0)
      {
        if index == x.ordinals[i] {
          return [HexN(U32(x.ordinals[i] + x.ordinalBase), 4), HexN(address, 8), HexN(Foa(img, address), 8), Txt(x.names[i])];
        }
        i := i + 1;
      }
      return [HexN(U32(index + x.ordinalBase), 4), HexN(address, 8), HexN(Foa(img, address), 8), Txt("--")];
    }
  }

  // ----- What the view shows -----

  predicate Increasing(s: seq<nat>) { forall j, k :: 0 <= j < k < |s| ==> s[j] < s[k] }

  lemma {:induction false} ExportedIncreasing(functions: seq<dword>, count: nat)
    requires count <= |functions|
    ensures Increasing(Exported(functions, count))
    decreases count
  {
    if count == 0 {
    } else {
      ExportedIncreasing(functions, count - 1);
      var t := Exported(functions, count - 1);
      assert Increasing(t + [count - 1]) && t + [] == t;
    }
  }

  lemma {:induction false} ExportedIn(functions: seq<dword>, count: nat, index: nat)
    requires count <= |functions|
    ensures index in Exported(functions, count) <==> index < count && functions[index] != 0
    decreases count
  {
    if count == 0 {
    } else {
      ExportedIn(functions, count - 1, index);
    }
  }

  /** The functions shown are exactly those with an address, once each and in increasing order. */
  lemma ExportedExactly(functions: seq<dword>, count: nat)
    requires count <= |functions|
    ensures var s := Exported(functions, count);
            && Increasing(s)
            && (forall index: nat :: index < count && functions[index] != 0 <==> exists k :: 0 <= k < |s| && s[k] == index)
  {
    var s := Exported(functions, count);
    ExportedIncreasing(functions, count);
    forall index: nat ensures index < count && functions[index] != 0 <==> exists k :: 0 <= k < |s| && s[k] == index {
      ExportedIn(functions, count, index);
    }
  }

  /** Row k is the row of the k-th of them. */
  lemma {:induction false} RowsAreExported(img: Image, x: Exports, count: nat)
    requires Valid(x) && count <= |x.functions|
    ensures var rows, s := ExportRows(img, x, count), Exported(x.functions, count);
            |rows| == |s| && forall k :: 0 <= k < |s| ==> rows[k] == Row(ExportCells(img, x, s[k]))
    decreases count
  {
    if count == 0 {
    } else {
      RowsAreExported(img, x, count - 1);
    }
  }

  /** A row is named exactly when some name selects its function, and then by the first such name; a name
      is shown exactly when it is the first to select a function with an address. */
  lemma NamedByTheFirst(x: Exports, index: nat, i: nat)
    requires Valid(x) && index < |x.functions| && i < |x.names|
    ensures FirstName(x.ordinals, index, 0) < |x.names| <==> exists j :: 0 <= j < |x.ordinals| && x.ordinals[j] == index
    ensures FirstName(x.ordinals, index, 0) == i
            <==> x.ordinals[i] == index && forall j :: 0 <= j < i ==> x.ordinals[j] != x.ordinals[i]
  {
  }

  /** The texts of the row of function f: index + base, its RVA and file offset, and the first name that selects it
      or, if none does, dashes. */
  predicate ShowsExport(img: Image, x: Exports, f: nat, cells: seq<Cell>)
    requires Valid(x) && f < |x.functions|
  {
    && |cells| == 4
    && cells[0] == HexN((f + x.ordinalBase) % 0x1_0000_0000, 4)
    && cells[1] == HexN(x.functions[f], 8)
    && cells[2] == HexN(Foa(img, x.functions[f]), 8)
    && (forall i :: 0 <= i < |x.names| && x.ordinals[i] == f && (forall j :: 0 <= j < i ==> x.ordinals[j] != f)
                    ==> cells[3] == Txt(x.names[i]))
    && ((forall i :: 0 <= i < |x.names| ==> x.ordinals[i] != f) ==> cells[3] == Txt("--"))
  }

  lemma CellsShowExport(img: Image, x: Exports, f: nat)
    requires Valid(x) && f < |x.functions|
    ensures ShowsExport(img, x, f, ExportCells(img, x, f))
  {
  }

  // A name is the first of those for its function, or an earlier one is.
  lemma FirstOfItsNames(x: Exports, i: nat) returns (j: nat)
    requires Valid(x) && i < |x.names|
    ensures j <= i && x.ordinals[j] == x.ordinals[i] && forall m :: 0 <= m < j ==> x.ordinals[m] != x.ordinals[i]
  {
    j := FirstName(x.ordinals, x.ordinals[i], 0);
  }

  predicate NamedAtOrBefore(x: Exports, i: nat)
    requires Valid(x) && i < |x.names|
  {
    exists j :: 0 <= j <= i && x.ordinals[j] == x.ordinals[i] && forall m :: 0 <= m < j ==> x.ordinals[m] != x.ordinals[i]
  }

  /** The join is exact. Each function with an address has exactly one row, in increasing order of the functions;
      the row shows index + base whether or not it is named, the function's RVA and file offset, and its first name;
      and no name with a valid ordinal is lost: the function it selects has a row, under this name or an earlier one
      for the same function. */
  lemma JoinIsExact(img: Image, x: Exports)
    requires Valid(x)
    ensures var rows, s := ExportRows(img, x, |x.functions|), Exported(x.functions, |x.functions|);
            && |rows| == |s| && Increasing(s)
            && (forall k :: 0 <= k < |s| ==> x.functions[s[k]] != 0
                                             && rows[k] == Item(rows[k].cells, false, false) && ShowsExport(img, x, s[k], rows[k].cells))
            && (forall index: nat :: index < |x.functions| && x.functions[index] != 0 ==> exists k :: 0 <= k < |s| && s[k] == index)
            && (forall i :: 0 <= i < |x.names| && x.ordinals[i] < |x.functions| && x.functions[x.ordinals[i]] != 0 ==>
                  (exists k :: 0 <= k < |s| && s[k] == x.ordinals[i]) && NamedAtOrBefore(x, i))
  {
    var s := Exported(x.functions, |x.functions|);
    RowsAreExported(img, x, |x.functions|);
    ExportedExactly(x.functions, |x.functions|);
    forall k | 0 <= k < |s| ensures ShowsExport(img, x, s[k], ExportCells(img, x, s[k])) {
      CellsShowExport(img, x, s[k]);
    }
    forall i | 0 <= i < |x.names|
      ensures NamedAtOrBefore(x, i)
    {
      var j := FirstOfItsNames(x, i);
    }
  }
}
