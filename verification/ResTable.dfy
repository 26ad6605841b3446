/** The resource view (CResTableDialog.cpp): a two-level walk that fills a tree control and maps its nodes
    to resource directories, and the selection handler that follows the map. The format is the section
    "The .rsrc Section" of the Microsoft PE/COFF specification. */
module ResTable {
  import opened Words
  import opened Text
  import opened PeImage
  import opened Wrappers

  // ----- Resource directories in memory -----

  function NamedEntries(img: Image, d: int): word { WordAt(img, d + 12) }

  function IdEntries(img: Image, d: int): word { WordAt(img, d + 14) }

  function EntryCount(img: Image, d: int): nat { NamedEntries(img, d) as int + IdEntries(img, d) as int }

  /** The top bit of the name field tells a string from an id, that of the data field a directory from data. */
  predicate TopBit(x: dword) { x / 0x8000_0000 == 1 }

  function Low31(x: dword): dword { x % 0x8000_0000 }

  /** The caption of a numbered resource type. */
  function TypeName(id: word): string {
    match id
    case 1 => "鼠标指针" case 2 => "位图" case 3 => "图标" case 4 => "菜单" case 5 => "对话框" case 6 => "字符串列表"
    case 7 => "字体目录" case 8 => "资源类型" case 9 => "字体" case 10 => "快捷键" case 11 => "非格式化资源"
    case 12 => "消息列表" case 13 => "鼠标指针组" case 14 => "图标组" case 16 => "版本信息" case _ => "UnDefine"
  }

  /** The captions of types 1 to 14, and of 16; any other number has the same one. */
  lemma TypeNames(id: word)
    ensures 1 <= id <= 14 ==>
              TypeName(id) == ["鼠标指针", "位图", "图标", "菜单", "对话框", "字符串列表", "字体目录", "资源类型", "字体",
                               "快捷键", "非格式化资源", "消息列表", "鼠标指针组", "图标组"][id - 1]
    ensures id == 16 ==> TypeName(id) == "版本信息"
    ensures !(1 <= id <= 14) && id != 16 ==> TypeName(id) == "UnDefine"
  {
  }

  function NameString(img: Image, base: dword, name: dword): string { WideTextAt(img,
      U32(base + Low31(name)) as int + 2) }

  function TypeCaption(img: Image, base: dword, name: dword, id: word): Cell {
    Txt(if TopBit(name) then NameString(img, base, name) else TypeName(id))
  }

  function LeafCaption(img: Image, base: dword, name: dword, id: word): Cell {
    if TopBit(name) then Txt(NameString(img, base, name)) else DecN(id)
  }

  /** An entry as the walk uses it: its caption, whether it leads to a directory, and to which. */
  datatype Entry = Entry(caption: Cell, isDirectory: bool, target: dword)

  /** One resource type: its entry, and the entries of its directory if it is one. */
  datatype Branch = Branch(entry: Entry, leaves: seq<Entry>)

  function Target(img: Image, base: dword, e: int): dword { U32(Low31(DwordAt(img, e + 4)) + base) }

  function LeafEntry(img: Image, base: dword, e: int): Entry {
    Entry(LeafCaption(img, base, DwordAt(img, e), WordAt(img, e)), TopBit(DwordAt(img, e + 4)), Target(img, base, e))
  }

  /** The entries of a directory lie behind its 16-byte header, 8 bytes each. */
  function Leaves(img: Image, base: dword, d: dword): seq<Entry> { LeavesUpTo(img, base, d, EntryCount(img, d)) }

  function LeavesUpTo(img: Image, base: dword, d: dword, n: nat): (r: seq<Entry>)
    ensures |r| == n
  {
    if n == 0 then [] else LeavesUpTo(img, base, d, n - 1) + [LeafEntry(img, base, d + 16 + 8 * (n - 1))]
  }

  lemma {:induction false} LeafIs(img: Image, base: dword, d: dword, n: nat, j: nat)
    requires j < n
    ensures LeavesUpTo(img, base, d, n)[j] == LeafEntry(img, base, d + 16 + 8 * j)
    decreases n
  {
    if j == n - 1 {
    } else {
      LeafIs(img, base, d, n - 1, j);
    }
  }

  function BranchAt(img: Image, base: dword, e: int): Branch {
    var entry := Entry(TypeCaption(img, base, DwordAt(img, e), WordAt(img, e)), TopBit(DwordAt(img, e + 4)), Target(img, base, e));
    Branch(entry, if entry.isDirectory then Leaves(img, base, entry.target) else [])
  }

  function Branches(img: Image, base: dword): seq<Branch> { BranchesUpTo(img, base, EntryCount(img, base)) }

  function BranchesUpTo(img: Image, base: dword, n: nat): (r: seq<Branch>)
    ensures |r| == n
  {
    if n == 0 then [] else BranchesUpTo(img, base, n - 1) + [BranchAt(img, base, base + 16 + 8 * (n - 1))]
  }

  /** Directory 2 leads to the root of the resources. */
  function ResourceBase(img: Image): dword { U32(Foa(img, DirectoryRva(img, 2)) + img.fileBuff) }

  // ----- The tree control: a node's handle is its number in order of insertion -----

  datatype Node = Node(caption: Cell, parent: Option<nat>)

  /** The nodes, and the global map from handles to directories. */
  datatype View = View(nodes: seq<Node>, firstMap: map<nat, dword>)

  function AddNode(v: View, e: Entry, parent: Option<nat>): View {
    View(v.nodes + [Node(e.caption, parent)], if e.isDirectory then v.firstMap[|v.nodes| := e.target] else v.firstMap)
  }

  function AddLeaves(v: View, root: nat, leaves: seq<Entry>, n: nat): (r: View)
    requires n <= |leaves|
    ensures |r.nodes| == |v.nodes| + n
  {
    if n == 0 then v else AddNode(AddLeaves(v, root, leaves, n - 1), leaves[n - 1], Some(root))
  }

  function AddBranch(v: View, b: Branch): (r: View)
    ensures |r.nodes| == |v.nodes| + 1 + |b.leaves|
  {
    AddLeaves(AddNode(v, b.entry, None), |v.nodes|, b.leaves, |b.leaves|)
  }

  function AddBranches(v: View, bs: seq<Branch>, n: nat): (r: View)
    requires n <= |bs|
  {
    if n == 0 then v else AddBranch(AddBranches(v, bs, n - 1), bs[n - 1])
  }

  // The same, entry by entry.
  function TypesWalk(v: View, img: Image, base: dword, n: nat): View {
    if n == 0 then v else AddBranch(TypesWalk(v, img, base, n - 1), BranchAt(img, base, base + 16 + 8 * (n - 1)))
  }

  lemma {:induction false} TypesWalkMeans(v: View, img: Image, base: dword, n: nat)
    ensures TypesWalk(v, img, base, n) == AddBranches(v, BranchesUpTo(img, base, n), n)
    decreases n
  {
    if n == 0 {
    } else {
      TypesWalkMeans(v, img, base, n - 1);
      OneMoreBranch(v, BranchesUpTo(img, base, n - 1), BranchAt(img, base, base + 16 + 8 * (n - 1)));
    }
  }

  function Filled(v: View, img: Image, base: dword): View { var bs := Branches(img, base); AddBranches(v, bs, |bs|) }

  lemma WholeWalk(v: View, img: Image, base: dword, count: nat)
    requires count == EntryCount(img, base)
    ensures TypesWalk(v, img, base, count) == Filled(v, img, base)
  {
    TypesWalkMeans(v, img, base, count);
  }

  lemma OneMoreBranch(v: View, bs: seq<Branch>, b: Branch)
    ensures AddBranches(v, bs + [b], |bs| + 1) == AddBranch(AddBranches(v, bs, |bs|), b)
  {
    BranchesKept(v, bs, b, |bs|);
  }

  lemma {:induction false} BranchesKept(v: View, bs: seq<Branch>, b: Branch, n: nat)
    requires n <= |bs|
    ensures AddBranches(v, bs + [b], n) == AddBranches(v, bs, n)
  {
    if n == 0 {
    } else {
      BranchesKept(v, bs, b, n - 1);
    }
  }

  lemma AddLeavesStep(v: View, root: nat, img: Image, base: dword, d: dword, count: nat, j: nat)
    requires j < count
    ensures var leaves := LeavesUpTo(img, base, d, count);
            AddLeaves(v, root, leaves, j + 1)
            == AddNode(AddLeaves(v, root, leaves, j), LeafEntry(img, base, d + 16 + 8 * j), Some(root))
  {
    LeafIs(img, base, d, count, j);
  }

  // ----- Selecting a node -----

  /** What firstMap[h] yields: a missing key comes in as null. */
  function DirectoryOf(m: map<nat, dword>, h: nat): dword { if h in m then m[h] else 0 }

  function Indexed(m: map<nat, dword>, h: nat): (r: map<nat, dword>)
    ensures forall k :: DirectoryOf(r, k) == DirectoryOf(m, k)
  {
    if h in m then m else m[h := 0]
  }

  /** The first data entry of a third-level directory; its offset is used with the top bit in place. */
  function DataEntry(img: Image, base: dword, third: dword): dword { U32(DwordAt(img, third + 20) + base) }

  datatype Data = Data(rva: dword, foa: dword, size: dword)

  function DataShown(img: Image, base: dword, third: dword): Data {
    var d := DataEntry(img, base, third);
    Data(DwordAt(img, d), Foa(img, DwordAt(img, d)), DwordAt(img, d + 4))
  }

  /** Selecting a root reads its own directory, selecting a leaf its parent's and its own. */
  predicate SafeToSelect(v: View, h: nat)
    requires h < |v.nodes|
  {
    match v.nodes[h].parent
    case None => DirectoryOf(v.firstMap, h) != 0
    case Some(p) => DirectoryOf(v.firstMap, p) != 0 && DirectoryOf(v.firstMap, h) != 0
  }

  /** The selection may add null entries to the map. */
  function AfterSelect(v: View, h: nat): View
    requires h < |v.nodes|
  {
    match v.nodes[h].parent
    case None => View(v.nodes, Indexed(v.firstMap, h))
    case Some(p) => View(v.nodes, Indexed(Indexed(v.firstMap, p), h))
  }

  class ResTableDialog {
    var objResTree: seq<Node>
    var firstMap: map<nat, dword>
    var resourceBase: dword
    // The numbers in the edit boxes: entry counts of the root and of the selected directory, and the
    // address and size of the selected data.
    var namedFirst: word
    var idFirst: word
    var namedSec: word
    var idSec: word
    var data: Option<Data>

    // The global map is as earlier dialogs left it.
    constructor (leftOver: map<nat, dword>)
      ensures objResTree == [] && firstMap == leftOver
    {
      objResTree, firstMap, resourceBase := [], leftOver, 0;
      namedFirst, idFirst, namedSec, idSec, data := 0, 0, 0, 0, None;
    }

    ghost function Shown(): View
      reads this
    {
      View(objResTree, firstMap)
    }

    /** Fills the new, empty tree from the resource directories. */
    method GetResTableInfo(img: Image)
      requires objResTree == []
      modifies this
      ensures resourceBase == ResourceBase(img) && namedFirst == NamedEntries(img, resourceBase) && idFirst == IdEntries(img, resourceBase)
      ensures var bs := Branches(img, resourceBase); Shown() == AddBranches(View([], old(firstMap)), bs, |bs|)
      ensures namedSec == old(namedSec) && idSec == old(idSec) && data == old(data)
    {
      resourceBase := ResourceBase(img);
      namedFirst, idFirst := NamedEntries(img, resourceBase), IdEntries(img, resourceBase);
      FillTree(img);
    }

    method FillTree(img: Image)
      modifies this`objResTree, this`firstMap
      ensures Shown() == Filled(old(Shown()), img, resourceBase)
    {
      var count: nat := EntryCount(img, resourceBase);
      WholeWalk(Shown(), img, resourceBase, count);
      InsertTypes(img, count);
    }

    // The outer loop.
    method InsertTypes(img: Image, count: nat)
      modifies this`objResTree, this`firstMap
      ensures Shown() == TypesWalk(old(Shown()), img, resourceBase, count)
    {
      var firstTable: int := resourceBase + 16;
      ghost var v0 := Shown();
      var i := 0;
      while i < count
        invariant 0 <= i <= count && firstTable == resourceBase + 16 + 8 * i
        invariant Shown() == TypesWalk(v0, img, resourceBase, i)
      {
        InsertNext(img, firstTable, v0, i);
        firstTable := firstTable + 8;
        i := i + 1;
      }
    }

    method InsertNext(img: Image, firstTable: int, ghost v0: View, ghost i: nat)
      requires firstTable == resourceBase + 16 + 8 * i && Shown() == TypesWalk(v0, img, resourceBase, i)
      modifies this`objResTree, this`firstMap
      ensures Shown() == TypesWalk(v0, img, resourceBase, i + 1)
    {
      InsertType(img, firstTable);
    }

    // One turn of the outer loop.
    method InsertType(img: Image, firstTable: int)
      modifies this`objResTree, this`firstMap
      ensures Shown() == AddBranch(old(Shown()), BranchAt(img, resourceBase, firstTable))
    {
      ghost var v0 := Shown();
      var name := DwordAt(img, firstTable);
      var strClassName;
      if !TopBit(name) {
        strClassName := Txt(TypeName(WordAt(img, firstTable)));
      } else {
        strClassName := Txt(NameString(img, resourceBase, name));
      }
      var hRoot := |objResTree|;
      objResTree := objResTree + [Node(strClassName, None)];
      if TopBit(DwordAt(img, firstTable + 4)) {
        var second := Target(img, resourceBase, firstTable);
        firstMap := firstMap[hRoot := second];
        InsertLeaves(img, second, hRoot);
      }
    }

    // The inner loop.
    method InsertLeaves(img: Image, second: dword, hRoot: nat)
      modifies this`objResTree, this`firstMap
      ensures var leaves := Leaves(img, resourceBase, second);
              Shown() == AddLeaves(old(Shown()), hRoot, leaves, |leaves|)
    {
      ghost var v0, leaves := Shown(), Leaves(img, resourceBase, second);
      var resourceCount := NamedEntries(img, second) as int + IdEntries(img, second) as int;
      var secondTable: int := second + 16;
      var j := 0;
      while j < resourceCount
        invariant 0 <= j <= resourceCount && secondTable == second + 16 + 8 * j
        invariant Shown() == AddLeaves(v0, hRoot, leaves, j)
      {
        AddLeavesStep(v0, hRoot, img, resourceBase, second, resourceCount, j);
        var name := DwordAt(img, secondTable);
        var hLeaf := |objResTree|;
        if !TopBit(name) {
          objResTree := objResTree + [Node(DecN(WordAt(img, secondTable)), Some(hRoot))];
          if TopBit(DwordAt(img, secondTable + 4)) {
            firstMap := firstMap[hLeaf := Target(img, resourceBase, secondTable)];
          }
        } else {
          objResTree := objResTree + [Node(Txt(NameString(img, resourceBase, name)), Some(hRoot))];
          if TopBit(DwordAt(img, secondTable + 4)) {
            firstMap := firstMap[hLeaf := Target(img, resourceBase, secondTable)];
          }
        }
        secondTable := secondTable + 8;
        j := j + 1;
      }
    }

    /** The selection event. It fails where the source reads through a null pointer. */
    method OnSelchangedTree1(img: Image, hCurNode: nat) returns (ok: bool)
      requires hCurNode < |objResTree|
      modifies this`firstMap, this`namedSec, this`idSec, this`data
      ensures ok == SafeToSelect(old(Shown()), hCurNode)
      ensures ok ==> Shown() == AfterSelect(old(Shown()), hCurNode)
      ensures ok ==> match objResTree[hCurNode].parent
                     case None => var first := DirectoryOf(firstMap, hCurNode);
                                  namedSec == NamedEntries(img, first) && idSec == IdEntries(img, first) && data == None
                     case Some(p) => var second := DirectoryOf(firstMap, p);
                                     && namedSec == NamedEntries(img, second) && idSec == IdEntries(img, second)
                                     && data == Some(DataShown(img, resourceBase, DirectoryOf(firstMap, hCurNode)))
    {
      var hparent := objResTree[hCurNode].parent;
      if hparent == None {
        firstMap := Indexed(firstMap, hCurNode);
        var firstTable := firstMap[hCurNode];
        if firstTable == 0 { return false; }
        namedSec, idSec := NamedEntries(img, firstTable), IdEntries(img, firstTable);
        data := None;
        return true;
      } else {
        firstMap := Indexed(firstMap, hparent.value);
        var secondTable := firstMap[hparent.value];
        if secondTable == 0 { return false; }
        namedSec, idSec := NamedEntries(img, secondTable), IdEntries(img, secondTable);
        ok := GetDataEntryInfo(img, hCurNode);
      }
    }

    method GetDataEntryInfo(img: Image, hTree: nat) returns (ok: bool)
      modifies this`firstMap, this`data
      ensures ok == (DirectoryOf(old(firstMap), hTree) != 0)
      ensures firstMap == Indexed(old(firstMap), hTree)
      ensures ok ==> data == Some(DataShown(img, resourceBase, DirectoryOf(firstMap, hTree)))
    {
      firstMap := Indexed(firstMap, hTree);
      var third := firstMap[hTree];
      if third == 0 { return false; }
      var entry: int := DataEntry(img, resourceBase, third);
      var rva, size := DwordAt(img, entry), DwordAt(img, entry + 4);
      data := Some(Data(rva, Foa(img, rva), size));
      return true;
    }
  }

  // ----- The shape of the tree -----

  /** The handle of root i: the roots before it and their leaves come first. */
  function RootPos(bs: seq<Branch>, i: nat): nat
    requires i <= |bs|
  {
    if i == 0 then 0 else RootPos(bs, i - 1) + 1 + |bs[i - 1].leaves|
  }

  /** What a handle leads to once its entry is in: its own directory, or, if it is none, whatever an earlier
      dialog left under the same handle. */
  function Mapped(e: Entry, leftOver: map<nat, dword>, h: nat): dword {
    if e.isDirectory then e.target else DirectoryOf(leftOver, h)
  }

  lemma {:induction false} LeavesKeep(v: View, root: nat, leaves: seq<Entry>, n: nat, h: nat)
    requires n <= |leaves|
    ensures var w := AddLeaves(v, root, leaves, n);
            && (h < |v.nodes| ==> w.nodes[h] == v.nodes[h])
            && (h < |v.nodes| || h >= |w.nodes| ==> DirectoryOf(w.firstMap, h) == DirectoryOf(v.firstMap, h))
    decreases n
  {
    if n == 0 {
    } else {
      LeavesKeep(v, root, leaves, n - 1, h);
    }
  }

  lemma {:induction false} LeafAdded(v: View, root: nat, leaves: seq<Entry>, n: nat, j: nat)
    requires j < n <= |leaves|
    ensures var w, h := AddLeaves(v, root, leaves, n), |v.nodes| + j;
            w.nodes[h] == Node(leaves[j].caption, Some(root)) && DirectoryOf(w.firstMap, h) == Mapped(leaves[j], v.firstMap, h)
    decreases n
  {
    if j < n - 1 {
      LeafAdded(v, root, leaves, n - 1, j);
    } else {
      LeavesKeep(v, root, leaves, n - 1, |v.nodes| + j);
    }
  }

  lemma {:induction false} NodeCount(leftOver: map<nat, dword>, bs: seq<Branch>, n: nat)
    requires n <= |bs|
    ensures |AddBranches(View([], leftOver), bs, n).nodes| == RootPos(bs, n)
  {
    if n == 0 {
    } else {
      NodeCount(leftOver, bs, n - 1);
    }
  }

  lemma BranchKeeps(v: View, b: Branch, h: nat)
    ensures var w := AddBranch(v, b);
            && (h < |v.nodes| ==> w.nodes[h] == v.nodes[h])
            && (h < |v.nodes| || h >= |w.nodes| ==> DirectoryOf(w.firstMap, h) == DirectoryOf(v.firstMap, h))
  {
    LeavesKeep(AddNode(v, b.entry, None), |v.nodes|, b.leaves, |b.leaves|, h);
  }

  lemma {:induction false} FreeHandles(leftOver: map<nat, dword>, bs: seq<Branch>, n: nat, h: nat)
    requires n <= |bs| && h >= RootPos(bs, n)
    ensures DirectoryOf(AddBranches(View([], leftOver), bs, n).firstMap, h) == DirectoryOf(leftOver, h)
    decreases n
  {
    if n == 0 {
    } else {
      var v := AddBranches(View([], leftOver), bs, n - 1);
      FreeHandles(leftOver, bs, n - 1, h);
      NodeCount(leftOver, bs, n - 1);
      BranchKeeps(v, bs[n - 1], h);
    }
  }

  lemma BranchAdded(v: View, b: Branch)
    ensures var w, h := AddBranch(v, b), |v.nodes|;
            w.nodes[h] == Node(b.entry.caption, None) && DirectoryOf(w.firstMap, h) == Mapped(b.entry, v.firstMap, h)
  {
    LeavesKeep(AddNode(v, b.entry, None), |v.nodes|, b.leaves, |b.leaves|, |v.nodes|);
  }

  lemma BranchLeafAdded(v: View, b: Branch, j: nat)
    requires j < |b.leaves|
    ensures var w, h := AddBranch(v, b), |v.nodes| + 1 + j;
            w.nodes[h] == Node(b.leaves[j].caption, Some(|v.nodes|)) && DirectoryOf(w.firstMap, h) == Mapped(b.leaves[j], v.firstMap, h)
  {
    LeafAdded(AddNode(v, b.entry, None), |v.nodes|, b.leaves, |b.leaves|, j);
  }

  /** Root i of the tree is entry i of the first level, at its place in table order, mapped to its own
      second-level directory. */
  lemma {:induction false} RootShape(leftOver: map<nat, dword>, bs: seq<Branch>, n: nat, i: nat)
    requires i < n <= |bs|
    ensures var w, h := AddBranches(View([], leftOver), bs, n), RootPos(bs, i);
            h < |w.nodes| && w.nodes[h] == Node(bs[i].entry.caption, None) && DirectoryOf(w.firstMap, h) == Mapped(bs[i].entry, leftOver, h)
    decreases n
  {
    var v, h := AddBranches(View([], leftOver), bs, n - 1), RootPos(bs, i);
    NodeCount(leftOver, bs, n - 1);
    if i < n - 1 {
      RootShape(leftOver, bs, n - 1, i);
      BranchKeeps(v, bs[n - 1], h);
    } else {
      FreeHandles(leftOver, bs, n - 1, h);
      BranchAdded(v, bs[i]);
    }
  }

  /** Leaf j below root i is entry j of that root's directory, mapped to its own third-level directory. */
  lemma {:induction false} LeafShape(leftOver: map<nat, dword>, bs: seq<Branch>, n: nat, i: nat, j: nat)
    requires i < n <= |bs| && j < |bs[i].leaves|
    ensures var w, h := AddBranches(View([], leftOver), bs, n), RootPos(bs, i) + 1 + j;
            && h < |w.nodes| && w.nodes[h] == Node(bs[i].leaves[j].caption, Some(RootPos(bs, i)))
            && DirectoryOf(w.firstMap, h) == Mapped(bs[i].leaves[j], leftOver, h)
    decreases n
  {
    var v, h := AddBranches(View([], leftOver), bs, n - 1), RootPos(bs, i) + 1 + j;
    NodeCount(leftOver, bs, n - 1);
    if i < n - 1 {
      LeafShape(leftOver, bs, n - 1, i, j);
      BranchKeeps(v, bs[n - 1], h);
    } else {
      FreeHandles(leftOver, bs, n - 1, h);
      BranchLeafAdded(v, bs[i], j);
    }
  }

  /** Every node is one of these: handle h is that of root i, or of leaf j below it. */
  lemma {:induction false} Locate(bs: seq<Branch>, n: nat, h: nat) returns (i: nat, j: int)
    requires n <= |bs| && h < RootPos(bs, n)
    ensures i < n && -1 <= j < |bs[i].leaves| && h == RootPos(bs, i) + 1 + j
    decreases n
  {
    if h < RootPos(bs, n - 1) {
      i, j := Locate(bs, n - 1, h);
    } else {
      i, j := n - 1, h - RootPos(bs, n - 1) - 1;
    }
  }

  // ----- Runs of selections -----

  predicate AreNodes(v: View, events: seq<nat>) { forall k :: 0 <= k < |events| ==> events[k] < |v.nodes| }

  /** A run of selection events ends well if none of them reads through a null pointer. */
  predicate RunSafe(v: View, events: seq<nat>)
    requires AreNodes(v, events)
  {
    events == [] || (SafeToSelect(v, events[0]) && RunSafe(AfterSelect(v, events[0]), events[1..]))
  }

  /** The null entries that selections add change no later one. */
  lemma {:induction false} RunIsEachSafe(v: View, events: seq<nat>)
    requires AreNodes(v, events)
    ensures RunSafe(v, events) <==> forall k :: 0 <= k < |events| ==> SafeToSelect(v, events[k])
    decreases |events|
  {
    if events == [] {
    } else {
      var w, rest := AfterSelect(v, events[0]), events[1..];
      RunIsEachSafe(w, rest);
      assert forall k :: 0 <= k < |rest| ==> SafeToSelect(w, rest[k]) == SafeToSelect(v, rest[k]);
      assert forall k :: 1 <= k < |events| ==> events[k] == rest[k - 1];
    }
  }

  /** After the walk, every handle of branch i leads somewhere. */
  predicate MappedBranch(leftOver: map<nat, dword>, bs: seq<Branch>, i: nat)
    requires i < |bs|
  {
    && Mapped(bs[i].entry, leftOver, RootPos(bs, i)) != 0
    && forall j :: 0 <= j < |bs[i].leaves| ==> Mapped(bs[i].leaves[j], leftOver, RootPos(bs, i) + 1 + j) != 0
  }

  predicate AllMapped(leftOver: map<nat, dword>, bs: seq<Branch>) {
    forall i :: 0 <= i < |bs| ==> MappedBranch(leftOver, bs, i)
  }

  lemma MappedIsSafe(leftOver: map<nat, dword>, bs: seq<Branch>, h: nat)
    requires AllMapped(leftOver, bs) && h < |AddBranches(View([], leftOver), bs, |bs|).nodes|
    ensures SafeToSelect(AddBranches(View([], leftOver), bs, |bs|), h)
  {
    NodeCount(leftOver, bs, |bs|);
    var i, j := Locate(bs, |bs|, h);
    assert MappedBranch(leftOver, bs, i);
    RootShape(leftOver, bs, |bs|, i);
    if j >= 0 { LeafShape(leftOver, bs, |bs|, i, j); }
  }

  lemma UnmappedIsNot(leftOver: map<nat, dword>, bs: seq<Branch>, i: nat) returns (h: nat)
    requires i < |bs| && !MappedBranch(leftOver, bs, i)
    ensures var w := AddBranches(View([], leftOver), bs, |bs|); h < |w.nodes| && !SafeToSelect(w, h)
  {
    RootShape(leftOver, bs, |bs|, i);
    h := RootPos(bs, i);
    if Mapped(bs[i].entry, leftOver, h) != 0 {
      var j :| 0 <= j < |bs[i].leaves| && Mapped(bs[i].leaves[j], leftOver, RootPos(bs, i) + 1 + j) == 0;
      LeafShape(leftOver, bs, |bs|, i, j);
      h := RootPos(bs, i) + 1 + j;
    }
  }

  /** In every dialog, whatever earlier ones left in the map: no selection reads through null if and only if
      each entry of the first two levels is a directory that is not at null, or has a handle under which an
      earlier dialog left one. */
  lemma SafeExactly(leftOver: map<nat, dword>, bs: seq<Branch>)
    ensures var w := AddBranches(View([], leftOver), bs, |bs|);
            AllMapped(leftOver, bs) <==> forall h :: 0 <= h < |w.nodes| ==> SafeToSelect(w, h)
  {
    var w := AddBranches(View([], leftOver), bs, |bs|);
    if AllMapped(leftOver, bs) {
      forall h | 0 <= h < |w.nodes| ensures SafeToSelect(w, h) { MappedIsSafe(leftOver, bs, h); }
    } else {
      var i :| 0 <= i < |bs| && !MappedBranch(leftOver, bs, i);
      var h := UnmappedIsNot(leftOver, bs, i);
    }
  }

  predicate Leads(e: Entry) { e.isDirectory && e.target != 0 }

  predicate Directories(b: Branch) { Leads(b.entry) && forall j :: 0 <= j < |b.leaves| ==> Leads(b.leaves[j]) }

  predicate AllDirectories(bs: seq<Branch>) { forall i :: 0 <= i < |bs| ==> Directories(bs[i]) }

  lemma DirectoriesAreMapped(leftOver: map<nat, dword>, bs: seq<Branch>)
    requires AllDirectories(bs)
    ensures AllMapped(leftOver, bs)
  {
    forall i | 0 <= i < |bs| ensures MappedBranch(leftOver, bs, i) { assert Directories(bs[i]); }
  }

  /** On a tree whose first two levels are directories, every selection reads a mapped, non-null entry, over
      any run, and whatever an earlier dialog left in the map. */
  lemma SelectionsAreSafe(leftOver: map<nat, dword>, bs: seq<Branch>, events: seq<nat>)
    requires AllDirectories(bs)
    requires AreNodes(AddBranches(View([], leftOver), bs, |bs|), events)
    ensures RunSafe(AddBranches(View([], leftOver), bs, |bs|), events)
  {
    DirectoriesAreMapped(leftOver, bs);
    SafeExactly(leftOver, bs);
    RunIsEachSafe(AddBranches(View([], leftOver), bs, |bs|), events);
  }

  /** In the first dialog that condition is also necessary: some selection fails as soon as one entry of
      the first two levels is not a directory. */
  lemma SafeOnlyForDirectories(bs: seq<Branch>)
    ensures var w := AddBranches(View([], map[]), bs, |bs|);
            AllDirectories(bs) <==> forall h :: 0 <= h < |w.nodes| ==> SafeToSelect(w, h)
  {
    SafeExactly(map[], bs);
    if AllDirectories(bs) {
      DirectoriesAreMapped(map[], bs);
    }
    if AllMapped(map[], bs) {
      forall i | 0 <= i < |bs| ensures Directories(bs[i]) { assert MappedBranch(map[], bs, i); }
    }
  }

  /** A tree of one type that is no directory: selecting it in the first dialog reads through null, while in a
      later one an entry left under the same handle answers instead. */
  lemma TypeWithoutDirectory()
    ensures var bs := [Branch(Entry(Txt("UnDefine"), false, 0), [])];
            && !AllDirectories(bs)
            && |AddBranches(View([], map[]), bs, 1).nodes| == 1
            && !SafeToSelect(AddBranches(View([], map[]), bs, 1), 0)
            && SafeToSelect(AddBranches(View([], map[0 := 0x1000]), bs, 1), 0)
  {
    var bs := [Branch(Entry(Txt("UnDefine"), false, 0), [])];
    assert !Directories(bs[0]);
    RootShape(map[], bs, 1, 0);
    RootShape(map[0 := 0x1000], bs, 1, 0);
    NodeCount(map[], bs, 1);
  }
}
