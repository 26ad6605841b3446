/** The layout of a three-level resource tree (section "The .rsrc Section" of the Microsoft PE/COFF
    specification), and that the resource view reads from it what was written. */
module ResFormat {
  import opened Words
  import opened ByteOrder
  import opened Text
  import opened Layout
  import opened PeImage
  import opened ResTable
  import opened Wrappers

  /** An entry is named by a number or by a text that lies at an offset, and leads to a directory or to data at an
      offset. All offsets count from the root directory. */
  datatype ResName = Numbered(id: nat) | Titled(offset: nat, text: string)

  datatype ResEntry = ResEntry(name: ResName, isDirectory: bool, offset: nat)

  /** A directory: three DWORDs, how many entries are named and how many numbered, and the entries. */
  datatype ResDirectory = ResDirectory(head: seq<dword>, named: word, numbered: word, entries: seq<ResEntry>)

  predicate ValidEntry(e: ResEntry) {
    e.offset < 0x8000_0000 && (if e.name.Titled? then e.name.offset else e.name.id) < 0x8000_0000
  }

  function NameField(e: ResEntry): dword
    requires ValidEntry(e)
  {
    if e.name.Titled? then 0x8000_0000 + e.name.offset else e.name.id
  }

  function DataField(e: ResEntry): dword
    requires ValidEntry(e)
  {
    if e.isDirectory then 0x8000_0000 + e.offset else e.offset
  }

  predicate ValidEntries(es: seq<ResEntry>) { forall i :: 0 <= i < |es| ==> ValidEntry(es[i]) }

  function EncodeEntries(es: seq<ResEntry>): (s: seq<byte>)
    requires ValidEntries(es)
    ensures |s| == 8 * |es|
  {
    if es == [] then [] else EncodeDwords([NameField(es[0]), DataField(es[0])]) + EncodeEntries(es[1..])
  }

  function EncodeDirectory(d: ResDirectory): seq<byte>
    requires ValidEntries(d.entries)
  {
    EncodeDwords(d.head) + (EncodeWords([d.named, d.numbered]) + EncodeEntries(d.entries))
  }

  /** A title: its length, which the view does not read, and its characters, ended by a zero. */
  predicate TitleAt(img: Image, base: dword, name: ResName) {
    name.Titled? ==> Wide(name.text) && |name.text| < 0x1_0000
                     && Holds(img.mem, Field(base + name.offset, StoreLE(2, |name.text|) + EncodeWords(Units(name.text))))
  }

  /** The directory lies at an address, and its titles where its entries say. */
  predicate DirectoryAt(img: Image, base: dword, a: int, d: ResDirectory) {
    && 0 <= a < 0x1_0000_0000 && |d.head| == 3 && ValidEntries(d.entries) && d.named as int + d.numbered as int == |d.entries|
    && Holds(img.mem, Field(a, EncodeDirectory(d)))
    && forall i :: 0 <= i < |d.entries| ==> TitleAt(img, base, d.entries[i].name)
  }

  // ----- Reading a directory -----

  lemma {:induction false} EntryLies(mem: seq<byte>, a: nat, es: seq<ResEntry>, i: nat)
    requires ValidEntries(es) && Holds(mem, Field(a, EncodeEntries(es))) && i < |es|
    ensures Holds(mem, Field(a + 8 * i, EncodeDwords([NameField(es[i]), DataField(es[i])])))
    decreases i
  {
    HoldsBoth(mem, a, EncodeDwords([NameField(es[0]), DataField(es[0])]), EncodeEntries(es[1..]));
    if i == 0 {
    } else {
      EntryLies(mem, a + 8, es[1..], i - 1);
    }
  }

  lemma PartsLie(mem: seq<byte>, a: nat, d: ResDirectory)
    requires |d.head| == 3 && ValidEntries(d.entries) && Holds(mem, Field(a, EncodeDirectory(d)))
    ensures Holds(mem, Field(a + 12, EncodeWords([d.named, d.numbered]))) && Holds(mem, Field(a + 16, EncodeEntries(d.entries)))
  {
    HoldsBoth(mem, a, EncodeDwords(d.head), EncodeWords([d.named, d.numbered]) + EncodeEntries(d.entries));
    HoldsBoth(mem, a + 12, EncodeWords([d.named, d.numbered]), EncodeEntries(d.entries));
  }

  lemma CountsRead(img: Image, base: dword, a: int, d: ResDirectory)
    requires ReadsMemory(img) && DirectoryAt(img, base, a, d)
    ensures NamedEntries(img, a) == d.named && IdEntries(img, a) == d.numbered && EntryCount(img, a) == |d.entries|
  {
    PartsLie(img.mem, a, d);
    ReadsWords(img, a + 12, [d.named, d.numbered], 0);
    ReadsWords(img, a + 12, [d.named, d.numbered], 1);
  }

  lemma FieldsRead(img: Image, e: int, name: dword, data: dword)
    requires ReadsMemory(img) && 0 <= e && Holds(img.mem, Field(e, EncodeDwords([name, data])))
    ensures DwordAt(img, e) == name && DwordAt(img, e + 4) == data && WordAt(img, e) == name % 0x1_0000
  {
    ReadsDwords(img, e, [name, data], 0);
    ReadsDwords(img, e, [name, data], 1);
    assert EncodeDwords([name, data]) == StoreLE(4, name) + EncodeDwords([data]) by { assert [name, data][1..] == [data]; }
    HoldsBoth(img.mem, e, StoreLE(4, name), EncodeDwords([data]));
    ReadsLowWord(img, e, name);
  }

  lemma TitleRead(img: Image, base: dword, name: ResName)
    requires ReadsMemory(img) && |img.mem| <= 0x1_0000_0000 && name.Titled? && name.offset < 0x8000_0000 && TitleAt(img, base, name)
    ensures NameString(img, base, 0x8000_0000 + name.offset) == name.text
  {
    var a := base + name.offset;
    HoldsBoth(img.mem, a, StoreLE(2, |name.text|), EncodeWords(Units(name.text)));
    ReadsWideText(img, a + 2, name.text);
    assert Low31(0x8000_0000 + name.offset) == name.offset by { ModUnique(0x8000_0000 + name.offset, 0x8000_0000, 1, name.offset); }
  }

  // ----- What the view should see -----

  function TypeSeen(e: ResEntry, base: dword): Entry {
    Entry(if e.name.Titled? then Txt(e.name.text) else Txt(TypeName(e.name.id % 0x1_0000)),
          e.isDirectory, (e.offset + base) % 0x1_0000_0000)
  }

  function LeafSeen(e: ResEntry, base: dword): Entry {
    Entry(if e.name.Titled? then Txt(e.name.text) else DecN(e.name.id % 0x1_0000),
          e.isDirectory, (e.offset + base) % 0x1_0000_0000)
  }

  lemma TargetRead(img: Image, base: dword, e: int, entry: ResEntry)
    requires ValidEntry(entry) && DwordAt(img, e + 4) == DataField(entry)
    ensures TopBit(DwordAt(img, e + 4)) == entry.isDirectory
    ensures Target(img, base, e) == (entry.offset + base) % 0x1_0000_0000
  {
    if entry.isDirectory {
      ModUnique(DataField(entry), 0x8000_0000, 1, entry.offset);
    } else {
      ModUnique(DataField(entry), 0x8000_0000, 0, entry.offset);
    }
    WrapIs(entry.offset + base);
  }

  lemma NameKind(entry: ResEntry)
    requires ValidEntry(entry)
    ensures TopBit(NameField(entry)) == entry.name.Titled?
  {
    if entry.name.Titled? {
      ModUnique(NameField(entry), 0x8000_0000, 1, entry.name.offset);
    } else {
      ModUnique(NameField(entry), 0x8000_0000, 0, entry.name.id);
    }
  }

  lemma EntryRead(img: Image, base: dword, e: int, entry: ResEntry)
    requires ReadsMemory(img) && |img.mem| <= 0x1_0000_0000 && 0 <= e && ValidEntry(entry) && TitleAt(img, base, entry.name)
    requires Holds(img.mem, Field(e, EncodeDwords([NameField(entry), DataField(entry)])))
    ensures LeafEntry(img, base, e) == LeafSeen(entry, base)
    ensures BranchAt(img, base, e).entry == TypeSeen(entry, base)
  {
    FieldsRead(img, e, NameField(entry), DataField(entry));
    TargetRead(img, base, e, entry);
    NameKind(entry);
    if entry.name.Titled? {
      TitleRead(img, base, entry.name);
    }
  }

  lemma DirectoryEntryRead(img: Image, base: dword, a: int, d: ResDirectory, i: nat)
    requires ReadsMemory(img) && |img.mem| <= 0x1_0000_0000 && DirectoryAt(img, base, a, d) && i < |d.entries|
    ensures LeafEntry(img, base, a + 16 + 8 * i) == LeafSeen(d.entries[i], base)
    ensures BranchAt(img, base, a + 16 + 8 * i).entry == TypeSeen(d.entries[i], base)
  {
    PartsLie(img.mem, a, d);
    EntryLies(img.mem, a + 16, d.entries, i);
    EntryRead(img, base, a + 16 + 8 * i, d.entries[i]);
  }

  // ----- The tree -----

  /** A third-level directory with the address and size that its first entry's data entry gives. */
  datatype Third = Third(directory: ResDirectory, rva: dword, size: dword)

  /** The three levels: below entry i of the root lies seconds[i], below its entry j lies thirds[i][j]. */
  datatype ResTree = ResTree(root: ResDirectory, seconds: seq<ResDirectory>, thirds: seq<seq<Third>>)

  predicate Shaped(t: ResTree) {
    && |t.seconds| == |t.thirds| == |t.root.entries|
    && forall i :: 0 <= i < |t.seconds| ==> |t.thirds[i]| == |t.seconds[i].entries|
  }

  predicate ThirdAt(img: Image, base: dword, a: int, t: Third) {
    && DirectoryAt(img, base, a, t.directory) && |t.directory.entries| > 0 && !t.directory.entries[0].isDirectory
    && Holds(img.mem, Field(base + t.directory.entries[0].offset, EncodeDwords([t.rva, t.size])))
  }

  /** Only directories are followed. */
  predicate TreeAt(img: Image, base: dword, t: ResTree) {
    && ReadsMemory(img) && |img.mem| <= 0x1_0000_0000 && Shaped(t)
    && DirectoryAt(img, base, base, t.root)
    && forall i :: 0 <= i < |t.seconds| && t.root.entries[i].isDirectory ==>
         SecondAt(img, base, base + t.root.entries[i].offset, t.seconds[i], t.thirds[i])
  }

  predicate SecondAt(img: Image, base: dword, a: int, d: ResDirectory, thirds: seq<Third>)
    requires |thirds| == |d.entries|
  {
    && DirectoryAt(img, base, a, d)
    && forall j :: 0 <= j < |thirds| && d.entries[j].isDirectory ==> ThirdAt(img, base, base + d.entries[j].offset, thirds[j])
  }

  lemma LeavesRead(img: Image, base: dword, a: dword, d: ResDirectory, n: nat, j: nat)
    requires ReadsMemory(img) && |img.mem| <= 0x1_0000_0000 && DirectoryAt(img, base, a, d) && j < n <= |d.entries|
    ensures LeavesUpTo(img, base, a, n)[j] == LeafSeen(d.entries[j], base)
  {
    LeafIs(img, base, a, n, j);
    DirectoryEntryRead(img, base, a, d, j);
  }

  lemma {:induction false} BranchIs(img: Image, base: dword, n: nat, i: nat)
    requires i < n
    ensures BranchesUpTo(img, base, n)[i] == BranchAt(img, base, base + 16 + 8 * i)
    decreases n
  {
    if i == n - 1 {
    } else {
      BranchIs(img, base, n - 1, i);
    }
  }

  /** What a directory at an address shows as the entries below a type. */
  lemma SecondRead(img: Image, base: dword, a: dword, d: ResDirectory, j: nat)
    requires ReadsMemory(img) && |img.mem| <= 0x1_0000_0000 && DirectoryAt(img, base, a, d)
    ensures |Leaves(img, base, a)| == |d.entries|
    ensures j < |d.entries| ==> Leaves(img, base, a)[j] == LeafSeen(d.entries[j], base)
  {
    CountsRead(img, base, a, d);
    if j < |d.entries| { LeavesRead(img, base, a, d, |d.entries|, j); }
  }

  lemma BranchRead(img: Image, base: dword, a: int, root: ResDirectory, i: nat, second: ResDirectory, j: nat)
    requires ReadsMemory(img) && |img.mem| <= 0x1_0000_0000 && DirectoryAt(img, base, a, root) && i < |root.entries|
    requires root.entries[i].isDirectory ==> DirectoryAt(img, base, base + root.entries[i].offset, second)
    ensures var b := BranchAt(img, base, a + 16 + 8 * i);
            && b.entry == TypeSeen(root.entries[i], base)
            && |b.leaves| == (if root.entries[i].isDirectory then |second.entries| else 0)
            && (root.entries[i].isDirectory && j < |second.entries| ==> b.leaves[j] == LeafSeen(second.entries[j], base))
  {
    DirectoryEntryRead(img, base, a, root, i);
    if root.entries[i].isDirectory {
      var below := base + root.entries[i].offset;
      ModUnique(below, 0x1_0000_0000, 0, below);
      SecondRead(img, base, below, second, j);
    }
  }

  lemma SecondLies(img: Image, base: dword, t: ResTree, i: nat)
    requires TreeAt(img, base, t) && i < |t.root.entries|
    ensures t.root.entries[i].isDirectory ==> SecondAt(img, base, base + t.root.entries[i].offset, t.seconds[i], t.thirds[i])
  {
  }

  /** The view finds one branch for each root entry, in table order, with its caption and target, and below a
      directory exactly its entries, in order, with theirs. */
  lemma TreeRead(img: Image, base: dword, t: ResTree, i: nat, j: nat)
    requires TreeAt(img, base, t) && i < |t.root.entries|
    ensures var bs := Branches(img, base);
            && |bs| == |t.root.entries| && bs[i].entry == TypeSeen(t.root.entries[i], base)
            && |bs[i].leaves| == (if t.root.entries[i].isDirectory then |t.seconds[i].entries| else 0)
            && (j < |bs[i].leaves| ==> bs[i].leaves[j] == LeafSeen(t.seconds[i].entries[j], base))
  {
    CountsRead(img, base, base, t.root);
    BranchIs(img, base, |t.root.entries|, i);
    SecondLies(img, base, t, i);
    BranchRead(img, base, base, t.root, i, t.seconds[i], j);
  }

  /** A leaf's third-level directory leads to the address and the size written. */
  lemma DataRead(img: Image, base: dword, a: int, t: Third)
    requires ReadsMemory(img) && |img.mem| <= 0x1_0000_0000 && ThirdAt(img, base, a, t)
    ensures DataShown(img, base, a) == Data(t.rva, Foa(img, t.rva), t.size)
  {
    var first := t.directory.entries[0];
    PartsLie(img.mem, a, t.directory);
    EntryLies(img.mem, a + 16, t.directory.entries, 0);
    FieldsRead(img, a + 16, NameField(first), DataField(first));
    var at := base + first.offset;
    FieldsRead(img, at, t.rva, t.size);
  }

  /** Data directory 2 leads to the root. */
  lemma RootFound(img: Image)
    requires Foa(img, DirectoryRva(img, 2)) + img.fileBuff < 0x1_0000_0000
    ensures ResourceBase(img) == Foa(img, DirectoryRva(img, 2)) + img.fileBuff
  {
  }

  lemma MappedNodes(leftOver: map<nat, dword>, bs: seq<Branch>, i: nat, j: nat)
    requires i < |bs| && j < |bs[i].leaves|
    requires bs[i].entry.isDirectory && bs[i].leaves[j].isDirectory
    ensures var w, root := AddBranches(View([], leftOver), bs, |bs|), RootPos(bs, i);
            && root + 1 + j < |w.nodes| && w.nodes[root + 1 + j] == Node(bs[i].leaves[j].caption, Some(root))
            && DirectoryOf(w.firstMap, root) == bs[i].entry.target
            && DirectoryOf(w.firstMap, root + 1 + j) == bs[i].leaves[j].target
  {
    RootShape(leftOver, bs, |bs|, i);
    LeafShape(leftOver, bs, |bs|, i, j);
  }

  /** Leaf j below root i: its place and caption, and the directories that the two nodes are mapped to. */
  predicate LeafStands(leftOver: map<nat, dword>, bs: seq<Branch>, i: nat, j: nat, base: dword, e: ResEntry,
      leaf: ResEntry)
    requires i < |bs|
  {
    var w, root := AddBranches(View([], leftOver), bs, |bs|), RootPos(bs, i);
    && root + 1 + j < |w.nodes|
    && w.nodes[root + 1 + j]
       == Node(if leaf.name.Titled? then Txt(leaf.name.text) else DecN(leaf.name.id % 0x1_0000), Some(root))
    && DirectoryOf(w.firstMap, root) == base + e.offset
    && DirectoryOf(w.firstMap, root + 1 + j) == base + leaf.offset
  }

  /** So in the filled tree the node of entry j below type i stands under the node of the type with its caption,
      and both are mapped to where their directories lie. */
  lemma LeafNode(img: Image, base: dword, t: ResTree, leftOver: map<nat, dword>, i: nat, j: nat)
    requires TreeAt(img, base, t)
    requires i < |t.root.entries| && t.root.entries[i].isDirectory
    requires j < |t.seconds[i].entries| && t.seconds[i].entries[j].isDirectory
    ensures var bs := Branches(img, base);
            i < |bs| && LeafStands(leftOver, bs, i, j, base, t.root.entries[i], t.seconds[i].entries[j])
  {
    TreeRead(img, base, t, i, j);
    OffsetsFit(img, base, t, i, j);
    SeenNodes(leftOver, Branches(img, base), i, j, base, t.root.entries[i], t.seconds[i].entries[j]);
  }

  lemma OffsetsFit(img: Image, base: dword, t: ResTree, i: nat, j: nat)
    requires TreeAt(img, base, t)
    requires i < |t.root.entries| && t.root.entries[i].isDirectory
    requires j < |t.seconds[i].entries| && t.seconds[i].entries[j].isDirectory
    ensures base + t.root.entries[i].offset < 0x1_0000_0000 && base + t.seconds[i].entries[j].offset < 0x1_0000_0000
  {
    DirectoriesLie(img, base, t, i, j);
  }

  lemma SeenNodes(leftOver: map<nat, dword>, bs: seq<Branch>, i: nat, j: nat, base: dword, e: ResEntry, leaf: ResEntry)
    requires i < |bs| && j < |bs[i].leaves| && e.isDirectory && leaf.isDirectory
    requires bs[i].entry == TypeSeen(e, base) && bs[i].leaves[j] == LeafSeen(leaf, base)
    requires base + e.offset < 0x1_0000_0000 && base + leaf.offset < 0x1_0000_0000
    ensures LeafStands(leftOver, bs, i, j, base, e, leaf)
  {
    MappedNodes(leftOver, bs, i, j);
    ModUnique(base + e.offset, 0x1_0000_0000, 0, base + e.offset);
    ModUnique(base + leaf.offset, 0x1_0000_0000, 0, base + leaf.offset);
  }

  lemma DirectoriesLie(img: Image, base: dword, t: ResTree, i: nat, j: nat)
    requires TreeAt(img, base, t)
    requires i < |t.root.entries| && t.root.entries[i].isDirectory
    requires j < |t.seconds[i].entries| && t.seconds[i].entries[j].isDirectory
    ensures DirectoryAt(img, base, base + t.root.entries[i].offset, t.seconds[i])
    ensures ThirdAt(img, base, base + t.seconds[i].entries[j].offset, t.thirds[i][j])
  {
    SecondLies(img, base, t, i);
    ThirdLies(img, base, base + t.root.entries[i].offset, t.seconds[i], t.thirds[i], j);
  }

  /** And there the selection finds the counts of the second-level directory, and the address and the size that
      the leaf's own third-level directory leads to. */
  lemma LeafShowsItsData(img: Image, base: dword, t: ResTree, i: nat, j: nat)
    requires TreeAt(img, base, t)
    requires i < |t.root.entries| && t.root.entries[i].isDirectory
    requires j < |t.seconds[i].entries| && t.seconds[i].entries[j].isDirectory
    ensures var second, third := base + t.root.entries[i].offset, base + t.seconds[i].entries[j].offset;
            && third < 0x1_0000_0000
            && NamedEntries(img, second) == t.seconds[i].named && IdEntries(img, second) == t.seconds[i].numbered
            && DataShown(img, base, third) == Data(t.thirds[i][j].rva, Foa(img, t.thirds[i][j].rva), t.thirds[i][j].size)
  {
    DirectoriesLie(img, base, t, i, j);
    CountsRead(img, base, base + t.root.entries[i].offset, t.seconds[i]);
    DataRead(img, base, base + t.seconds[i].entries[j].offset, t.thirds[i][j]);
  }

  lemma ThirdLies(img: Image, base: dword, a: int, d: ResDirectory, thirds: seq<Third>, j: nat)
    requires |thirds| == |d.entries| && SecondAt(img, base, a, d, thirds) && j < |thirds| && d.entries[j].isDirectory
    ensures ThirdAt(img, base, base + d.entries[j].offset, thirds[j])
    ensures 0 <= base + d.entries[j].offset < 0x1_0000_0000
  {
  }

  // ----- A tree -----

  function Head(): seq<dword> { [0, 0, 0] }

  /** One icon type with one numbered resource, whose data lies at RVA 0x5000. */
  function SampleTree(): ResTree {
    ResTree(ResDirectory(Head(), 0, 1, [ResEntry(Numbered(3), true, 0x18)]),
            [ResDirectory(Head(), 0, 1, [ResEntry(Numbered(101), true, 0x30)])],
            [[Third(ResDirectory(Head(), 0, 1, [ResEntry(Numbered(0x409), false, 0x48)]), 0x5000, 0x80)]])
  }

  lemma SampleTreeExists() returns (img: Image)
    ensures TreeAt(img, 0x1000, SampleTree())
  {
    var t := SampleTree();
    var root, second, third := t.root, t.seconds[0], t.thirds[0][0];
    OneEntryLength(root);
    OneEntryLength(second);
    OneEntryLength(third.directory);
    var fields := [Field(0x1000, EncodeDirectory(root)), Field(0x1018, EncodeDirectory(second)),
                   Field(0x1030, EncodeDirectory(third.directory)), Field(0x1048, EncodeDwords([third.rva, third.size]))];
    var mem := Written(0x1050, fields);
    FieldWritten(0x1050, fields, 0);
    FieldWritten(0x1050, fields, 1);
    FieldWritten(0x1050, fields, 2);
    FieldWritten(0x1050, fields, 3);
    img := Load(mem, 0, map[]);
    LoadedReadsMemory(mem, 0, map[]);
    SampleLies(img);
  }

  lemma OneEntryLength(d: ResDirectory)
    requires |d.head| == 3 && |d.entries| == 1 && ValidEntries(d.entries)
    ensures |EncodeDirectory(d)| == 24
  {
  }

  lemma SampleLies(img: Image)
    requires ReadsMemory(img) && |img.mem| == 0x1050
    requires var t := SampleTree();
             && Holds(img.mem, Field(0x1000, EncodeDirectory(t.root))) && Holds(img.mem, Field(0x1018, EncodeDirectory(t.seconds[0])))
             && Holds(img.mem, Field(0x1030, EncodeDirectory(t.thirds[0][0].directory)))
             && Holds(img.mem, Field(0x1048, EncodeDwords([t.thirds[0][0].rva, t.thirds[0][0].size])))
    ensures TreeAt(img, 0x1000, SampleTree())
  {
    var t := SampleTree();
    assert DirectoryAt(img, 0x1000, 0x1000, t.root);
    assert DirectoryAt(img, 0x1000, 0x1018, t.seconds[0]);
    assert DirectoryAt(img, 0x1000, 0x1030, t.thirds[0][0].directory);
    assert ThirdAt(img, 0x1000, 0x1030, t.thirds[0][0]);
    assert SecondAt(img, 0x1000, 0x1018, t.seconds[0], t.thirds[0]);
  }
}
