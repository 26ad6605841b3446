/** The layout of an export directory (section "The .edata Section (Image Only)" of the Microsoft PE/COFF
    specification), and that the export view reads from it what was written. */
module ExportFormat {
  import opened Words
  import opened ByteOrder
  import opened Layout
  import opened PeImage
  import opened ExportTable

  /** The directory and its tables: the four DWORDs in front, the ordinal base, where the three tables lie, their
      contents, and the names. */
  datatype ExportData = ExportData(
    head: seq<dword>, ordinalBase: dword, functionsRva: dword, namesRva: dword, ordinalsRva: dword,
    functions: seq<dword>, ordinals: seq<word>, nameRvas: seq<dword>, names: seq<string>)

  function DirectoryFields(d: ExportData): seq<dword>
    requires |d.functions| < 0x1_0000_0000 && |d.names| < 0x1_0000_0000
  {
    d.head + [d.ordinalBase, |d.functions|, |d.names|, d.functionsRva, d.namesRva, d.ordinalsRva]
  }

  predicate ExportsAt(img: Image, d: ExportData) {
    && ReadsMemory(img)
    && |d.head| == 4 && |d.functions| < 0x1_0000_0000 && |d.names| < 0x1_0000_0000
    && |d.ordinals| == |d.names| == |d.nameRvas|
    && FileHolds(img, DirectoryRva(img, 0), EncodeDwords(DirectoryFields(d)))
    && FileHolds(img, d.functionsRva, EncodeDwords(d.functions))
    && FileHolds(img, d.namesRva, EncodeDwords(d.nameRvas))
    && FileHolds(img, d.ordinalsRva, EncodeWords(d.ordinals))
    && (forall i :: 0 <= i < |d.names| ==> NameLies(img, d.nameRvas[i], d.names[i]))
  }

  lemma {:induction false} DwordsRead(img: Image, a: nat, vs: seq<dword>)
    requires ReadsMemory(img) && Holds(img.mem, Field(a, EncodeDwords(vs)))
    ensures DwordsFrom(img, a, |vs|) == vs
    decreases |vs|
  {
    if vs == [] {
    } else {
      HoldsBoth(img.mem, a, StoreLE(4, vs[0]), EncodeDwords(vs[1..]));
      ReadsDword(img, a, vs[0]);
      DwordsRead(img, a + 4, vs[1..]);
    }
  }

  lemma {:induction false} WordsRead(img: Image, a: nat, vs: seq<word>)
    requires ReadsMemory(img) && Holds(img.mem, Field(a, EncodeWords(vs)))
    ensures WordsFrom(img, a, |vs|) == vs
    decreases |vs|
  {
    if vs == [] {
    } else {
      HoldsBoth(img.mem, a, StoreLE(2, vs[0]), EncodeWords(vs[1..]));
      ReadsWord(img, a, vs[0]);
      WordsRead(img, a + 2, vs[1..]);
    }
  }

  lemma NameRead(img: Image, rva: dword, text: string)
    requires NameLies(img, rva, text)
    ensures TextAt(img, Pointer(img, rva)) == text
  {
    ReadsName(img, rva, text);
  }

  lemma {:induction false} NamesRead(img: Image, a: nat, rvas: seq<dword>, names: seq<string>)
    requires ReadsMemory(img) && |rvas| == |names| && Holds(img.mem, Field(a, EncodeDwords(rvas)))
    requires forall i :: 0 <= i < |names| ==> NameLies(img, rvas[i], names[i])
    ensures NamesFrom(img, a, |names|) == names
    decreases |names|
  {
    if names == [] {
    } else {
      HoldsBoth(img.mem, a, StoreLE(4, rvas[0]), EncodeDwords(rvas[1..]));
      ReadsDword(img, a, rvas[0]);
      NameRead(img, rvas[0], names[0]);
      NamesRead(img, a + 4, rvas[1..], names[1..]);
    }
  }

  lemma TableAddress(img: Image, rva: dword, bytes: seq<byte>)
    requires FileHolds(img, rva, bytes)
    ensures Holds(img.mem, Field(Pointer(img, rva), bytes))
  {
  }

  lemma FieldsRead(img: Image, d: ExportData)
    requires ExportsAt(img, d)
    ensures ExportsOf(img)
            == TablesOf(img, d.ordinalBase, |d.functions|, |d.names|, d.functionsRva, d.namesRva, d.ordinalsRva)
  {
    SixFieldsRead(img, d);
  }

  lemma SixFieldsRead(img: Image, d: ExportData)
    requires ExportsAt(img, d)
    ensures var t := Pointer(img, DirectoryRva(img, 0));
            && DwordAt(img, t + 16) == d.ordinalBase && DwordAt(img, t + 20) == |d.functions|
            && DwordAt(img, t + 24) == |d.names| && DwordAt(img, t + 28) == d.functionsRva
            && DwordAt(img, t + 32) == d.namesRva && DwordAt(img, t + 36) == d.ordinalsRva
  {
    FieldValues(d);
    DirectoryRead(img, DirectoryRva(img, 0), DirectoryFields(d));
  }

  lemma FieldValues(d: ExportData)
    requires |d.head| == 4 && |d.functions| < 0x1_0000_0000 && |d.names| < 0x1_0000_0000
    ensures var f := DirectoryFields(d);
            |f| == 10 && f[4..] == [d.ordinalBase, |d.functions|, |d.names|, d.functionsRva, d.namesRva, d.ordinalsRva]
            && f[4] == d.ordinalBase && f[5] == |d.functions| && f[6] == |d.names|
            && f[7] == d.functionsRva && f[8] == d.namesRva && f[9] == d.ordinalsRva
  {
  }

  lemma DirectoryRead(img: Image, rva: dword, fields: seq<dword>)
    requires ReadsMemory(img) && |fields| == 10 && FileHolds(img, rva, EncodeDwords(fields))
    ensures var t := Pointer(img, rva);
            && DwordAt(img, t + 16) == fields[4] && DwordAt(img, t + 20) == fields[5] && DwordAt(img, t + 24) == fields[6]
            && DwordAt(img, t + 28) == fields[7] && DwordAt(img, t + 32) == fields[8] && DwordAt(img, t + 36) == fields[9]
  {
    TableAddress(img, rva, EncodeDwords(fields));
    var a := Foa(img, rva) + img.fileBuff;
    ReadsDwords(img, a, fields, 4); ReadsDwords(img, a, fields, 5); ReadsDwords(img, a, fields, 6);
    ReadsDwords(img, a, fields, 7); ReadsDwords(img, a, fields, 8); ReadsDwords(img, a, fields, 9);
  }

  lemma TablesRead(img: Image, d: ExportData)
    requires ExportsAt(img, d)
    ensures TablesOf(img, d.ordinalBase, |d.functions|, |d.names|, d.functionsRva, d.namesRva, d.ordinalsRva)
            == Exports(d.ordinalBase, d.functions, d.ordinals, d.names)
  {
    TableAddress(img, d.functionsRva, EncodeDwords(d.functions));
    DwordsRead(img, Pointer(img, d.functionsRva), d.functions);
    TableAddress(img, d.ordinalsRva, EncodeWords(d.ordinals));
    WordsRead(img, Pointer(img, d.ordinalsRva), d.ordinals);
    TableAddress(img, d.namesRva, EncodeDwords(d.nameRvas));
    NamesRead(img, Pointer(img, d.namesRva), d.nameRvas, d.names);
  }

  /** The view reads back the ordinal base, the function addresses, and the ordinals with their names. */
  lemma ExportsRead(img: Image, d: ExportData)
    requires ExportsAt(img, d)
    ensures ExportsOf(img) == Exports(d.ordinalBase, d.functions, d.ordinals, d.names)
  {
    FieldsRead(img, d);
    TablesRead(img, d);
  }
}
