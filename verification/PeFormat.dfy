/** The headers of a PE file as bytes, and that the reads of the views find in them what was written. Layouts
    follow the Microsoft PE/COFF specification, sections "COFF File Header", "Optional Header Data Directories"
    and "Section Table". */
module PeFormat {
  import opened Words
  import opened ByteOrder
  import opened Layout
  import opened PeImage

  datatype Directory = Directory(rva: dword, size: dword)

  function EncodeDirectory(d: Directory): seq<byte> { StoreLE(4, d.rva) + StoreLE(4, d.size) }

  /** A section header: a short name padded to 8 bytes, the virtual size, what the views read, and 16 more bytes. */
  datatype Header = Header(section: Section, virtualSize: dword, rest: seq<byte>)

  predicate ValidHeader(h: Header) { Narrow(h.section.name) && |h.section.name| < 8 && |h.rest| == 16 }

  function Zeros(n: nat): (s: seq<byte>)
    ensures |s| == n
  {
    seq(n, _ => 0)
  }

  function EncodeHeader(h: Header): (s: seq<byte>)
    requires ValidHeader(h)
    ensures |s| == 40
  {
    TextLength(h.section.name);
    EncodeText(h.section.name)
    + (Zeros(7 - |h.section.name|)
       + (EncodeDwords(HeaderFields(h)) + h.rest))
  }

  function HeaderFields(h: Header): seq<dword> {
    [h.virtualSize, h.section.virtualAddress, h.section.sizeOfRawData, h.section.pointerToRawData]
  }

  lemma {:induction false} TextLength(text: string)
    requires Narrow(text)
    ensures |EncodeText(text)| == |text| + 1
  {
    if text == "" {
    } else {
      TextLength(text[1..]);
    }
  }

  /** The headers of the file at fileBuff: e_lfanew, and from there the number of sections, the size of the
      optional header, its data directories and, behind it, the section table. */
  predicate HeadersAt(img: Image, lfanew: dword, optionalSize: word, directories: seq<Directory>, headers: seq<Header>) {
    var nt := img.fileBuff + lfanew;
    && ReadsMemory(img) && |img.mem| <= 0x1_0000_0000 && |headers| < 0x1_0000
    && Holds(img.mem, Field(img.fileBuff + 60, StoreLE(4, lfanew)))
    && Holds(img.mem, Field(nt + 6, StoreLE(2, |headers|)))
    && Holds(img.mem, Field(nt + 20, StoreLE(2, optionalSize)))
    && (forall i :: 0 <= i < |directories| ==> Holds(img.mem, Field(nt + 120 + 8 * i, EncodeDirectory(directories[i]))))
    && (forall j :: 0 <= j < |headers| ==> ValidHeader(headers[j]))
    && (forall j :: 0 <= j < |headers| ==> Holds(img.mem, Field(nt + 24 + optionalSize + 40 * j, EncodeHeader(headers[j]))))
  }

  lemma NtHeadRead(img: Image, lfanew: dword, optionalSize: word, directories: seq<Directory>, headers: seq<Header>)
    requires HeadersAt(img, lfanew, optionalSize, directories, headers)
    ensures NtHead(img) == img.fileBuff + lfanew
  {
    ReadsDword(img, img.fileBuff + 60, lfanew);
  }

  /** Each data directory gives back its RVA. */
  lemma DirectoryRead(img: Image, lfanew: dword, optionalSize: word, directories: seq<Directory>,
      headers: seq<Header>, i: nat)
    requires HeadersAt(img, lfanew, optionalSize, directories, headers) && i < |directories|
    ensures DirectoryRva(img, i) == directories[i].rva
  {
    NtHeadRead(img, lfanew, optionalSize, directories, headers);
    var a, d := img.fileBuff + lfanew + 120 + 8 * i, directories[i];
    HoldsBoth(img.mem, a, StoreLE(4, d.rva), StoreLE(4, d.size));
    ReadsDword(img, a, d.rva);
  }

  lemma CountsRead(img: Image, lfanew: dword, optionalSize: word, directories: seq<Directory>, headers: seq<Header>)
    requires HeadersAt(img, lfanew, optionalSize, directories, headers)
    ensures SectionCount(img) == |headers| && WordAt(img, NtHead(img) + 20) == optionalSize
  {
    NtHeadRead(img, lfanew, optionalSize, directories, headers);
    ReadsWord(img, img.fileBuff + lfanew + 6, |headers|);
    ReadsWord(img, img.fileBuff + lfanew + 20, optionalSize);
  }

  /** The section table gives back the number of sections and each section with its name. */
  lemma SectionRead(img: Image, lfanew: dword, optionalSize: word, directories: seq<Directory>,
      headers: seq<Header>, j: nat)
    requires HeadersAt(img, lfanew, optionalSize, directories, headers)
    ensures SectionCount(img) == |headers|
    ensures j < |headers| ==> SectionAt(img, j) == headers[j].section
  {
    CountsRead(img, lfanew, optionalSize, directories, headers);
    if j < |headers| {
      NtHeadRead(img, lfanew, optionalSize, directories, headers);
      SectionHere(img, img.fileBuff + lfanew, optionalSize, j, headers[j]);
    }
  }

  lemma SectionHere(img: Image, nt: nat, optionalSize: word, j: nat, h: Header)
    requires NtHead(img) == nt && WordAt(img, nt + 20) == optionalSize
    requires ReadsMemory(img) && ValidHeader(h) && Holds(img.mem, Field(nt + 24 + optionalSize + 40 * j, EncodeHeader(h)))
    ensures SectionAt(img, j) == h.section
  {
    HeaderRead(img, nt + 24 + optionalSize + 40 * j, h);
  }

  lemma HeaderRead(img: Image, a: nat, h: Header)
    requires ReadsMemory(img) && ValidHeader(h) && Holds(img.mem, Field(a, EncodeHeader(h)))
    ensures TextAt(img, a) == h.section.name && DwordAt(img, a + 12) == h.section.virtualAddress
    ensures DwordAt(img, a + 16) == h.section.sizeOfRawData && DwordAt(img, a + 20) == h.section.pointerToRawData
  {
    var fields := HeaderFields(h);
    HeaderParts(img.mem, a, h);
    ReadsText(img, a, h.section.name);
    ReadsDwords(img, a + 8, fields, 1);
    ReadsDwords(img, a + 8, fields, 2);
    ReadsDwords(img, a + 8, fields, 3);
  }

  lemma HeaderParts(mem: seq<byte>, a: nat, h: Header)
    requires ValidHeader(h) && Holds(mem, Field(a, EncodeHeader(h)))
    ensures Holds(mem, Field(a, EncodeText(h.section.name))) && Holds(mem, Field(a + 8, EncodeDwords(HeaderFields(h))))
  {
    var name, pad, fields := EncodeText(h.section.name), Zeros(7 - |h.section.name|), EncodeDwords(HeaderFields(h));
    TextLength(h.section.name);
    HoldsBoth(mem, a, name, pad + (fields + h.rest));
    HoldsBoth(mem, a + |name|, pad, fields + h.rest);
    HoldsBoth(mem, a + 8, fields, h.rest);
  }

  /** So a file loaded into memory has exactly the sections written. */
  lemma LoadedFile(mem: seq<byte>, fileBuff: dword, stray: map<dword, dword>,
                   lfanew: dword, optionalSize: word, directories: seq<Directory>, headers: seq<Header>)
    requires HeadersAt(Load(mem, fileBuff, stray), lfanew, optionalSize, directories, headers)
    ensures var img := Load(mem, fileBuff, stray);
            Translates(img) && |img.sections| == |headers| && forall j :: 0 <= j < |headers| ==> img.sections[j] == headers[j].section
  {
    var img := Load(mem, fileBuff, stray);
    LoadedSections(mem, fileBuff, stray);
    LoadedTranslates(mem, fileBuff, stray);
    SectionRead(img, lfanew, optionalSize, directories, headers, 0);
    forall j | 0 <= j < |headers| ensures img.sections[j] == headers[j].section {
      SectionRead(img, lfanew, optionalSize, directories, headers, j);
    }
  }
}
