/** Fields, arrays and texts in memory, and what reads through pointers make of them. */
module Layout {
  import opened Words
  import opened ByteOrder
  import opened PeImage

  // ----- Bytes at an address -----

  datatype Field = Field(at: nat, bytes: seq<byte>)

  predicate Holds(mem: seq<byte>, f: Field) { f.at + |f.bytes| <= |mem| && mem[f.at..f.at + |f.bytes|] == f.bytes }

  lemma SubSlice(m: seq<byte>, a: nat, e: seq<byte>, lo: nat, hi: nat)
    requires a + |e| <= |m| && m[a..a + |e|] == e && lo <= hi <= |e|
    ensures m[a + lo..a + hi] == e[lo..hi]
  {
    forall k | 0 <= k < hi - lo ensures m[a + lo..a + hi][k] == e[lo..hi][k] {
      assert m[a..a + |e|][lo + k] == m[a + lo + k];
    }
  }

  /** What follows in a field is a field. */
  lemma HoldsBoth(mem: seq<byte>, a: nat, x: seq<byte>, y: seq<byte>)
    requires Holds(mem, Field(a, x + y))
    ensures Holds(mem, Field(a, x)) && Holds(mem, Field(a + |x|, y))
  {
    SubSlice(mem, a, x + y, 0, |x|);
    SubSlice(mem, a, x + y, |x|, |x + y|);
    assert (x + y)[0..|x|] == x && (x + y)[|x|..] == y;
  }

  /** A field written with StoreLE is what a read at its address gives. */
  lemma ReadsDword(img: Image, a: nat, v: dword)
    requires ReadsMemory(img) && a + 4 <= |img.mem| && img.mem[a..a + 4] == StoreLE(4, v)
    ensures DwordAt(img, a) == v
  {
    assert DwordAt(img, a) == DwordOf(img.mem, a) == LoadLE(StoreLE(4, v));
    LoadOfStore(4, v);
    PowUnrolled();
  }

  lemma ReadsWord(img: Image, a: nat, v: word)
    requires ReadsMemory(img) && a + 2 <= |img.mem| && img.mem[a..a + 2] == StoreLE(2, v)
    ensures WordAt(img, a) == v
  {
    assert WordAt(img, a) == WordOf(img.mem, a) == LoadLE(StoreLE(2, v));
    LoadOfStore(2, v);
    PowUnrolled();
  }

  // ----- Arrays -----

  function EncodeDwords(vs: seq<dword>): (s: seq<byte>)
    ensures |s| == 4 * |vs|
  {
    if vs == [] then [] else StoreLE(4, vs[0]) + EncodeDwords(vs[1..])
  }

  function EncodeWords(vs: seq<word>): (s: seq<byte>)
    ensures |s| == 2 * |vs|
  {
    if vs == [] then [] else StoreLE(2, vs[0]) + EncodeWords(vs[1..])
  }

  lemma {:induction false} ReadsDwords(img: Image, a: nat, vs: seq<dword>, i: nat)
    requires ReadsMemory(img) && Holds(img.mem, Field(a, EncodeDwords(vs))) && i < |vs|
    ensures DwordAt(img, a + 4 * i) == vs[i]
    decreases i
  {
    HoldsBoth(img.mem, a, StoreLE(4, vs[0]), EncodeDwords(vs[1..]));
    if i == 0 {
      ReadsDword(img, a, vs[0]);
    } else {
      ReadsDwords(img, a + 4, vs[1..], i - 1);
    }
  }

  lemma {:induction false} ReadsWords(img: Image, a: nat, vs: seq<word>, i: nat)
    requires ReadsMemory(img) && Holds(img.mem, Field(a, EncodeWords(vs))) && i < |vs|
    ensures WordAt(img, a + 2 * i) == vs[i]
    decreases i
  {
    HoldsBoth(img.mem, a, StoreLE(2, vs[0]), EncodeWords(vs[1..]));
    if i == 0 {
      ReadsWord(img, a, vs[0]);
    } else {
      ReadsWords(img, a + 2, vs[1..], i - 1);
    }
  }

  /** The low half of a DWORD is a WORD of its own. */
  lemma ReadsLowWord(img: Image, a: nat, v: dword)
    requires ReadsMemory(img) && Holds(img.mem, Field(a, StoreLE(4, v)))
    ensures WordAt(img, a) == v % 0x1_0000
  {
    StoreAppend(2, 2, v);
    HoldsBoth(img.mem, a, StoreLE(2, v), StoreLE(2, Above(v, 2)));
    assert WordAt(img, a) == WordOf(img.mem, a) == LoadLE(StoreLE(2, v));
    LoadOfStore(2, v);
    PowUnrolled();
  }

  /** The bytes lie where rvaTofoa leads to in the file at fileBuff. */
  predicate FileHolds(img: Image, rva: dword, bytes: seq<byte>) {
    Foa(img, rva) + img.fileBuff < 0x1_0000_0000 && Holds(img.mem, Field(Foa(img, rva) + img.fileBuff, bytes))
  }

  // ----- Texts -----

  /** Characters of one byte, none of them zero. */
  predicate Narrow(text: string) { forall k :: 0 <= k < |text| ==> 0 < text[k] as int < 0x100 }

  function EncodeText(text: string): seq<byte>
    requires Narrow(text)
  {
    if text == "" then [0] else [text[0] as int] + EncodeText(text[1..])
  }

  lemma {:induction false} ReadsText(img: Image, a: nat, text: string)
    requires Narrow(text) && Holds(img.mem, Field(a, EncodeText(text)))
    ensures TextAt(img, a) == text
    decreases |text|
  {
    if text == "" {
      assert img.mem[a] == img.mem[a..a + 1][0] == 0;
    } else {
      var more := EncodeText(text[1..]);
      HoldsBoth(img.mem, a, [text[0] as int], more);
      assert img.mem[a] == img.mem[a..a + 1][0] == text[0] as int;
      ReadsText(img, a + 1, text[1..]);
      assert text == [text[0]] + text[1..];
    }
  }

  /** The text lies, with its terminating zero, where rvaTofoa leads to. */
  predicate NameLies(img: Image, rva: dword, text: string) { Narrow(text) && FileHolds(img, rva, EncodeText(text)) }

  lemma ReadsName(img: Image, rva: dword, text: string)
    requires NameLies(img, rva, text)
    ensures TextAt(img, Foa(img, rva) + img.fileBuff) == text
  {
    ReadsText(img, Foa(img, rva) + img.fileBuff, text);
  }

  /** Characters of one 16-bit unit, none of them zero. */
  predicate Wide(text: string) {
    forall k :: 0 <= k < |text| ==> 0 < text[k] as int < 0x1_0000 && !(0xD800 <= text[k] as int < 0xE000)
  }

  function Units(text: string): (s: seq<word>)
    requires Wide(text)
    ensures |s| == |text| + 1
  {
    if text == "" then [0] else [text[0] as int] + Units(text[1..])
  }

  lemma {:induction false} ReadsWideText(img: Image, a: nat, text: string)
    requires ReadsMemory(img) && Wide(text) && Holds(img.mem, Field(a, EncodeWords(Units(text))))
    ensures WideTextAt(img, a) == text
    decreases |text|
  {
    ReadsWords(img, a, Units(text), 0);
    if text == "" {
    } else {
      HoldsBoth(img.mem, a, StoreLE(2, text[0] as int), EncodeWords(Units(text[1..])));
      ReadsWideText(img, a + 2, text[1..]);
      assert text == [text[0]] + text[1..];
    }
  }

  // ----- A memory of zeros with some fields written in it -----

  predicate Fit(size: nat, fields: seq<Field>) {
    && (forall i :: 0 <= i < |fields| ==> fields[i].at + |fields[i].bytes| <= size)
    && (forall i :: 0 <= i < |fields| - 1 ==> fields[i].at + |fields[i].bytes| <= fields[i + 1].at)
  }

  lemma {:induction false} InOrder(size: nat, fields: seq<Field>, i: nat, j: nat)
    requires Fit(size, fields) && i < j < |fields|
    ensures fields[i].at + |fields[i].bytes| <= fields[j].at
    decreases j
  {
    if i == j - 1 {
    } else {
      InOrder(size, fields, i, j - 1);
      assert fields[j - 1].at + |fields[j - 1].bytes| <= fields[j - 1 + 1].at;
    }
  }

  function Written(size: nat, fields: seq<Field>): (mem: seq<byte>)
    requires Fit(size, fields)
    ensures |mem| == size
  {
    if fields == [] then seq(size, _ => 0)
    else var f := fields[|fields| - 1]; Overwrite(Written(size, fields[..|fields| - 1]), f.at, f.bytes)
  }

  lemma {:induction false} FieldWritten(size: nat, fields: seq<Field>, i: nat)
    requires Fit(size, fields) && i < |fields|
    ensures Holds(Written(size, fields), fields[i])
    decreases |fields|
  {
    var f, rest := fields[|fields| - 1], fields[..|fields| - 1];
    var before := Written(size, rest);
    if i < |rest| {
      FieldWritten(size, rest, i);
      assert rest[i] == fields[i];
      InOrder(size, fields, i, |rest|);
      OverwriteAbove(before, f.at, f.bytes, fields[i]);
    } else {
      assert Overwrite(before, f.at, f.bytes)[f.at..f.at + |f.bytes|] == f.bytes;
    }
  }

  lemma OverwriteAbove(mem: seq<byte>, off: nat, b: seq<byte>, f: Field)
    requires Holds(mem, f) && f.at + |f.bytes| <= off && off + |b| <= |mem|
    ensures Holds(Overwrite(mem, off, b), f)
  {
    assert Overwrite(mem, off, b)[..off] == mem[..off];
    assert mem[f.at..f.at + |f.bytes|] == mem[..off][f.at..f.at + |f.bytes|];
  }
}
