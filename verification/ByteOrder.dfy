/** Low-byte-first loads and stores (byte_order_generic.h, my_byteorder.h). */
module ByteOrder {
  import opened Words

  // ----- The reference: one value, one list of bytes, least significant first -----

  function Pow256(n: nat): (p: nat)
    ensures p >= 1
  {
    if n == 0 then 1 else 256 * Pow256(n - 1)
  }

  function LoadLE(s: seq<byte>): nat { if s == [] then 0 else s[0] + 256 * LoadLE(s[1..]) }

  function StoreLE(n: nat, v: nat): (s: seq<byte>)
    ensures |s| == n
  {
    if n == 0 then [] else [v % 256] + StoreLE(n - 1, v / 256)
  }

  /** The buffer with the bytes b written at offset off. */
  function Overwrite(s: seq<byte>, off: nat, b: seq<byte>): (r: seq<byte>)
    requires off + |b| <= |s|
    ensures |r| == |s|
  {
    s[..off] + b + s[off + |b|..]
  }

  lemma {:induction false} LoadBound(s: seq<byte>)
    ensures LoadLE(s) < Pow256(|s|)
  {
    if s == [] {
    } else {
      LoadBound(s[1..]);
    }
  }

  lemma {:induction false} LoadAppend(a: seq<byte>, b: seq<byte>)
    ensures LoadLE(a + b) == LoadLE(a) + Pow256(|a|) * LoadLE(b)
  {
    if a == [] {
      assert a + b == b;
    } else {
      LoadAppend(a[1..], b);
      assert (a + b)[1..] == a[1..] + b;
      MulAssoc(Pow256(|a| - 1), LoadLE(b));
    }
  }

  lemma MulAssoc(p: int, q: int)
    ensures 256 * (p * q) == (256 * p) * q
  {
  }

  lemma {:induction false} LoadOfStore(n: nat, v: nat)
    ensures LoadLE(StoreLE(n, v)) == v % Pow256(n)
  {
    if n == 0 {
    } else {
      LoadOfStore(n - 1, v / 256);
      assert StoreLE(n, v)[1..] == StoreLE(n - 1, v / 256);
      DigitMod(v, Pow256(n - 1));
    }
  }

  lemma DigitMod(v: nat, p: nat)
    requires p > 0
    ensures v % (256 * p) == v % 256 + 256 * ((v / 256) % p)
  {
    var hi, d := v / 256, v % 256;
    var q, r := hi / p, hi % p;
    assert v == (256 * p) * q + (256 * r + d) by {
      assert 256 * (p * q + r) == (256 * p) * q + 256 * r;
    }
    assert 256 * r + d < 256 * p;
    ModUnique(v, 256 * p, q, 256 * r + d);
  }

  lemma {:induction false} StoreOfLoad(s: seq<byte>)
    ensures StoreLE(|s|, LoadLE(s)) == s
  {
    if s == [] {
    } else {
      StoreOfLoad(s[1..]);
      FirstByte(s[0], LoadLE(s[1..]));
      assert s == [s[0]] + s[1..];
    }
  }

  lemma FirstByte(b: byte, v: nat)
    ensures (b + 256 * v) % 256 == b && (b + 256 * v) / 256 == v
  {
    ModUnique(b + 256 * v, 256, v, b);
  }

  /** Loads are injective at a fixed width: a word equals a constant only if its bytes do. */
  lemma LoadInjective(s: seq<byte>, t: seq<byte>)
    requires |s| == |t| && LoadLE(s) == LoadLE(t)
    ensures s == t
  {
    StoreOfLoad(s);
    StoreOfLoad(t);
  }

  /** Load after store: the value modulo 2^(8n), and no byte outside the field changes. */
  lemma LoadAfterStore(buf: seq<byte>, off: nat, n: nat, v: nat)
    requires off + n <= |buf|
    ensures var r := Overwrite(buf, off, StoreLE(n, v));
            && LoadLE(r[off..off + n]) == v % Pow256(n)
            && (forall k :: 0 <= k < |buf| && !(off <= k < off + n) ==> r[k] == buf[k])
  {
    var r := Overwrite(buf, off, StoreLE(n, v));
    assert r[off..off + n] == StoreLE(n, v);
    LoadOfStore(n, v);
  }

  /** Store after load: writing a field's own value back leaves the whole buffer as it was. */
  lemma StoreAfterLoad(buf: seq<byte>, off: nat, n: nat)
    requires off + n <= |buf|
    ensures Overwrite(buf, off, StoreLE(n, LoadLE(buf[off..off + n]))) == buf
  {
    StoreOfLoad(buf[off..off + n]);
    assert |buf[off..off + n]| == n;
  }

  // ----- The loads -----

  function Uint2korr(A: seq<byte>): word
    requires |A| >= 2
  {
    U16(U16(A[0]) + U16((A[1] as int) * 0x100))
  }

  function Sint2korr(A: seq<byte>): int
    requires |A| >= 2
  {
    I16(A[0] + (A[1] as int) * 0x100)
  }

  function Uint3korr(A: seq<byte>): dword
    requires |A| >= 3
  {
    U32(A[0] + U32((A[1] as int) * 0x100) + U32((A[2] as int) * 0x1_0000))
  }

  // Bit 7 of the top byte decides; the three fields occupy disjoint bits, so | is +.
  function Sint3korr(A: seq<byte>): int
    requires |A| >= 3
  {
    I32(if A[2] / 128 % 2 == 1
        then U32(255 * 0x100_0000) + U32((A[2] as int) * 0x1_0000) + U32((A[1] as int) * 0x100) + A[0]
        else U32((A[2] as int) * 0x1_0000) + U32((A[1] as int) * 0x100) + A[0])
  }

  function Uint4korr(A: seq<byte>): dword
    requires |A| >= 4
  {
    U32(A[0] + U32((A[1] as int) * 0x100) + U32((A[2] as int) * 0x1_0000) + U32((A[3] as int) * 0x100_0000))
  }

  function Sint4korr(A: seq<byte>): int
    requires |A| >= 4
  {
    I32(A[0] + (A[1] as int) * 0x100 + (A[2] as int) * 0x1_0000 + I32((A[3] as int) * 0x100_0000))
  }

  function Uint5korr(A: seq<byte>): qword
    requires |A| >= 5
  {
    U64(U32(A[0] + U32((A[1] as int) * 0x100) + U32((A[2] as int) * 0x1_0000) + U32((A[3] as int) * 0x100_0000))
        + U64((A[4] as int) * 0x1_0000_0000))
  }

  function Uint6korr(A: seq<byte>): qword
    requires |A| >= 6
  {
    U64(U32(A[0] + U32((A[1] as int) * 0x100) + U32((A[2] as int) * 0x1_0000) + U32((A[3] as int) * 0x100_0000))
        + U64((A[4] as int) * 0x1_0000_0000) + U64((A[5] as int) * 0x100_0000_0000))
  }

  function Uint8korr(A: seq<byte>): qword
    requires |A| >= 8
  {
    U64(U32(A[0] + U32((A[1] as int) * 0x100) + U32((A[2] as int) * 0x1_0000) + U32((A[3] as int) * 0x100_0000))
        + U64(U32(A[4] + U32((A[5] as int) * 0x100) + U32((A[6] as int) * 0x1_0000) + U32((A[7] as int) * 0x100_0000))
              * 0x1_0000_0000))
  }

  function Sint8korr(A: seq<byte>): int
    requires |A| >= 8
  {
    I64(Uint8korr(A))
  }

  lemma LoadUnrolled(s: seq<byte>)
    ensures |s| == 1 ==> LoadLE(s) == s[0]
    ensures |s| == 2 ==> LoadLE(s) == s[0] + 0x100 * (s[1] as int)
    ensures |s| == 3 ==> LoadLE(s) == s[0] + 0x100 * (s[1] as int) + 0x1_0000 * (s[2] as int)
    ensures |s| == 4 ==> LoadLE(s) == s[0] + 0x100 * (s[1] as int) + 0x1_0000 * (s[2] as int) + 0x100_0000 * (s[3] as int)
  {
    if |s| <= 1 || |s| > 4 {
    } else {
      LoadUnrolled(s[1..]);
    }
  }

  lemma PowUnrolled()
    ensures Pow256(1) == 0x100 && Pow256(2) == 0x1_0000 && Pow256(3) == 0x100_0000 && Pow256(4) == 0x1_0000_0000
    ensures Pow256(5) == 0x100_0000_0000 && Pow256(6) == 0x1_0000_0000_0000
    ensures Pow256(8) == 0x1_0000_0000_0000_0000
  {
    assert Pow256(2) == 0x1_0000;
    assert Pow256(4) == 0x1_0000_0000;
    assert Pow256(6) == 0x1_0000_0000_0000;
  }

  /** The low four bytes and the rest of a wider field. */
  lemma LoadSplit4(A: seq<byte>)
    requires 4 < |A|
    ensures LoadLE(A) == LoadLE(A[..4]) + 0x1_0000_0000 * LoadLE(A[4..])
  {
    PowUnrolled();
    LoadAppend(A[..4], A[4..]);
    assert A == A[..4] + A[4..];
  }

  /** Every unsigned load is the little-endian value of exactly its own bytes: no sum in it wraps. */
  lemma UnsignedLoads(A: seq<byte>)
    ensures |A| >= 2 ==> Uint2korr(A) == LoadLE(A[..2])
    ensures |A| >= 3 ==> Uint3korr(A) == LoadLE(A[..3])
    ensures |A| >= 4 ==> Uint4korr(A) == LoadLE(A[..4])
    ensures |A| >= 5 ==> Uint5korr(A) == LoadLE(A[..5])
    ensures |A| >= 6 ==> Uint6korr(A) == LoadLE(A[..6])
    ensures |A| >= 8 ==> Uint8korr(A) == LoadLE(A[..8])
  {
    if |A| >= 2 { LoadUnrolled(A[..2]); }
    if |A| >= 3 { LoadUnrolled(A[..3]); }
    if |A| >= 4 { Uint4Load(A); }
    if |A| >= 5 { Uint5Load(A); }
    if |A| >= 6 { Uint6Load(A); }
    if |A| >= 8 { Uint8Load(A); }
  }

  lemma Uint4Load(A: seq<byte>)
    requires |A| >= 4
    ensures Uint4korr(A) == LoadLE(A[..4])
  {
    LoadUnrolled(A[..4]);
  }

  lemma Uint5Load(A: seq<byte>)
    requires |A| >= 5
    ensures Uint5korr(A) == LoadLE(A[..5])
  {
    Uint4Load(A);
    WideLoad(A, 5);
    LoadUnrolled(A[4..5]);
    assert Uint5korr(A) == U64(Uint4korr(A) + U64((A[4] as int) * 0x1_0000_0000));
  }

  lemma Uint6Load(A: seq<byte>)
    requires |A| >= 6
    ensures Uint6korr(A) == LoadLE(A[..6])
  {
    Uint4Load(A);
    WideLoad(A, 6);
    LoadUnrolled(A[4..6]);
    assert Uint6korr(A) == U64(Uint4korr(A) + U64((A[4] as int) * 0x1_0000_0000)
                               + U64((A[5] as int) * 0x100_0000_0000));
  }

  lemma Uint8Load(A: seq<byte>)
    requires |A| >= 8
    ensures Uint8korr(A) == LoadLE(A[..8])
  {
    Uint4Load(A);
    Uint4Load(A[4..]);
    WideLoad(A, 8);
    assert A[4..][..4] == A[4..8];
    assert Uint8korr(A) == U64(Uint4korr(A) + U64(Uint4korr(A[4..]) * 0x1_0000_0000));
    LoadBound(A[4..8]);
    PowUnrolled();
  }

  lemma WideLoad(A: seq<byte>, n: nat)
    requires 4 < n <= |A|
    ensures LoadLE(A[..n]) == LoadLE(A[..4]) + 0x1_0000_0000 * LoadLE(A[4..n])
  {
    LoadSplit4(A[..n]);
    assert A[..n][..4] == A[..4];
    assert A[..n][4..] == A[4..n];
  }

  /** Every signed load is the two's complement reading of the unsigned one, of its own width. */
  lemma SignedLoads(A: seq<byte>)
    ensures |A| >= 2 ==> Sint2korr(A) == (if Uint2korr(A) < 0x8000 then Uint2korr(A) else Uint2korr(A) - 0x1_0000)
    ensures |A| >= 3 ==> Sint3korr(A) == (if Uint3korr(A) < 0x80_0000 then Uint3korr(A) else Uint3korr(A) - 0x100_0000)
    ensures |A| >= 4 ==> Sint4korr(A) == (if Uint4korr(A) < 0x8000_0000 then Uint4korr(A) else Uint4korr(A) - 0x1_0000_0000)
    ensures |A| >= 8 ==> -0x8000_0000_0000_0000 <= Sint8korr(A) < 0x8000_0000_0000_0000
                         && U64(Sint8korr(A)) == LoadLE(A[..8])
  {
    if |A| >= 3 { Sint3Load(A); }
    if |A| >= 4 { Sint4Load(A); }
    if |A| >= 8 { Uint8Load(A); SignedValue(Uint8korr(A)); }
  }

  lemma Sint3Load(A: seq<byte>)
    requires |A| >= 3
    ensures Sint3korr(A) == (if Uint3korr(A) < 0x80_0000 then Uint3korr(A) else Uint3korr(A) - 0x100_0000)
  {
    var a2 := A[2];
    assert a2 / 128 % 2 == 1 <==> a2 >= 128;
  }

  lemma Sint4Load(A: seq<byte>)
    requires |A| >= 4
    ensures Sint4korr(A) == I32(Uint4korr(A))
  {
    var low := A[0] + (A[1] as int) * 0x100 + (A[2] as int) * 0x1_0000;
    assert Uint4korr(A) == low + (A[3] as int) * 0x100_0000;
  }

  lemma SignedValue(u: qword)
    ensures -0x8000_0000_0000_0000 <= I64(u) < 0x8000_0000_0000_0000 && U64(I64(u)) == u
  {
    if u >= 0x8000_0000_0000_0000 {
      ModUnique(u - 0x1_0000_0000_0000_0000, 0x1_0000_0000_0000_0000, -1, u);
    }
  }

  // ----- The stores: byte writes into a buffer at T + off -----

  method Int2store(T: array<byte>, off: nat, A: word)
    requires off + 2 <= T.Length
    modifies T
    ensures T[..] == Overwrite(old(T[..]), off, StoreLE(2, A))
  {
    T[off] := U8(A);
    T[off + 1] := U8(A / 0x100);
    assert StoreLE(2, A) == [U8(A), U8(A / 0x100)];
  }

  method Int3store(T: array<byte>, off: nat, A: dword)
    requires off + 3 <= T.Length
    modifies T
    ensures T[..] == Overwrite(old(T[..]), off, StoreLE(3, A))
  {
    T[off] := U8(A);
    T[off + 1] := U8(A / 0x100);
    T[off + 2] := U8(A / 0x1_0000);
    StoreUnrolled(A);
  }

  method Int4store(T: array<byte>, off: nat, A: dword)
    requires off + 4 <= T.Length
    modifies T
    ensures T[..] == Overwrite(old(T[..]), off, StoreLE(4, A))
  {
    T[off] := U8(A);
    T[off + 1] := U8(A / 0x100);
    T[off + 2] := U8(A / 0x1_0000);
    T[off + 3] := U8(A / 0x100_0000);
    StoreUnrolled(A);
  }

  method Int5store(T: array<byte>, off: nat, A: qword)
    requires off + 5 <= T.Length
    modifies T
    ensures T[..] == Overwrite(old(T[..]), off, StoreLE(5, A))
  {
    T[off] := U8(A);
    T[off + 1] := U8(A / 0x100);
    T[off + 2] := U8(A / 0x1_0000);
    T[off + 3] := U8(A / 0x100_0000);
    T[off + 4] := U8(A / 0x1_0000_0000);
    Store5(A);
  }

  method Int6store(T: array<byte>, off: nat, A: qword)
    requires off + 6 <= T.Length
    modifies T
    ensures T[..] == Overwrite(old(T[..]), off, StoreLE(6, A))
  {
    T[off] := U8(A);
    T[off + 1] := U8(A / 0x100);
    T[off + 2] := U8(A / 0x1_0000);
    T[off + 3] := U8(A / 0x100_0000);
    T[off + 4] := U8(A / 0x1_0000_0000);
    T[off + 5] := U8(A / 0x100_0000_0000);
    Store6(A);
  }

  /** Two four-byte stores of the halves are the one-shot eight-byte little-endian store. */
  method Int8store(T: array<byte>, off: nat, A: qword)
    requires off + 8 <= T.Length
    modifies T
    ensures T[..] == Overwrite(old(T[..]), off, StoreLE(8, A))
  {
    ghost var was := T[..];
    var def_temp, def_temp2 := U32(A), U32(A / 0x1_0000_0000);
    Int4store(T, off, def_temp);
    Int4store(T, off + 4, def_temp2);
    TwoStores(was, off, StoreLE(4, def_temp), StoreLE(4, def_temp2));
    StoreHalves(A);
  }

  /** Two stores side by side are one store of all their bytes. */
  lemma TwoStores(buf: seq<byte>, off: nat, a: seq<byte>, b: seq<byte>)
    requires off + |a| + |b| <= |buf|
    ensures Overwrite(Overwrite(buf, off, a), off + |a|, b) == Overwrite(buf, off, a + b)
  {
  }

  lemma StoreHalves(v: qword)
    ensures StoreLE(8, v) == StoreLE(4, U32(v)) + StoreLE(4, U32(v / 0x1_0000_0000))
  {
    StoreSplit4(8, v);
    StoreLow4(v);
    StoreLow4(v / 0x1_0000_0000);
  }

  lemma Shifts(v: nat)
    ensures v / 0x100 / 0x100 == v / 0x1_0000 && v / 0x1_0000 / 0x100 == v / 0x100_0000
    ensures v / 0x100_0000 / 0x100 == v / 0x1_0000_0000 && v / 0x1_0000_0000 / 0x100 == v / 0x100_0000_0000
  {
  }

  lemma StoreStep(n: nat, v: nat)
    requires n > 0
    ensures StoreLE(n, v) == [U8(v)] + StoreLE(n - 1, v / 0x100)
    ensures StoreLE(1, v) == [U8(v)]
  {
  }

  lemma StoreUnrolled(v: nat)
    ensures StoreLE(3, v) == [U8(v), U8(v / 0x100), U8(v / 0x1_0000)]
    ensures StoreLE(4, v) == [U8(v), U8(v / 0x100), U8(v / 0x1_0000), U8(v / 0x100_0000)]
  {
    Shifts(v);
    var a, b, c := v / 0x100, v / 0x1_0000, v / 0x100_0000;
    StoreStep(4, v); StoreStep(3, a); StoreStep(2, b); StoreStep(1, c);
    StoreStep(3, v); StoreStep(2, a); StoreStep(1, b);
  }

  /** What is left of a value above its k low bytes. */
  function Above(v: nat, k: nat): nat
    decreases k
  {
    if k == 0 then v else Above(v / 0x100, k - 1)
  }

  lemma {:induction false} StoreAppend(k: nat, m: nat, v: nat)
    ensures StoreLE(k + m, v) == StoreLE(k, v) + StoreLE(m, Above(v, k))
    decreases k
  {
    if k == 0 {
      assert StoreLE(0, v) == [];
    } else {
      StoreAppend(k - 1, m, v / 0x100);
    }
  }

  lemma AboveFour(v: nat)
    ensures Above(v, 4) == v / 0x1_0000_0000
  {
    Shifts(v);
    assert Above(v, 4) == v / 0x100 / 0x100 / 0x100 / 0x100;
  }

  lemma StoreSplit4(n: nat, v: nat)
    requires n >= 4
    ensures StoreLE(n, v) == StoreLE(4, v) + StoreLE(n - 4, v / 0x1_0000_0000)
  {
    StoreAppend(4, n - 4, v);
    AboveFour(v);
  }

  lemma StoreUpper(v: nat)
    ensures StoreLE(1, v / 0x1_0000_0000) == [U8(v / 0x1_0000_0000)]
    ensures StoreLE(2, v / 0x1_0000_0000) == [U8(v / 0x1_0000_0000), U8(v / 0x100_0000_0000)]
  {
    Shifts(v);
    var d := v / 0x1_0000_0000;
    StoreStep(1, d); StoreStep(2, d); StoreStep(1, d / 0x100);
  }

  lemma Store5(v: nat)
    ensures StoreLE(5, v) == [U8(v), U8(v / 0x100), U8(v / 0x1_0000), U8(v / 0x100_0000), U8(v / 0x1_0000_0000)]
  {
    StoreUnrolled(v);
    StoreUpper(v);
    StoreSplit4(5, v);
  }

  lemma Store6(v: nat)
    ensures StoreLE(6, v) == [U8(v), U8(v / 0x100), U8(v / 0x1_0000), U8(v / 0x100_0000), U8(v / 0x1_0000_0000),
                              U8(v / 0x100_0000_0000)]
  {
    StoreUnrolled(v);
    StoreUpper(v);
    StoreSplit4(6, v);
  }

  /** A four-byte store keeps only the low 32 bits of its argument. */
  lemma StoreLow4(v: nat)
    ensures StoreLE(4, v) == StoreLE(4, U32(v))
  {
    LoadOfStore4(v);
    LoadOfStore4(U32(v));
    LoadInjective(StoreLE(4, v), StoreLE(4, U32(v)));
  }

  lemma LoadOfStore4(v: nat)
    ensures LoadLE(StoreLE(4, v)) == U32(v)
  {
    LoadOfStore(4, v);
    assert Pow256(4) == 0x1_0000_0000 by { PowUnrolled(); }
    if v < 0x1_0000_0000 { ModUnique(v, 0x1_0000_0000, 0, v); }
  }

  // ----- Stores and loads of the header, undone by each other -----

  /** For N = 2, 3, 4, 5, 6, 8: reading a field back just after storing v in it gives v mod 2^(8N). */
  lemma KorrAfterStore(buf: seq<byte>, off: nat, v: nat)
    ensures off + 2 <= |buf| ==> Uint2korr(Overwrite(buf, off, StoreLE(2, v))[off..]) == v % 0x1_0000
    ensures off + 3 <= |buf| ==> Uint3korr(Overwrite(buf, off, StoreLE(3, v))[off..]) == v % 0x100_0000
    ensures off + 4 <= |buf| ==> Uint4korr(Overwrite(buf, off, StoreLE(4, v))[off..]) == v % 0x1_0000_0000
    ensures off + 5 <= |buf| ==> Uint5korr(Overwrite(buf, off, StoreLE(5, v))[off..]) == v % 0x100_0000_0000
    ensures off + 6 <= |buf| ==> Uint6korr(Overwrite(buf, off, StoreLE(6, v))[off..]) == v % 0x1_0000_0000_0000
    ensures off + 8 <= |buf| ==> Uint8korr(Overwrite(buf, off, StoreLE(8, v))[off..]) == v % 0x1_0000_0000_0000_0000
  {
    PowUnrolled();
    if off + 2 <= |buf| { FieldAfterStore(buf, off, 2, v); }
    if off + 3 <= |buf| { FieldAfterStore(buf, off, 3, v); }
    if off + 4 <= |buf| { FieldAfterStore(buf, off, 4, v); }
    if off + 5 <= |buf| { FieldAfterStore(buf, off, 5, v); }
    if off + 6 <= |buf| { FieldAfterStore(buf, off, 6, v); }
    if off + 8 <= |buf| { FieldAfterStore(buf, off, 8, v); }
  }

  lemma FieldAfterStore(buf: seq<byte>, off: nat, n: nat, v: nat)
    requires off + n <= |buf| && n in {2, 3, 4, 5, 6, 8}
    ensures var r := Overwrite(buf, off, StoreLE(n, v));
            LoadLE(r[off..][..n]) == v % Pow256(n) && |r[off..]| >= n
            && (n == 2 ==> Uint2korr(r[off..]) == v % Pow256(n))
            && (n == 3 ==> Uint3korr(r[off..]) == v % Pow256(n))
            && (n == 4 ==> Uint4korr(r[off..]) == v % Pow256(n))
            && (n == 5 ==> Uint5korr(r[off..]) == v % Pow256(n))
            && (n == 6 ==> Uint6korr(r[off..]) == v % Pow256(n))
            && (n == 8 ==> Uint8korr(r[off..]) == v % Pow256(n))
  {
    var r := Overwrite(buf, off, StoreLE(n, v));
    LoadAfterStore(buf, off, n, v);
    assert r[off..][..n] == r[off..off + n];
    UnsignedLoads(r[off..]);
  }

  /** A signed value that fits in three bytes survives int3store, which takes it as a uint, and sint3korr. */
  lemma Sint3RoundTrip(buf: seq<byte>, off: nat, v: int)
    requires off + 3 <= |buf|
    ensures var r := Overwrite(buf, off, StoreLE(3, U32(v)))[off..];
            && (Sint3korr(r) == v <==> -0x80_0000 <= v < 0x80_0000)
            && (Sint3korr(r) - Uint3korr(r)) % 0x100_0000 == 0
  {
    KorrAfterStore(buf, off, U32(v));
    SignedLoads(Overwrite(buf, off, StoreLE(3, U32(v)))[off..]);
    Low24(v);
  }

  lemma Low24(v: int)
    ensures U32(v) % 0x100_0000 == v % 0x100_0000
    ensures -0x80_0000 <= v < 0x80_0000 ==> v % 0x100_0000 == if v < 0 then v + 0x100_0000 else v
  {
    var u := U32(v);
    var k := (v - u) / 0x1_0000_0000;
    ModUnique(v, 0x100_0000, 256 * k + u / 0x100_0000, u % 0x100_0000);
  }
}
