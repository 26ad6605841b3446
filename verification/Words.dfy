/** Fixed-width C integers, as bounded mathematical integers with their wrap-around written out. */
module Words {
  type byte = x: int | 0 <= x < 0x100
  type word = x: int | 0 <= x < 0x1_0000
  type dword = x: int | 0 <= x < 0x1_0000_0000
  type qword = x: int | 0 <= x < 0x1_0000_0000_0000_0000

  const INT_MAX32 := 0x7FFF_FFFF
  const UINT_MAX := 0xFFFF_FFFF

  // The unsigned conversions of C: the value modulo 2^width, for negative arguments too, since
  // Dafny's % is Euclidean. Values already in range are returned without a division.
  function U8(x: int): byte { if 0 <= x < 0x100 then x else x % 0x100 }

  function U16(x: int): word { if 0 <= x < 0x1_0000 then x else x % 0x1_0000 }

  function U32(x: int): dword { if 0 <= x < 0x1_0000_0000 then x else x % 0x1_0000_0000 }

  function U64(x: int): qword {
    if 0 <= x < 0x1_0000_0000_0000_0000 then x else x % 0x1_0000_0000_0000_0000
  }

  /** The two's complement value of the low 16, 32 or 64 bits. */
  function I16(x: int): int {
    var u := U16(x);
    if u < 0x8000 then u else u - 0x1_0000
  }

  function I32(x: int): int {
    var u := U32(x);
    if u < 0x8000_0000 then u else u - 0x1_0000_0000
  }

  function I64(x: int): int {
    var u := U64(x);
    if u < 0x8000_0000_0000_0000 then u else u - 0x1_0000_0000_0000_0000
  }

  /** C's signed division: it truncates toward zero. */
  function TruncDiv(a: int, b: int): int
    requires b > 0
  {
    if a >= 0 then a / b else -((-a) / b)
  }

  function Min(a: int, b: int): int { if a < b then a else b }

  lemma ModUnique(v: int, m: nat, q: int, r: int)
    requires 0 <= r < m && v == m * q + r
    ensures v % m == r && v / m == q
  {
    var d, r' := v / m - q, v % m;
    assert m * d == r - r' by {
      assert m * (v / m) - m * q == m * d;
    }
    if d >= 1 { MulGrows(m, d); }
    if d <= -1 { MulGrows(m, -d); }
  }

  lemma MulGrows(m: nat, d: int)
    requires d >= 1
    ensures m * d >= m
  {
  }

  lemma WrapIs(x: nat)
    ensures U32(x) == x % 0x1_0000_0000
  {
    if x < 0x1_0000_0000 { ModUnique(x, 0x1_0000_0000, 0, x); }
  }

  lemma SignedReadBack(v: dword)
    ensures -0x8000_0000 <= I32(v) < 0x8000_0000 && U32(I32(v)) == v
  {
    if v >= 0x8000_0000 { ModUnique(v - 0x1_0000_0000, 0x1_0000_0000, -1, v); }
  }

  /** One addition or subtraction of two DWORDs wraps at most once. */
  lemma NearDword(x: int)
    requires -0x1_0000_0000 < x < 0x2_0000_0000
    ensures U32(x) == if x < 0 then x + 0x1_0000_0000 else if x < 0x1_0000_0000 then x else x - 0x1_0000_0000
  {
    if x < 0 { ModUnique(x, 0x1_0000_0000, -1, x + 0x1_0000_0000); }
    if x >= 0x1_0000_0000 { ModUnique(x, 0x1_0000_0000, 1, x - 0x1_0000_0000); }
  }

  lemma AddWrapped(x: int, d: int)
    ensures U32(U32(x) + d) == U32(x + d)
  {
    var m, u := 0x1_0000_0000, U32(x);
    var k, q := (x - u) / m, (u + d) / m;
    assert x == u + m * k by { assert x == m * (x / m) + x % m; }
    ModUnique(x + d, m, k + q, (u + d) % m);
  }
}
