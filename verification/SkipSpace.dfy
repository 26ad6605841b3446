/** skip_trailing_space, both builds of m_string.h, against the plain byte loop. */
module SkipSpace {
  import opened Words
  import opened ByteOrder

  const SPACE: byte := 0x20

  // ----- The reference: drop one trailing space at a time -----

  function TrimEnd(s: seq<byte>, end: nat): (r: nat)
    requires end <= |s|
    ensures r <= end
  {
    if end > 0 && s[end - 1] == SPACE then TrimEnd(s, end - 1) else end
  }

  predicate AllSpace(s: seq<byte>, lo: nat, hi: nat)
    requires lo <= hi <= |s|
  {
    forall k :: lo <= k < hi ==> s[k] == SPACE
  }

  /** The result is the one position with only spaces after it and no space before it. */
  lemma {:induction false} TrimEndMeans(s: seq<byte>, end: nat, r: nat)
    requires end <= |s|
    ensures r == TrimEnd(s, end)
            <==> r <= end && (forall k :: r <= k < end ==> s[k] == 0x20) && (r == 0 || s[r - 1] != 0x20)
  {
    if end > 0 && s[end - 1] == SPACE {
      TrimEndMeans(s, end - 1, r);
      if r <= end && AllSpace(s, r, end) && (r == 0 || s[r - 1] != SPACE) {
        assert r != end;
      }
    }
  }

  /** A stretch of spaces may be skipped in one go. */
  lemma {:induction false} SkipSpaces(s: seq<byte>, mid: nat, end: nat)
    requires mid <= end <= |s| && AllSpace(s, mid, end)
    ensures TrimEnd(s, mid) == TrimEnd(s, end)
  {
    if mid < end {
      SkipSpaces(s, mid, end - 1);
    }
  }

  // ----- Words full of spaces -----

  function Spaces(n: nat): (s: seq<byte>)
    ensures |s| == n && forall k :: 0 <= k < n ==> s[k] == SPACE
  {
    seq(n, _ => SPACE)
  }

  // The sparc build reads words high byte first.
  function LoadBE(s: seq<byte>): nat { LoadLE(Reverse(s)) }

  function Reverse(s: seq<byte>): (r: seq<byte>)
    ensures |r| == |s| && forall k :: 0 <= k < |s| ==> r[k] == s[|s| - 1 - k]
  {
    if s == [] then [] else Reverse(s[1..]) + [s[0]]
  }

  const SPACE_INT4: dword := 0x20202020
  const SPACE_INT8: qword := 0x2020202020202020

  function SpaceInt(size: nat): nat { if size == 4 then SPACE_INT4 else SPACE_INT8 }

  lemma SpaceWords()
    ensures LoadLE(Spaces(4)) == SPACE_INT4 && LoadLE(Spaces(8)) == SPACE_INT8
  {
    LoadUnrolled(Spaces(4));
    LoadSplit4(Spaces(8));
    assert Spaces(8)[..4] == Spaces(4) && Spaces(8)[4..] == Spaces(4);
  }

  /** A word of either byte order equals the space mask exactly when each of its bytes is a space. */
  lemma SpaceWordMeans(w: seq<byte>)
    requires |w| == 4 || |w| == 8
    ensures LoadLE(w) == SpaceInt(|w|) <==> AllSpace(w, 0, |w|)
    ensures LoadBE(w) == SpaceInt(|w|) <==> AllSpace(w, 0, |w|)
  {
    SpaceWordLE(w);
    SpaceWordLE(Reverse(w));
    forall k | 0 <= k < |w| ensures w[k] == Reverse(w)[|w| - 1 - k] {}
    forall k | 0 <= k < |w| ensures Reverse(w)[k] == w[|w| - 1 - k] {}
  }

  lemma SpaceWordLE(w: seq<byte>)
    requires |w| == 4 || |w| == 8
    ensures LoadLE(w) == SpaceInt(|w|) <==> AllSpace(w, 0, |w|)
  {
    SpaceWords();
    if AllSpace(w, 0, |w|) {
      assert w == Spaces(|w|);
    }
    if LoadLE(w) == SpaceInt(|w|) {
      LoadInjective(w, Spaces(|w|));
    }
  }

  // ----- The common build: eight unaligned bytes at a time -----

  /** Equal to the byte loop for every buffer; every byte read lies inside it. */
  method SkipTrailingSpace(s: seq<byte>) returns (end: nat)
    ensures end == TrimEnd(s, |s|)
  {
    end := |s|;
    while end >= 8
      invariant end <= |s| && TrimEnd(s, end) == TrimEnd(s, |s|)
      decreases end
    {
      ghost var w := s[end - 8..][..8];
      UnsignedLoads(s[end - 8..]);
      SpaceWordMeans(w);
      if Uint8korr(s[end - 8..]) != SPACE_INT8 {
        break;
      }
      assert forall k :: end - 8 <= k < end ==> s[k] == w[k - (end - 8)];
      SkipSpaces(s, end - 8, end);
      end := end - 8;
    }
    while end > 0 && s[end - 1] == SPACE
      invariant end <= |s| && TrimEnd(s, end) == TrimEnd(s, |s|)
    {
      end := end - 1;
    }
  }

  // ----- The sparc build: three zones around the aligned words -----

  predicate Aligned(address: nat, size: nat) { if size == 4 then address % 4 == 0 else address % 8 == 0 }

  /** The word read through an int pointer at an address: it must be aligned and inside the buffer. */
  function ReadWord(s: seq<byte>, ptr: nat, size: nat, address: nat): nat
    requires Aligned(address, size)
    requires ptr <= address && address + size <= ptr + |s|
  {
    LoadBE(s[address - ptr..address - ptr + size])
  }

  // SIZEOF_INT is a macro: each build divides by one constant.
  function RoundDown(address: nat, size: nat): nat {
    if size == 4 then address / 4 * 4 else address / 8 * 8
  }

  function EndWords(end: nat, size: nat): nat { U64(RoundDown(U64(end), size)) }

  function StartWords(ptr: nat, size: nat): nat { U64(RoundDown(U64(U64(ptr) + size - 1), size)) }

  lemma RoundsDown(address: nat, size: nat)
    requires size == 4 || size == 8
    ensures Aligned(RoundDown(address, size), size) && address - size < RoundDown(address, size) <= address
  {
    if size == 4 {
      ModUnique(address / 4 * 4, 4, address / 4, 0);
    } else {
      ModUnique(address / 8 * 8, 8, address / 8, 0);
    }
  }

  /** The zones of a buffer of more than 20 bytes: both bounds are aligned and inside the buffer, they
      are the nearest such addresses, no 64-bit address computation wraps, and the source's assert
      (end_words > ptr) holds. */
  lemma Zones(ptr: nat, len: nat, size: nat)
    requires size == 4 || size == 8
    requires len > 20 && ptr + len < 0x1_0000_0000_0000_0000
    ensures var ew, sw := EndWords(ptr + len, size), StartWords(ptr, size);
            && Aligned(ew, size) && Aligned(sw, size)
            && ptr <= sw < ptr + size && ptr + len - size < ew <= ptr + len
            && ptr < ew && sw < ew
  {
    RoundsDown(ptr + len, size);
    RoundsDown(ptr + size - 1, size);
  }

  lemma WordBelow(start: nat, end: nat, size: nat)
    requires size == 4 || size == 8
    requires Aligned(start, size) && Aligned(end, size) && start < end
    ensures start <= end - size && Aligned(end - size, size)
  {
    if size == 4 {
      var a, b := start / 4, end / 4;
      assert start == 4 * a && end == 4 * b && a < b;
      ModUnique(end - 4, 4, b - 1, 0);
    } else {
      var a, b := start / 8, end / 8;
      assert start == 8 * a && end == 8 * b && a < b;
      ModUnique(end - 8, 8, b - 1, 0);
    }
  }

  lemma SkipWord(s: seq<byte>, ptr: nat, size: nat, end: nat)
    requires size == 4 || size == 8
    requires ptr <= end - size && end <= ptr + |s| && Aligned(end - size, size)
    requires ReadWord(s, ptr, size, end - size) == SpaceInt(size)
    ensures TrimEnd(s, end - size - ptr) == TrimEnd(s, end - ptr)
  {
    var o := end - size - ptr;
    var w := s[o..o + size];
    SpaceWordMeans(w);
    assert forall k :: o <= k < o + size ==> s[k] == w[k - o];
    SkipSpaces(s, o, o + size);
  }

  // The byte loop of zones (b) and (a): it stops at the bound or behind a non-space.
  method ScanBytes(s: seq<byte>, ptr: nat, stop: nat, from: nat) returns (end: nat)
    requires ptr <= stop <= from <= ptr + |s|
    ensures stop <= end <= from && TrimEnd(s, end - ptr) == TrimEnd(s, from - ptr)
    ensures end == stop || s[end - 1 - ptr] != SPACE
  {
    end := from;
    while end > stop && s[end - 1 - ptr] == SPACE
      invariant stop <= end <= from && TrimEnd(s, end - ptr) == TrimEnd(s, from - ptr)
    {
      end := end - 1;
    }
  }

  // The word loop of zone (c).
  method ScanWords(s: seq<byte>, ptr: nat, size: nat, stop: nat, from: nat) returns (end: nat)
    requires size == 4 || size == 8
    requires ptr <= stop <= from <= ptr + |s| && Aligned(stop, size) && Aligned(from, size)
    ensures stop <= end <= from && TrimEnd(s, end - ptr) == TrimEnd(s, from - ptr)
  {
    end := from;
    WordFits(stop, end, size);
    while end > stop && ReadWord(s, ptr, size, end - size) == SpaceInt(size)
      invariant stop <= end <= from && Fits(stop, end, size)
      invariant TrimEnd(s, end - ptr) == TrimEnd(s, from - ptr)
    {
      SkipWord(s, ptr, size, end);
      WordFits(stop, end - size, size);
      end := end - size;
    }
  }

  /** Between two addresses there is nothing, or a whole aligned word at the end. */
  predicate Fits(start: nat, end: nat, size: nat) {
    end > start ==> size <= end && start <= end - size && Aligned(end - size, size)
  }

  lemma WordFits(start: nat, end: nat, size: nat)
    requires size == 4 || size == 8
    requires Aligned(start, size) && Aligned(end, size)
    ensures Fits(start, end, size)
  {
    if start < end { WordBelow(start, end, size); }
  }

  /** The same result as the byte loop for every buffer, length and start address; word reads are
      aligned and in bounds (the precondition of ReadWord), byte reads in bounds. */
  method SkipTrailingSpaceAligned(s: seq<byte>, ptr: nat, size: nat) returns (end: nat)
    requires size == 4 || size == 8
    requires ptr + |s| < 0x1_0000_0000_0000_0000
    ensures ptr <= end <= ptr + |s| && end - ptr == TrimEnd(s, |s|)
  {
    end := ptr + |s|;
    if |s| > 20 {
      var endWords, startWords := EndWords(end, size), StartWords(ptr, size);
      Zones(ptr, |s|, size);
      assert endWords > ptr;
      end := ScanBytes(s, ptr, endWords, end);
      if s[end - 1 - ptr] == SPACE && startWords < endWords {
        end := ScanWords(s, ptr, size, startWords, end);
      }
    }
    end := ScanBytes(s, ptr, ptr, end);
  }
}
