/** The number formats of CString::Format and the parser _tcstol, which the dialogs use to pass
    addresses and process ids from one list cell to the next click. */
module Text {
  import opened Words

  function DigitChar(d: nat): (c: char)
    requires d < 16
    ensures DigitOf(c) == d && PrintedDigit(c)
  {
    if d < 10 then '0' + d as char else 'A' + (d - 10) as char
  }

  predicate PrintedDigit(c: char) { '0' <= c <= '9' || 'A' <= c <= 'F' }

  /** The value of a character as a digit of any base up to 36; 36 for anything else. */
  function DigitOf(c: char): nat {
    if '0' <= c <= '9' then (c - '0') as int
    else if 'A' <= c <= 'Z' then (c - 'A') as int + 10
    else if 'a' <= c <= 'z' then (c - 'a') as int + 10
    else 36
  }

  // ----- Printing -----

  /** At least width digits of v, zero-padded on the left. */
  function Digits(v: nat, base: nat, width: nat): string
    requires base == 10 || base == 16
    decreases v + width
  {
    if v < base && width <= 1 then [DigitChar(v)]
    else Digits(v / base, base, if width > 0 then width - 1 else 0) + [DigitChar(v % base)]
  }

  /** The formats %.nX and %d. */
  function Hex(v: nat, width: nat): string { Digits(v, 16, width) }

  function Dec(x: int): string { if x < 0 then "-" + Digits(-x, 10, 1) else Digits(x, 10, 1) }

  /** What a Format call puts in a cell: its arguments, shown as text when the cell is read. The formats
      are %s, %.nX, %d, "%Xh / %dd" of one count, and "Ordinal: %.8X". */
  datatype Cell = Txt(text: string) | HexN(value: nat, width: nat) | DecN(number: int) | Both(count: dword) | Ordinal(ordinal: nat)

  function Show(c: Cell): string {
    match c
    case Txt(s) => s
    case HexN(v, width) => Hex(v, width)
    case DecN(x) => Dec(x)
    case Both(n) => Hex(n, 1) + "h / " + Dec(I32(n)) + "d"
    case Ordinal(n) => "Ordinal: " + Hex(n, 8)
  }

  // ----- Parsing -----

  /** The value of the digits at the front, after acc. */
  function Parse(s: string, base: nat, acc: nat): nat {
    if s == "" || DigitOf(s[0]) >= base then acc else Parse(s[1..], base, acc * base + DigitOf(s[0]))
  }

  predicate IsBlank(c: char) { c == ' ' || '\t' <= c <= '\r' }

  function SkipBlanks(s: string): string {
    if s != "" && IsBlank(s[0]) then SkipBlanks(s[1..]) else s
  }

  /** A 32-bit long: values outside its range saturate. */
  function Saturate(x: int): int {
    if x > INT_MAX32 then INT_MAX32 else if x < -0x8000_0000 then -0x8000_0000 else x
  }

  // In base 16 a 0x in front of a hex digit is skipped.
  function Unsigned(s: string, base: nat): nat {
    if base == 16 && |s| > 2 && s[0] == '0' && (s[1] == 'x' || s[1] == 'X') && DigitOf(s[2]) < 16
    then Parse(s[2..], base, 0)
    else Parse(s, base, 0)
  }

  function Strtol(text: string, base: nat): int {
    var s := SkipBlanks(text);
    if s != "" && s[0] == '-' then Saturate(0 - Unsigned(s[1..], base))
    else if s != "" && s[0] == '+' then Saturate(Unsigned(s[1..], base))
    else Saturate(Unsigned(s, base))
  }

  /** Blanks and a sign in front, a 0x in base 16, letters of either case, and anything behind the digits; no
      digits are 0. */
  lemma Parses()
    ensures Strtol(" \t12x", 10) == 12 && Strtol("-7", 10) == -7 && Strtol("+7", 10) == 7
    ensures Strtol("0x1f", 16) == 31 && Strtol("1F", 16) == 31 && Strtol("0x1F", 10) == 0 && Strtol("0xG", 16) == 0
    ensures Strtol("", 10) == 0 && Strtol("PID", 10) == 0
  {
    BlanksAndSigns();
    Prefixes();
  }

  lemma BlanksAndSigns()
    ensures Strtol(" \t12x", 10) == 12 && Strtol("-7", 10) == -7 && Strtol("+7", 10) == 7
    ensures Strtol("", 10) == 0 && Strtol("PID", 10) == 0
  {
    assert SkipBlanks(" \t12x") == "12x" by { assert " \t12x"[1..] == "\t12x" && "\t12x"[1..] == "12x"; }
    assert "12x"[1..] == "2x" && "2x"[1..] == "x" && "-7"[1..] == "7" && "+7"[1..] == "7" && "7"[1..] == "";
    assert Parse("12x", 10, 0) == Parse("2x", 10, 1) == Parse("x", 10, 12) == 12;
  }

  lemma Prefixes()
    ensures Strtol("0x1f", 16) == 31 && Strtol("1F", 16) == 31 && Strtol("0x1F", 10) == 0 && Strtol("0xG", 16) == 0
  {
    assert "0x1f"[2..] == "1f" && "1f"[1..] == "f" && "1F"[1..] == "F" && "f"[1..] == "" && "F"[1..] == "";
    assert Parse("1f", 16, 0) == Parse("f", 16, 1) == Parse("", 16, 31) == 31;
    assert Parse("1F", 16, 0) == Parse("F", 16, 1) == Parse("", 16, 31) == 31;
    assert "0x1F"[1..] == "x1F" && "0xG"[1..] == "xG";
    assert Parse("0x1F", 10, 0) == Parse("x1F", 10, 0) == 0 && Parse("0xG", 16, 0) == Parse("xG", 16, 0) == 0;
  }

  // ----- Round trips -----

  predicate AllPrinted(s: string, base: nat) {
    forall k :: 0 <= k < |s| ==> DigitOf(s[k]) < base && PrintedDigit(s[k])
  }

  lemma {:induction false} ParseAppended(init: string, c: char, base: nat, acc: nat)
    requires DigitOf(c) < base && forall k :: 0 <= k < |init| ==> DigitOf(init[k]) < base
    ensures Parse(init + [c], base, acc) == Parse(init, base, acc) * base + DigitOf(c)
    decreases |init|
  {
    var s := init + [c];
    if init == "" {
      assert s[1..] == "";
    } else {
      assert s[1..] == init[1..] + [c];
      ParseAppended(init[1..], c, base, acc * base + DigitOf(init[0]));
    }
  }

  lemma HigherDigits(v: nat, base: nat, width: nat)
    requires base == 10 || base == 16
    requires v >= base || width > 1
    ensures var w := if width > 0 then width - 1 else 0; v / base + w < v + width
  {
    if base == 10 { assert v / 10 <= v; } else { assert v / 16 <= v; }
  }

  lemma {:induction false} DigitsMean(v: nat, base: nat, width: nat)
    requires base == 10 || base == 16
    ensures var s := Digits(v, base, width);
            |s| >= width && |s| >= 1 && Parse(s, base, 0) == v && AllPrinted(s, base)
    decreases v + width
  {
    if v < base && width <= 1 {
      OneDigit(v, base);
    } else {
      var w := if width > 0 then width - 1 else 0;
      HigherDigits(v, base, width);
      DigitsMean(v / base, base, w);
      AppendDigit(v, base, Digits(v / base, base, w));
    }
  }

  lemma OneDigit(v: nat, base: nat)
    requires v < base && (base == 10 || base == 16)
    ensures Parse([DigitChar(v)], base, 0) == v && AllPrinted([DigitChar(v)], base)
  {
    assert [DigitChar(v)][1..] == "";
  }

  lemma AppendDigit(v: nat, base: nat, init: string)
    requires base == 10 || base == 16
    requires Parse(init, base, 0) == v / base && AllPrinted(init, base)
    ensures Parse(init + [DigitChar(v % base)], base, 0) == v && AllPrinted(init + [DigitChar(v % base)], base)
  {
    assert 0 <= v % base < base && v == v / base * base + v % base by {
      if base == 10 { assert v == v / 10 * 10 + v % 10; } else { assert v == v / 16 * 16 + v % 16; }
    }
    ParseAppended(init, DigitChar(v % base), base, 0);
  }

  lemma UnsignedOfDigits(v: nat, base: nat, width: nat)
    requires base == 10 || base == 16
    ensures Unsigned(Digits(v, base, width), base) == v
    ensures SkipBlanks(Digits(v, base, width)) == Digits(v, base, width)
    ensures Digits(v, base, width) != "" && PrintedDigit(Digits(v, base, width)[0])
  {
    DigitsMean(v, base, width);
    PrintedText(Digits(v, base, width), base);
  }

  lemma PrintedText(s: string, base: nat)
    requires s != "" && AllPrinted(s, base)
    ensures Unsigned(s, base) == Parse(s, base, 0) && SkipBlanks(s) == s && PrintedDigit(s[0])
  {
  }

  /** A %.nX cell parsed in base 16 and stored in a DWORD gives the value back exactly below 2^31:
      the parser's long saturates there. */
  lemma HexRoundTrip(v: dword, width: nat)
    ensures Strtol(Hex(v, width), 16) == Min(v, INT_MAX32)
    ensures U32(Strtol(Hex(v, width), 16)) == v <==> v <= INT_MAX32
  {
    UnsignedOfDigits(v, 16, width);
  }

  /** No more zeros than the width asks for: longer than that, a number starts with its first digit. With the
      value, the length and the digits this fixes the text. */
  lemma {:induction false} NoExtraZeros(v: nat, base: nat, width: nat)
    requires base == 10 || base == 16
    ensures var s := Digits(v, base, width); |s| > width && |s| > 1 ==> s[0] != '0'
    decreases v + width
  {
    if v < base && width <= 1 {
    } else {
      var w := if width > 0 then width - 1 else 0;
      HigherDigits(v, base, width);
      NoExtraZeros(v / base, base, w);
      FirstDigit(v, base, width);
    }
  }

  lemma FirstDigit(v: nat, base: nat, width: nat)
    requires base == 10 || base == 16
    requires v >= base || width > 1
    ensures var high := Digits(v / base, base, if width > 0 then width - 1 else 0);
            && Digits(v, base, width)[0] == high[0] && |Digits(v, base, width)| == |high| + 1
            && (|high| == 1 && width <= 1 ==> high[0] != '0')
  {
    var w := if width > 0 then width - 1 else 0;
    DigitsMean(v / base, base, w);
    if width <= 1 {
      assert v / base > 0 by { if base == 10 {} else {} }
      if |Digits(v / base, base, w)| == 1 { OneCharacter(v / base, base); }
    }
  }

  lemma OneCharacter(v: nat, base: nat)
    requires v > 0 && (base == 10 || base == 16) && |Digits(v, base, 0)| == 1
    ensures Digits(v, base, 0)[0] != '0'
  {
    if v >= base { DigitsMean(v / base, base, 0); }
  }

  /** What the five formats look like. */
  lemma Formats(text: string)
    ensures Show(Txt(text)) == text
    ensures Show(HexN(0x1A, 8)) == "0000001A" && Show(HexN(0x3BCD, 4)) == "3BCD" && Show(HexN(0x1_0002, 4)) == "10002"
    ensures Show(DecN(1095)) == "1095" && Show(DecN(-5)) == "-5" && Show(DecN(0)) == "0"
    ensures Show(Both(26)) == "1Ah / 26d"
    ensures Show(Ordinal(0x1A)) == "Ordinal: 0000001A"
  {
    PaddedHex();
    LongerHex();
    Decimals();
    assert Hex(26, 1) == "1A" && I32(26) == 26;
  }

  lemma PaddedHex()
    ensures Hex(0x1A, 8) == "0000001A"
  {
    assert Digits(0, 16, 2) == "00";
    assert Digits(0, 16, 4) == "0000";
    assert Digits(0, 16, 6) == "000000";
    assert Digits(1, 16, 7) == "0000001";
  }

  lemma LongerHex()
    ensures Hex(0x3BCD, 4) == "3BCD" && Hex(0x1_0002, 4) == "10002"
  {
    assert Digits(0x3B, 16, 2) == "3B";
    assert Digits(0x10, 16, 1) == "10" && Digits(0x100, 16, 2) == "100" && Digits(0x1000, 16, 3) == "1000";
  }

  lemma Decimals()
    ensures Dec(1095) == "1095" && Dec(-5) == "-5" && Dec(0) == "0" && Dec(26) == "26"
  {
    assert Digits(10, 10, 0) == "10" && Digits(109, 10, 0) == "109";
  }

  lemma HexSaturates()
    ensures U32(Strtol(Hex(0x8000_0000, 8), 16)) == 0x7FFF_FFFF
  {
    HexRoundTrip(0x8000_0000, 8);
  }

  lemma StrtolOfSigned(digits: string)
    requires digits != "" && PrintedDigit(digits[0]) && SkipBlanks(digits) == digits
    ensures Strtol(digits, 10) == Saturate(Unsigned(digits, 10))
    ensures Strtol("-" + digits, 10) == Saturate(0 - Unsigned(digits, 10))
  {
    var s := "-" + digits;
    assert SkipBlanks(s) == s && s[1..] == digits;
  }

  /** What a 32-bit long cannot hold is cut to its range, at both ends. */
  lemma CutToRange(n: int)
    requires n >= 0
    ensures Strtol("-" + Dec(n), 10) == if n <= 0x8000_0000 then -n else -0x8000_0000
    ensures Strtol(Dec(n), 10) == if n <= 0x7FFF_FFFF then n else 0x7FFF_FFFF
  {
    UnsignedOfDigits(n, 10, 1);
    StrtolOfSigned(Digits(n, 10, 1));
  }

  lemma StrtolOfDec(x: int)
    requires -0x8000_0000 <= x <= INT_MAX32
    ensures Strtol(Dec(x), 10) == x
  {
    var n := if x < 0 then -x else x;
    UnsignedOfDigits(n, 10, 1);
    StrtolOfSigned(Digits(n, 10, 1));
  }

  /** A DWORD printed with %d and parsed back into a DWORD survives over its whole range: from 2^31 on
      it is printed as a negative number. */
  lemma DecRoundTrip(v: dword)
    ensures U32(Strtol(Dec(I32(v)), 10)) == v
  {
    SignedReadBack(v);
    StrtolOfDec(I32(v));
  }

  /** Two hex cells are the same text only for the same value. */
  lemma HexInjective(v: nat, u: nat, width: nat)
    requires Hex(v, width) == Hex(u, width)
    ensures v == u
  {
    DigitsMean(v, 16, width);
    DigitsMean(u, 16, width);
  }
}
