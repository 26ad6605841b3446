/** Deadlines and timed waits (my_global.h, thr_cond.h): both layouts of struct timespec. */
module Timespec {
  import opened Words
  import opened Wrappers

  const NSEC_PER_SEC := 1_000_000_000
  const INFINITE: dword := 0xFFFF_FFFF

  // ----- Layout with seconds and nanoseconds (HAVE_STRUCT_TIMESPEC) -----

  datatype Timespec = Timespec(tv_sec: int, tv_nsec: int)

  function Total(ts: Timespec): int { ts.tv_sec * NSEC_PER_SEC + ts.tv_nsec }

  predicate Normalised(ts: Timespec) { 0 <= ts.tv_nsec < NSEC_PER_SEC }

  /** The deadline is clock (in 100 ns units) plus nsec to the nanosecond, unless adding them wraps the
      64-bit tick counter, and then it is short by exactly one turn of that counter. */
  method SetTimespecNsec(clock: qword, nsec: qword) returns (abstime: Timespec)
    ensures Normalised(abstime) && abstime.tv_sec >= 0
    ensures Total(abstime) == 100 * clock + nsec
                              - if clock + nsec / 100 < 0x1_0000_0000_0000_0000 then 0 else 100 * 0x1_0000_0000_0000_0000
  {
    var now := U64(clock + nsec / 100);
    var tv_sec := now / 10_000_000;
    abstime := Timespec(tv_sec, now % 10_000_000 * 100 + nsec % 100);
    assert clock + nsec / 100 >= 0x1_0000_0000_0000_0000 ==> now == clock + nsec / 100 - 0x1_0000_0000_0000_0000;
    assert nsec == nsec / 100 * 100 + nsec % 100;
    assert now == tv_sec * 10_000_000 + now % 10_000_000;
  }

  /** sec seconds from now, exactly while sec * 10^9 and the tick counter stay below 2^64. */
  method SetTimespec(clock: qword, sec: qword) returns (abstime: Timespec)
    ensures Normalised(abstime)
    ensures sec * NSEC_PER_SEC < 0x1_0000_0000_0000_0000 && clock + sec * 10_000_000 < 0x1_0000_0000_0000_0000
            <==> Total(abstime) == 100 * clock + sec * NSEC_PER_SEC
  {
    var nsec := U64(sec * NSEC_PER_SEC);
    abstime := SetTimespecNsec(clock, nsec);
    if sec * NSEC_PER_SEC < 0x1_0000_0000_0000_0000 {
      assert nsec / 100 == sec * 10_000_000;
    } else {
      assert nsec < sec * NSEC_PER_SEC;
    }
  }

  function CmpTimespec(ts1: Timespec, ts2: Timespec): int {
    if ts1.tv_sec > ts2.tv_sec || (ts1.tv_sec == ts2.tv_sec && ts1.tv_nsec > ts2.tv_nsec) then 1
    else if ts1.tv_sec < ts2.tv_sec || (ts1.tv_sec == ts2.tv_sec && ts1.tv_nsec < ts2.tv_nsec) then -1
    else 0
  }

  // The subtraction of two time_t is converted to ulonglong before it is scaled.
  function DiffTimespec(ts1: Timespec, ts2: Timespec): qword {
    U64(U64(ts1.tv_sec - ts2.tv_sec) * NSEC_PER_SEC + ts1.tv_nsec - ts2.tv_nsec)
  }

  /** On normalised values the comparison is the order of the instants in nanoseconds. */
  lemma CmpIsTheOrder(a: Timespec, b: Timespec)
    requires Normalised(a) && Normalised(b)
    ensures CmpTimespec(a, b) == (if Total(a) > Total(b) then 1 else if Total(a) < Total(b) then -1 else 0)
    ensures CmpTimespec(a, b) == 0 <==> a == b
    ensures CmpTimespec(b, a) == -CmpTimespec(a, b)
  {
    if a.tv_sec < b.tv_sec { assert a.tv_sec + 1 <= b.tv_sec; }
    if a.tv_sec > b.tv_sec { assert b.tv_sec + 1 <= a.tv_sec; }
  }

  lemma CmpIsTransitive(a: Timespec, b: Timespec, c: Timespec)
    requires Normalised(a) && Normalised(b) && Normalised(c)
    requires CmpTimespec(a, b) <= 0 && CmpTimespec(b, c) <= 0
    ensures CmpTimespec(a, c) <= 0
    ensures CmpTimespec(a, c) == 0 ==> a == b == c
  {
    CmpIsTheOrder(a, b);
    CmpIsTheOrder(b, c);
    CmpIsTheOrder(a, c);
  }

  /** The difference is that of the instants modulo 2^64, hence the exact distance of a later one. */
  lemma DiffIsTheDistance(a: Timespec, b: Timespec)
    ensures DiffTimespec(a, b) == (Total(a) - Total(b)) % 0x1_0000_0000_0000_0000
    ensures DiffTimespec(a, b) == Total(a) - Total(b) <==> 0 <= Total(a) - Total(b) < 0x1_0000_0000_0000_0000
  {
    var m := 0x1_0000_0000_0000_0000;
    var d := a.tv_sec - b.tv_sec;
    var u := U64(d);
    var k := (d - u) / m;
    assert d == u + m * k;
    var x := u * NSEC_PER_SEC + a.tv_nsec - b.tv_nsec;
    var r := U64(x);
    assert x == m * (x / m) + r;
    assert Total(a) - Total(b) == m * (x / m + NSEC_PER_SEC * k) + r;
    ModUnique(Total(a) - Total(b), m, x / m + NSEC_PER_SEC * k, r);
  }

  /** The wait in this layout: the deadline's and the clock's milliseconds are rounded separately. */
  function StructMilliseconds(abstime: Timespec, clock: qword): dword {
    var future := U64(U64(abstime.tv_sec * 1000) + abstime.tv_nsec / 1_000_000);
    var now := clock / 10_000;
    if future < now then 0 else U32(future - now)
  }

  /** Asked at the clock of its own setting, the wait is the whole milliseconds of nsec, one more when the
      rounding carries, all modulo 2^32: so it is the intended wait if and only if nothing carries and the
      wait is under 2^32 ms. */
  lemma StructWaitAtSameClock(abstime: Timespec, clock: qword, nsec: qword)
    requires clock + nsec / 100 < 0x1_0000_0000_0000_0000
    requires Normalised(abstime) && abstime.tv_sec >= 0 && Total(abstime) == 100 * clock + nsec
    ensures var carry := if clock % 10_000 * 100 + nsec % 1_000_000 < 1_000_000 then 0 else 1;
            && StructMilliseconds(abstime, clock) == U32(nsec / 1_000_000 + carry)
            && (StructMilliseconds(abstime, clock) == nsec / 1_000_000
                <==> carry == 0 && nsec / 1_000_000 < 0x1_0000_0000)
  {
    var carry := if clock % 10_000 * 100 + nsec % 1_000_000 < 1_000_000 then 0 else 1;
    var ms := abstime.tv_sec * 1000 + abstime.tv_nsec / 1_000_000;
    assert Total(abstime) == ms * 1_000_000 + abstime.tv_nsec % 1_000_000;
    assert 100 * clock + nsec == (clock / 10_000 + nsec / 1_000_000) * 1_000_000 + (clock % 10_000 * 100 + nsec % 1_000_000);
    assert ms == clock / 10_000 + nsec / 1_000_000 + carry;
    assert nsec / 1_000_000 + carry >= 0x1_0000_0000 ==> U32(nsec / 1_000_000 + carry) < 0x1_0000_0000 <= nsec / 1_000_000 + carry;
    if nsec / 1_000_000 + 1 == 0x1_0000_0000 && carry == 1 { assert U32(nsec / 1_000_000 + carry) == 0; }
    SmallWait(nsec / 1_000_000, carry);
  }

  /** At any clock the wait in this layout is within a millisecond of the time left to the deadline, and 0 if
      the deadline has passed. */
  lemma StructWaitIsNear(abstime: Timespec, clock: qword)
    requires Normalised(abstime) && 0 <= abstime.tv_sec < 0x1_0000_0000_0000
    requires Total(abstime) - 100 * clock < 0xFFFF_FFFF * 1_000_000
    ensures var r, left := StructMilliseconds(abstime, clock), Total(abstime) - 100 * clock;
            && (left >= 0 ==> left - 1_000_000 < r * 1_000_000 < left + 1_000_000)
            && (left < 0 ==> r == 0)
  {
    var future, now := abstime.tv_sec * 1000 + abstime.tv_nsec / 1_000_000, clock / 10_000;
    assert abstime.tv_nsec == abstime.tv_nsec / 1_000_000 * 1_000_000 + abstime.tv_nsec % 1_000_000;
    assert clock == now * 10_000 + clock % 10_000;
    assert Total(abstime) == future * 1_000_000 + abstime.tv_nsec % 1_000_000;
  }

  /** Asked for 100 ns just before the clock reaches a whole millisecond, it waits a millisecond. */
  lemma StructWaitCanCarry()
    ensures StructMilliseconds(Timespec(0, 1_000_000), 9_999) == 1
    ensures Total(Timespec(0, 1_000_000)) == 100 * 9_999 + 100
  {
  }

  lemma SmallWait(ms: nat, carry: nat)
    requires carry <= 1
    ensures U32(ms + carry) == ms <==> carry == 0 && ms < 0x1_0000_0000
  {
    if ms + carry >= 0x1_0000_0000 {
      assert U32(ms + carry) < 0x1_0000_0000;
    }
  }

  // ----- Layout with FILETIME ticks and a remembered timeout (the Win32 build) -----

  datatype FtTimespec = FtTimespec(i64: int, max_timeout_msec: int)

  /** nsec from clock in whole ticks, and the timeout in milliseconds, which a long can hold. */
  function Deadline(clock: nat, nsec: qword): FtTimespec {
    FtTimespec(clock + nsec / 100, Min(nsec / 1_000_000, INT_MAX32))
  }

  /** The same as the 64-bit field holds it: past 2^63 the ticks wrap to a negative number. */
  function StoredDeadline(clock: nat, nsec: qword): FtTimespec {
    FtTimespec(I64(clock + nsec / 100), Min(nsec / 1_000_000, INT_MAX32))
  }

  method SetFtTimespecNsec(clock: nat, nsec: qword) returns (abstime: FtTimespec)
    requires clock < 0x8000_0000_0000_0000
    ensures abstime == StoredDeadline(clock, nsec)
    ensures abstime == Deadline(clock, nsec) <==> clock + nsec / 100 < 0x8000_0000_0000_0000
  {
    var max_timeout_msec := nsec / 1_000_000;
    var i64 := I64(clock + nsec / 100);
    max_timeout_msec := Min(max_timeout_msec, INT_MAX32);
    abstime := FtTimespec(i64, max_timeout_msec);
  }

  /** Whole milliseconds from now to the deadline, none if it has passed, at most the original timeout. */
  function TimeLeft(abstime: FtTimespec, now: int): int {
    var left := abstime.i64 - now;
    if left < 10_000 then 0 else Min(left / 10_000, abstime.max_timeout_msec)
  }

  /** The values that the fields and the clock can hold. */
  predicate Signed64(x: int) { -0x8000_0000_0000_0000 <= x < 0x8000_0000_0000_0000 }

  predicate Fields(abstime: FtTimespec, now: int) {
    Signed64(abstime.i64) && Signed64(now) && 0 <= abstime.max_timeout_msec <= INT_MAX32
  }

  /** For any deadline with the timeout of a set one, and any clock: the truncating division, the two clamps
      and the cast give the time left, counted by the difference as a signed 64-bit number holds it. A null
      deadline never ends. */
  method GetMilliseconds(abstime: Option<FtTimespec>, now: int) returns (r: dword)
    requires abstime.Some? ==> Fields(abstime.value, now)
    ensures r == if abstime.None? then INFINITE
                 else TimeLeft(FtTimespec(I64(abstime.value.i64 - now), abstime.value.max_timeout_msec), 0)
    ensures abstime.None? ==> r == 0xFFFF_FFFF
    ensures abstime.Some? && Signed64(abstime.value.i64 - now) ==>
              WholeMilliseconds(r, abstime.value.i64 - now, abstime.value.max_timeout_msec)
  {
    if abstime.None? {
      return INFINITE;
    }
    TimeLeftIs(FtTimespec(I64(abstime.value.i64 - now), abstime.value.max_timeout_msec), 0);
    if Signed64(abstime.value.i64 - now) { I64InRange(abstime.value.i64 - now); }
    var millis := TruncDiv(I64(abstime.value.i64 - now), 10_000);
    if millis < 0 {
      return 0;
    }
    if millis > abstime.value.max_timeout_msec {
      millis := abstime.value.max_timeout_msec;
    }
    if millis > UINT_MAX {
      millis := UINT_MAX;
    }
    r := U32(millis);
  }

  lemma I64InRange(x: int)
    requires -0x8000_0000_0000_0000 <= x < 0x8000_0000_0000_0000
    ensures I64(x) == x
  {
    if x < 0 { ModUnique(x, 0x1_0000_0000_0000_0000, -1, x + 0x1_0000_0000_0000_0000); }
  }

  /** r milliseconds are what is left of d ticks of 100 ns, in whole milliseconds, up to a cap. */
  predicate WholeMilliseconds(r: int, d: int, cap: int) {
    && 0 <= r <= cap
    && (d < 0 ==> r == 0)
    && (d >= 0 ==> r * 10_000 <= d && (d < (r + 1) * 10_000 || r == cap))
  }

  lemma TimeLeftIs(abstime: FtTimespec, now: int)
    requires 0 <= abstime.max_timeout_msec
    ensures WholeMilliseconds(TimeLeft(abstime, now), abstime.i64 - now, abstime.max_timeout_msec)
  {
    var left := abstime.i64 - now;
    assert left == left / 10_000 * 10_000 + left % 10_000;
  }

  /** A wait is exactly the whole milliseconds between the clock asked and the deadline, up to the timeout. */
  lemma WaitIsExact(clock: nat, nsec: qword, now: nat)
    requires clock < 0x8000_0000_0000_0000 && now < 0x8000_0000_0000_0000
    requires clock + nsec / 100 - now < 0x8000_0000_0000_0000
    ensures WholeMilliseconds(Wait(clock, nsec, now), clock + nsec / 100 - now,
                              if nsec / 1_000_000 < 0x8000_0000 then nsec / 1_000_000 else 0x7FFF_FFFF)
  {
    WaitIsTimeLeft(clock, nsec, now);
    TimeLeftIs(Deadline(clock, nsec), now);
  }

  /** What GetMilliseconds returns for a deadline set at one clock and asked at another. */
  function Wait(clock: nat, nsec: qword, now: int): int {
    var d := StoredDeadline(clock, nsec);
    TimeLeft(FtTimespec(I64(d.i64 - now), d.max_timeout_msec), 0)
  }

  /** Wrapping at both ends cancels: the wait is the time left to the deadline meant, even where the stored
      ticks wrapped; only for a deadline 2^63 ticks ahead or more it is 0 instead. */
  lemma WaitIsTimeLeft(clock: nat, nsec: qword, now: nat)
    requires clock < 0x8000_0000_0000_0000 && now < 0x8000_0000_0000_0000
    ensures Wait(clock, nsec, now)
            == if clock + nsec / 100 - now < 0x8000_0000_0000_0000 then TimeLeft(Deadline(clock, nsec), now) else 0
  {
    var m, ticks, x := 0x1_0000_0000_0000_0000, clock + nsec / 100, clock + nsec / 100 - now;
    assert nsec / 100 <= 0x2_0000_0000_0000_0000 / 100;
    if ticks >= 0x8000_0000_0000_0000 {
      assert I64(ticks) == ticks - m;
    }
    var d := I64(ticks) - now;
    if x >= 0x8000_0000_0000_0000 {
      I64InRange(d);
    } else if ticks >= 0x8000_0000_0000_0000 {
      I64Wraps(x);
    } else {
      I64InRange(d);
    }
  }

  lemma I64Wraps(x: int)
    requires Signed64(x)
    ensures I64(x - 0x1_0000_0000_0000_0000) == x
  {
    var m := 0x1_0000_0000_0000_0000;
    if x >= 0 { ModUnique(x - m, m, -1, x); } else { ModUnique(x - m, m, -2, x + m); }
  }

  /** At the clock it was set, a wait is exactly its milliseconds, capped at the largest long. At any
      other clock, one set back included, it stays within that, never counts up as time passes, never is
      the wait-for-ever value, and is 0 exactly when under a millisecond is left or was asked for. */
  lemma WaitAtAnyClock(clock: nat, nsec: qword, now: nat, later: nat)
    requires clock < 0x8000_0000_0000_0000 && now <= later < 0x8000_0000_0000_0000
    requires clock + nsec / 100 - now < 0x8000_0000_0000_0000
    ensures var asked := Min(nsec / 1_000_000, INT_MAX32);
            && Wait(clock, nsec, clock) == asked
            && 0 <= Wait(clock, nsec, later) <= Wait(clock, nsec, now) <= asked < INFINITE
            && (Wait(clock, nsec, now) == 0 <==> clock + nsec / 100 - now < 10_000 || nsec < 1_000_000)
            && (now <= clock ==> Wait(clock, nsec, now) == asked)
  {
    WaitIsTimeLeft(clock, nsec, clock);
    WaitIsTimeLeft(clock, nsec, now);
    WaitIsTimeLeft(clock, nsec, later);
    assert nsec / 100 / 10_000 == nsec / 1_000_000;
  }
}
