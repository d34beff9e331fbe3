/** Interval arithmetic and ordering on clock samples (the psDiffMsecs,
    psDiffUsecs and psCompareTime family). Sampling the clock is not modelled:
    timestamps are inputs. Two build variants share the same arithmetic: the
    gettimeofday variant, whose sub-second field counts microseconds, and the
    Linux CLOCK_MONOTONIC variant, whose sub-second field counts nanoseconds. */
module OsdepTime {

  /** A (tv_sec, tv_usec) or (tv_sec, tv_nsec) pair. */
  datatype Timestamp = Timestamp(sec: int, sub: int)

  /** The unit of the sub-second field. */
  datatype Resolution = Micro | Nano {
    /** Sub-second units in one second. */
    function PerSec(): int { if Micro? then 1_000_000 else 1_000_000_000 }
    /** Sub-second units in one millisecond. */
    function PerMsec(): int { if Micro? then 1000 else 1_000_000 }
  }

  /** What the system clock guarantees of a sample: a sub-second field below one second. */
  predicate WellFormed(t: Timestamp, res: Resolution) {
    0 <= t.sub < res.PerSec()
  }

  /** The sample as one count of sub-second units. */
  function Total(t: Timestamp, res: Resolution): int {
    t.sec * res.PerSec() + t.sub
  }

  const INT32_MIN: int := -0x8000_0000
  const INT32_MAX: int := 0x7fff_ffff

  predicate InInt32(x: int) { INT32_MIN <= x <= INT32_MAX }

  /** The (int32) conversion of the source: two's-complement wrap-around. */
  function Int32(x: int): (r: int)
    ensures InInt32(r)
    ensures InInt32(x) ==> r == x
    ensures (x - r) % 0x1_0000_0000 == 0
  {
    (x + 0x8000_0000) % 0x1_0000_0000 - 0x8000_0000
  }

  /** C division, which truncates toward zero. */
  function CDiv(a: int, d: int): (q: int)
    requires d > 0
    ensures 0 <= a ==> q == a / d
    // on a negative dividend the quotient is rounded up, toward zero
    ensures a < 0 ==> q <= 0 && (q - 1) * d < a <= q * d
  {
    if a >= 0 then a / d else -((-a) / d)
  }

  /** The borrow step: when now's sub-second field is below prev's, one second
      of now is moved into its sub-second field. */
  function Borrow(prev: Timestamp, now: Timestamp, res: Resolution): (n: Timestamp)
    ensures Total(n, res) == Total(now, res)
    ensures n.sec == now.sec - 1 <==> now.sub < prev.sub
    ensures n.sec == now.sec || n.sec == now.sec - 1
    ensures WellFormed(prev, res) && WellFormed(now, res) ==> 0 <= n.sub - prev.sub < res.PerSec()
  {
    if now.sub < prev.sub then Timestamp(now.sec - 1, now.sub + res.PerSec()) else now
  }

  /** psDiffMsecs: now - then in milliseconds. The seconds term is cast to
      int32 and the int32 return type truncates the sum. */
  function DiffMsecs(prev: Timestamp, now: Timestamp, res: Resolution): (r: int)
    ensures InInt32(r)
  {
    var n := Borrow(prev, now, res);
    Int32(Int32((n.sec - prev.sec) * 1000) + CDiv(n.sub - prev.sub, res.PerMsec()))
  }

  /** psDiffUsecs (nanosecond variant) as the source writes it: the seconds term
      goes through an (int32) cast although the function returns int64_t. */
  function DiffUsecsAsWritten(prev: Timestamp, now: Timestamp): (r: int)
    // however far apart the samples are, the result stays within a second of
    // the int32 range: it can never report more than about 2148 seconds
    ensures WellFormed(prev, Nano) && WellFormed(now, Nano) ==> INT32_MIN <= r < INT32_MAX + 1_000_000
  {
    var n := Borrow(prev, now, Nano);
    Int32((n.sec - prev.sec) * 1_000_000) + CDiv(n.sub - prev.sub, 1000)
  }

  /** psDiffUsecs with the seconds term kept at the width of the int64_t result. */
  function DiffUsecs(prev: Timestamp, now: Timestamp): (r: int)
    // on well-formed samples the sign is the order of the instants, and the
    // result is the whole-second difference plus under a second of microseconds
    ensures WellFormed(prev, Nano) && WellFormed(now, Nano) ==>
              && (r >= 0 <==> Total(prev, Nano) <= Total(now, Nano))
              && (Borrow(prev, now, Nano).sec - prev.sec) * 1_000_000 <= r
              && r < (Borrow(prev, now, Nano).sec - prev.sec + 1) * 1_000_000
  {
    var n := Borrow(prev, now, Nano);
    (n.sec - prev.sec) * 1_000_000 + CDiv(n.sub - prev.sub, 1000)
  }

  /** psCompareTime: 1 if a is less than or equal to b, 0 otherwise. */
  function CompareTime(a: Timestamp, b: Timestamp): (r: int)
    ensures r == 0 || r == 1
  {
    if a.sec < b.sec then 1
    else if a.sec == b.sec && a.sub <= b.sub then 1
    else 0
  }

  // ---------------------------------------------------------------------------
  // Properties

  /** With well-formed samples less than 2,000,000 seconds apart (so that no
      int32 conversion wraps), psDiffMsecs is the floor of the exact difference
      in milliseconds: the borrow is exact. */
  lemma DiffMsecsIsFloor(prev: Timestamp, now: Timestamp, res: Resolution)
    requires WellFormed(prev, res) && WellFormed(now, res)
    requires -2_000_000 <= now.sec - prev.sec <= 2_000_000
    ensures DiffMsecs(prev, now, res) == (Total(now, res) - Total(prev, res)) / res.PerMsec()
  {
    var n := Borrow(prev, now, res);
    var d, e := n.sec - prev.sec, n.sub - prev.sub;
    // the exact difference is whole milliseconds of whole seconds plus e
    assert Total(now, res) - Total(prev, res) == (d * 1000) * res.PerMsec() + e;
    assert DiffMsecs(prev, now, res) == d * 1000 + e / res.PerMsec();
  }

  /** The borrow example: 900000 us into one second, then 100000 us into the next, is 200 ms. */
  lemma DiffMsecsBorrowExample(s: int)
    ensures DiffMsecs(Timestamp(s, 900_000), Timestamp(s + 1, 100_000), Micro) == 200
  {
  }

  /** psDiffUsecs, once its seconds term keeps the result width, is the floor of
      the exact difference in microseconds for every pair of well-formed samples. */
  lemma DiffUsecsIsFloor(prev: Timestamp, now: Timestamp)
    requires WellFormed(prev, Nano) && WellFormed(now, Nano)
    ensures DiffUsecs(prev, now) == (Total(now, Nano) - Total(prev, Nano)) / 1000
  {
  }

  /** Within 2000 seconds the as-written psDiffUsecs and the full-width one agree. */
  lemma DiffUsecsAsWrittenAgreesNearby(prev: Timestamp, now: Timestamp)
    requires WellFormed(prev, Nano) && WellFormed(now, Nano)
    requires -2000 <= now.sec - prev.sec <= 2000
    ensures DiffUsecsAsWritten(prev, now) == DiffUsecs(prev, now)
  {
  }

  /** Two samples 2148 seconds apart: the as-written psDiffUsecs wraps to a
      negative duration while the real interval is 2,148,000,000 us. */
  lemma DiffUsecsAsWrittenWraps()
    ensures DiffUsecsAsWritten(Timestamp(0, 0), Timestamp(2148, 0)) == -2_146_967_296
    ensures DiffUsecs(Timestamp(0, 0), Timestamp(2148, 0)) == 2_148_000_000
  {
    assert Borrow(Timestamp(0, 0), Timestamp(2148, 0), Nano) == Timestamp(2148, 0);
  }

  /** psCompareTime is the order of the exact instants on well-formed samples. */
  lemma CompareMatchesTotal(a: Timestamp, b: Timestamp, res: Resolution)
    requires WellFormed(a, res) && WellFormed(b, res)
    ensures CompareTime(a, b) == 1 <==> Total(a, res) <= Total(b, res)
  {
  }

  /** psCompareTime is a total order on (seconds, sub-second) pairs:
      reflexive, antisymmetric, transitive and total. */
  lemma CompareIsTotalOrder(a: Timestamp, b: Timestamp, c: Timestamp)
    ensures CompareTime(a, a) == 1
    ensures CompareTime(a, b) == 1 && CompareTime(b, a) == 1 ==> a == b
    ensures CompareTime(a, b) == 1 && CompareTime(b, c) == 1 ==> CompareTime(a, c) == 1
    ensures CompareTime(a, b) == 1 || CompareTime(b, a) == 1
  {
  }

  /** psDiffMsecs reports an int32 count of milliseconds, so samples about
      24.9 days apart (2,148,000 s) already wrap to a negative difference even
      though psCompareTime orders them. */
  lemma DiffMsecsWrapsAfterDays()
    ensures CompareTime(Timestamp(0, 0), Timestamp(2_148_000, 0)) == 1
    ensures DiffMsecs(Timestamp(0, 0), Timestamp(2_148_000, 0), Micro) == -2_146_967_296
  {
    assert Borrow(Timestamp(0, 0), Timestamp(2_148_000, 0), Micro) == Timestamp(2_148_000, 0);
    assert CDiv(0, 1000) == 0;
    calc {
      Int32(2_148_000 * 1000);
      (2_148_000_000 + 0x8000_0000) % 0x1_0000_0000 - 0x8000_0000;
      { assert 2_148_000_000 + 0x8000_0000 == 0x1_0000_0000 + 516_352; }
      516_352 - 0x8000_0000;
    }
  }

  /** An ordered pair of samples never yields a negative millisecond difference. */
  lemma CompareImpliesNonNegativeDiff(prev: Timestamp, now: Timestamp, res: Resolution)
    requires WellFormed(prev, res) && WellFormed(now, res)
    requires -2_000_000 <= now.sec - prev.sec <= 2_000_000
    requires CompareTime(prev, now) == 1
    ensures DiffMsecs(prev, now, res) >= 0
  {
  }
}
