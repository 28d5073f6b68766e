/** PTP times: split seconds plus signed nanoseconds, their difference, sum and half. */
module PtpTime {
  import opened Words

  /** A time with its two second limbs joined. */
  datatype Time = Time(sec: int, ns: int)

  const ZERO := Time(0, 0)

  function Nanos(t: Time): int {
    t.sec * 1_000_000_000 + t.ns
  }

  /** What the code's comments call "nanosecond field is in range +/-0-999999999". */
  predicate InRange(t: Time) {
    -1_000_000_000 < t.ns < 1_000_000_000
  }

  /** In range, and the two fields never disagree in sign. */
  predicate Canonical(t: Time) {
    && InRange(t)
    && (t.sec > 0 ==> t.ns >= 0)
    && (t.sec < 0 ==> t.ns <= 0)
  }

  /** Division by two that truncates toward zero, as C divides. */
  function TruncHalf(n: int): (r: int)
    ensures n >= 0 ==> 0 <= n - 2 * r <= 1
    ensures n <= 0 ==> -1 <= n - 2 * r <= 0
  {
    if n >= 0 then n / 2 else -(-n / 2)
  }

  /** The time that truncated division of n by 10^9 gives. */
  function FromNanos(n: int): (t: Time)
    ensures Canonical(t) && Nanos(t) == n
  {
    if n >= 0 then Time(n / 1_000_000_000, n % 1_000_000_000)
    else Time(-((-n) / 1_000_000_000), -((-n) % 1_000_000_000))
  }

  /** A number of nanoseconds has one canonical form. */
  lemma CanonicalUnique(t: Time)
    requires Canonical(t)
    ensures t == FromNanos(Nanos(t))
  {
  }

  // ----- the two adjustments that follow a difference or a sum -----

  /** The whole second a nanosecond result of magnitude 10^9 or more gives up. */
  function Carry(ns: int): int {
    if ns <= -1_000_000_000 then -1 else if ns >= 1_000_000_000 then 1 else 0
  }

  function Carried(sec: int, ns: int): Time {
    Time(ToInt64(sec + Carry(ns)), ns - Carry(ns) * 1_000_000_000)
  }

  function Aligned(t: Time): Time {
    if t.sec > 0 && t.ns < 0 then Time(t.sec - 1, t.ns + 1_000_000_000)
    else if t.sec < 0 && t.ns > 0 then Time(t.sec + 1, t.ns - 1_000_000_000)
    else t
  }

  function Normalised(sec: int, ns: int): Time {
    Aligned(Carried(ToInt64(sec), ToLong(ns)))
  }

  function Diff(a: Time, b: Time): Time {
    Normalised(a.sec - b.sec, a.ns - b.ns)
  }

  function Sum(a: Time, b: Time): Time {
    Normalised(a.sec + b.sec, a.ns + b.ns)
  }

  function Half(t: Time): Time {
    if t.sec < 0 || t.ns < 0 then
      var sec, ns := ToInt64(-t.sec), ToLong(-t.ns);
      Time(ToInt64(-(sec / 2)), -(ns / 2 + sec % 2 * 500_000_000))
    else
      Time(t.sec / 2, t.ns / 2 + t.sec % 2 * 500_000_000)
  }

  // ----- what they compute -----

  /** For any two in-range times, of any signs, the difference is canonical, and it is
      exact if and only if the seconds with their carry fit 64 bits. */
  lemma DiffExact(a: Time, b: Time)
    requires InRange(a) && InRange(b)
    ensures Canonical(Diff(a, b)) && IsInt64(Diff(a, b).sec)
    ensures Nanos(Diff(a, b)) == Nanos(a) - Nanos(b) <==> IsInt64(a.sec - b.sec + Carry(a.ns - b.ns))
  {
    hide Normalised;
    NormalisedExact(a.sec - b.sec, a.ns - b.ns);
  }

  lemma SumExact(a: Time, b: Time)
    requires InRange(a) && InRange(b)
    ensures Canonical(Sum(a, b)) && IsInt64(Sum(a, b).sec)
    ensures Nanos(Sum(a, b)) == Nanos(a) + Nanos(b) <==> IsInt64(a.sec + b.sec + Carry(a.ns + b.ns))
  {
    hide Normalised;
    NormalisedExact(a.sec + b.sec, a.ns + b.ns);
  }

  lemma NormalisedExact(sec: int, ns: int)
    requires -2_000_000_000 < ns < 2_000_000_000
    ensures Canonical(Normalised(sec, ns)) && IsInt64(Normalised(sec, ns).sec)
    ensures Nanos(Normalised(sec, ns)) == sec * 1_000_000_000 + ns <==> IsInt64(sec + Carry(ns))
  {
    CarriedExact(sec, ns);
    AlignedKeeps(Carried(ToInt64(sec), ns));
  }

  lemma CarriedExact(sec: int, ns: int)
    requires -2_000_000_000 < ns < 2_000_000_000
    ensures var c := Carried(ToInt64(sec), ns);
            && InRange(c) && IsInt64(c.sec)
            && (Nanos(c) == sec * 1_000_000_000 + ns <==> IsInt64(sec + Carry(ns)))
  {
    WrapOnce(sec, Carry(ns));
    var x := sec + Carry(ns);
    var c := Carried(ToInt64(sec), ns);
    assert c.sec == ToInt64(x);
    assert Nanos(c) == sec * 1_000_000_000 + ns <==> c.sec == x;
  }

  lemma AlignedKeeps(t: Time)
    requires InRange(t) && IsInt64(t.sec)
    ensures Canonical(Aligned(t)) && IsInt64(Aligned(t).sec) && Nanos(Aligned(t)) == Nanos(t)
  {
  }

  /** Halving a canonical time truncates its total toward zero, and the result is canonical,
      for every 64-bit count of seconds but the one that has no negation. */
  lemma HalfExact(t: Time)
    requires Canonical(t) && IsInt64(t.sec)
    ensures InRange(Half(t)) && IsInt64(Half(t).sec)
    ensures Half(t) == FromNanos(TruncHalf(Nanos(t))) <==> t.sec != -0x8000_0000_0000_0000
  {
    if t.sec == -0x8000_0000_0000_0000 {
      HalfOfLeast(t);
      assert FromNanos(TruncHalf(Nanos(t))).sec <= 0;
      hide Half, FromNanos, TruncHalf;
    } else {
      HalfNanos(t);
      CanonicalUnique(Half(t));
      hide Half, FromNanos, TruncHalf;
    }
  }

  /** The least count of seconds is its own negation, and its half comes out positive. */
  lemma HalfOfLeast(t: Time)
    requires Canonical(t) && t.sec == -0x8000_0000_0000_0000
    ensures Half(t).sec == 0x4000_0000_0000_0000 && InRange(Half(t))
  {
    WrapUnique(0x8000_0000_0000_0000, -0x8000_0000_0000_0000, -1);
    WrapUnique(0x4000_0000_0000_0000, 0x4000_0000_0000_0000, 0);
    hide ToInt64;
    assert Half(t) == Time(0x4000_0000_0000_0000, -(-t.ns / 2));
  }

  lemma HalfNanos(t: Time)
    requires Canonical(t) && IsInt64(t.sec) && t.sec != -0x8000_0000_0000_0000
    ensures Canonical(Half(t)) && Nanos(Half(t)) == TruncHalf(Nanos(t))
  {
    if t.sec < 0 || t.ns < 0 {
      HalfOfParts(Time(-t.sec, -t.ns));
    } else {
      HalfOfParts(t);
    }
  }

  lemma HalfOfParts(t: Time)
    requires t.sec >= 0 && 0 <= t.ns < 1_000_000_000
    ensures var h := Time(t.sec / 2, t.ns / 2 + t.sec % 2 * 500_000_000);
            Canonical(h) && Nanos(h) == Nanos(t) / 2
  {
    assert t.sec == 2 * (t.sec / 2) + t.sec % 2;
  }

  // ----- the code's in-place form -----

  /** NX_PTP_TIME: the callers pass these by pointer, and the result may be an operand. */
  class PtpTime {
    var high: Long
    var low: ULong
    var nano: Long

    constructor (high: Long, low: ULong, nano: Long)
      ensures this.high == high && this.low == low && this.nano == nano
    {
      this.high, this.low, this.nano := high, low, nano;
    }

    function Value(): (t: Time)
      reads this
      ensures IsInt64(t.sec)
    {
      Time(Join(high, low), nano)
    }

    method Assign(other: PtpTime)
      modifies this
      ensures Value() == old(other.Value())
      ensures high == old(other.high) && low == old(other.low)
    {
      high, low, nano := other.high, other.low, other.nano;
    }

    method Reset()
      modifies this
      ensures Value() == ZERO
    {
      high, low, nano := 0, 0, 0;
    }
  }

  /** The range and sign adjustments shared by TimeDiff and TimeSum. */
  method Normalise(secHi: Long, secLo: ULong, nanos: Long) returns (hi: Long, lo: ULong, ns: Long)
    ensures Time(Join(hi, lo), ns) == Aligned(Carried(Join(secHi, secLo), nanos))
  {
    hi, lo, ns := secHi, secLo, nanos;
    if ns <= -1_000_000_000 {
      ns := ns + 1_000_000_000;
      hi, lo := Dec64(hi, lo);
    } else if ns >= 1_000_000_000 {
      ns := ns - 1_000_000_000;
      hi, lo := Inc64(hi, lo);
    }
    assert Time(Join(hi, lo), ns) == Carried(Join(secHi, secLo), nanos);
    if hi >= 0 && (hi != 0 || lo != 0) {
      if ns < 0 {
        ns := ns + 1_000_000_000;
        hi, lo := Dec64(hi, lo);
      }
    } else if hi < 0 {
      if ns > 0 {
        ns := ns - 1_000_000_000;
        hi, lo := Inc64(hi, lo);
      }
    }
  }

  /** result := time1 - time2; result may alias either operand. */
  method TimeDiff(time1: PtpTime, time2: PtpTime, result: PtpTime)
    modifies result
    ensures result.Value() == Diff(old(time1.Value()), old(time2.Value()))
  {
    hide ToInt64, ToLong;
    var secHi, secLo := Sub64(time1.high, time1.low, time2.high, time2.low);
    var ns := ToLong(time1.nano - time2.nano);
    secHi, secLo, ns := Normalise(secHi, secLo, ns);
    result.high, result.low, result.nano := secHi, secLo, ns;
  }

  /** result := time1 + time2; result may alias either operand. */
  method TimeSum(time1: PtpTime, time2: PtpTime, result: PtpTime)
    modifies result
    ensures result.Value() == Sum(old(time1.Value()), old(time2.Value()))
  {
    hide ToInt64, ToLong;
    var secHi, secLo := Add64(time1.high, time1.low, time2.high, time2.low);
    var ns := ToLong(time1.nano + time2.nano);
    secHi, secLo, ns := Normalise(secHi, secLo, ns);
    result.high, result.low, result.nano := secHi, secLo, ns;
  }

  lemma ShiftLimbs(hi: Long, lo: ULong)
    ensures Join(hi, lo) % 2 == lo % 2
    ensures Join(hi / 2, lo / 2 + if hi % 2 == 1 then 0x8000_0000 else 0) == Join(hi, lo) / 2
  {
    assert hi == 2 * (hi / 2) + hi % 2 && lo == 2 * (lo / 2) + lo % 2;
  }

  /** time := time / 2 on the limbs: the low bit of the high limb moves to the top of the low one. */
  method TimeDivBy2(time: PtpTime)
    modifies time
    ensures time.Value() == Half(old(time.Value()))
  {
    hide ToInt64, ToLong;
    var secHi, secLo := time.high, time.low;
    var ns: int := time.nano;
    var neg := secHi < 0 || ns < 0;
    if neg {
      secHi, secLo := Neg64(secHi, secLo);
      ns := ToLong(-ns);
    }
    secHi, secLo, ns := HalveUnsigned(secHi, secLo, ns);
    if neg {
      secHi, secLo := Neg64(secHi, secLo);
      ns := -ns;
    }
    time.high, time.low, time.nano := secHi, secLo, ns;
  }

  /** The shifts in the middle of TimeDivBy2. */
  method HalveUnsigned(secHi: Long, secLo: ULong, nanos: Long) returns (hi: Long, lo: ULong, ns: int)
    ensures Join(hi, lo) == Join(secHi, secLo) / 2
    ensures ns == nanos / 2 + Join(secHi, secLo) % 2 * 500_000_000
  {
    ShiftLimbs(secHi, secLo);
    ns := nanos / 2;
    if secLo % 2 == 1 {
      ns := ns + 500_000_000;
    }
    lo := secLo / 2;
    if secHi % 2 == 1 {
      lo := lo + 0x8000_0000;
    }
    hi := secHi / 2;
  }
}
