/** The software clock: timer increments and corrections, by step and by set. */
module SoftClock {
  import opened Words
  import opened PtpTime

  /** A well-formed clock reading: the nanosecond field is the part below a second. */
  predicate ClockOk(c: Time) {
    IsInt64(c.sec) && 0 <= c.ns < 1_000_000_000
  }

  /** Total nanoseconds wrapped to what 64-bit seconds and a nanosecond field can hold. */
  function ToClock(n: int): int {
    (n + 0x8000_0000_0000_0000 * 1_000_000_000) % (0x1_0000_0000_0000_0000 * 1_000_000_000)
    - 0x8000_0000_0000_0000 * 1_000_000_000
  }

  predicate Representable(n: int) {
    -0x8000_0000_0000_0000 * 1_000_000_000 <= n < 0x8000_0000_0000_0000 * 1_000_000_000
  }

  function Clamp(ns: int): int {
    if ns > 1_000_000_000 then 1_000_000_000 else if ns < -1_000_000_000 then -1_000_000_000 else ns
  }

  /** One second moved between the fields when the nanoseconds have left 0..999999999. */
  function Borrowed(sec: int, ns: int): Time {
    if ns >= 1_000_000_000 then Time(ToInt64(sec + 1), ns - 1_000_000_000)
    else if ns < 0 then Time(ToInt64(sec - 1), ns + 1_000_000_000)
    else Time(sec, ns)
  }

  /** The clock after a correction: stepped when the offset has no seconds, set otherwise. */
  function Adjusted(c: Time, offset: Time): Time {
    if offset.sec == 0 then
      Borrowed(c.sec, ToLong(c.ns + Clamp(offset.ns)))
    else
      var b := Borrowed(c.sec, ToLong(c.ns + offset.ns));
      Time(ToInt64(b.sec + offset.sec), b.ns)
  }

  /** The clock after one 10 ms timer period. */
  function Ticked(c: Time): Time {
    var ns := ToLong(c.ns + 10_000_000);
    if ns >= 1_000_000_000 then Time(ToInt64(c.sec + 1), ns - 1_000_000_000) else Time(c.sec, ns)
  }

  // ----- both kinds of change are addition -----

  lemma ToClockUnique(n: int, r: int, turns: int)
    requires Representable(r)
    requires r == n + turns * (0x1_0000_0000_0000_0000 * 1_000_000_000)
    ensures ToClock(n) == r
  {
  }

  /** The offset can be added with one second moved between the fields. */
  predicate Addable(c: Time, offset: Time) {
    if offset.sec == 0 then -1_000_000_000 <= offset.ns <= 1_000_000_000
    else -1_000_000_000 <= c.ns + offset.ns < 2_000_000_000
  }

  /** A correction, by either path, adds the offset to the clock and leaves it well formed exactly
      when the offset is addable to it. A larger step is cut to one second, its sign kept. */
  lemma AdjustedAdds(c: Time, offset: Time)
    requires ClockOk(c) && -0x8000_0000 <= offset.ns < 0x8000_0000
    ensures ClockOk(Adjusted(c, offset)) && Nanos(Adjusted(c, offset)) == ToClock(Nanos(c) + Nanos(offset))
            <==> Addable(c, offset)
    ensures offset.sec != 0 ==> (ClockOk(Adjusted(c, offset)) <==> Addable(c, offset))
    ensures offset.sec == 0 && offset.ns > 1_000_000_000 ==>
              Nanos(Adjusted(c, offset)) == ToClock(Nanos(c) + 1_000_000_000)
    ensures offset.sec == 0 && offset.ns < -1_000_000_000 ==>
              Nanos(Adjusted(c, offset)) == ToClock(Nanos(c) - 1_000_000_000)
  {
    hide ToClock, Adjusted;
    if Addable(c, offset) {
      AddableAdds(c, offset);
    } else if offset.sec == 0 {
      ClampedAdds(c, offset);
    } else {
      SetBreaks(c, offset);
    }
  }

  lemma SetBreaks(c: Time, offset: Time)
    requires ClockOk(c) && -0x8000_0000 <= offset.ns < 0x8000_0000 && offset.sec != 0 && !Addable(c, offset)
    ensures !ClockOk(Adjusted(c, offset))
  {
    hide ToInt64;
  }

  lemma ClampedAdds(c: Time, offset: Time)
    requires ClockOk(c) && -0x8000_0000 <= offset.ns < 0x8000_0000 && offset.sec == 0 && !Addable(c, offset)
    ensures Nanos(Adjusted(c, offset)) != ToClock(Nanos(c) + Nanos(offset))
    ensures Nanos(Adjusted(c, offset))
            == ToClock(Nanos(c) + if offset.ns > 0 then 1_000_000_000 else -1_000_000_000)
  {
    var clamped := Time(0, Clamp(offset.ns));
    assert Adjusted(c, offset) == Adjusted(c, clamped);
    hide Adjusted, ToClock;
    AddableAdds(c, clamped);
    ClampLoses(Nanos(c), offset.ns);
  }

  lemma AddableAdds(c: Time, offset: Time)
    requires ClockOk(c) && Addable(c, offset)
    ensures ClockOk(Adjusted(c, offset))
    ensures Nanos(Adjusted(c, offset)) == ToClock(Nanos(c) + Nanos(offset))
  {
    var a := Adjusted(c, offset);
    var carry := if c.ns + offset.ns >= 1_000_000_000 then 1 else if c.ns + offset.ns < 0 then -1 else 0;
    WrapOnce(c.sec + carry, offset.sec);
    assert a == Time(ToInt64(c.sec + carry + offset.sec), c.ns + offset.ns - carry * 1_000_000_000);
    var k := Int64Turns(c.sec + carry + offset.sec);
    ToClockUnique(Nanos(c) + Nanos(offset), Nanos(a), k);
  }

  /** What the clamp cuts off is missing. */
  lemma ClampLoses(n: int, ns: int)
    requires -0x8000_0000 <= ns < 0x8000_0000 && Clamp(ns) != ns
    ensures ToClock(n + Clamp(ns)) != ToClock(n + ns)
  {
  }

  lemma TickedAdds(c: Time)
    requires ClockOk(c)
    ensures ClockOk(Ticked(c))
    ensures Nanos(Ticked(c)) == ToClock(Nanos(c) + 10_000_000)
  {
    var carry := if c.ns + 10_000_000 >= 1_000_000_000 then 1 else 0;
    var k := Int64Turns(c.sec + carry);
    ToClockUnique(Nanos(c) + 10_000_000, Nanos(Ticked(c)), k);
  }

  /** The clock after some timer periods. */
  function TickedTimes(c: Time, n: nat): Time {
    if n == 0 then c else Ticked(TickedTimes(c, n - 1))
  }

  lemma {:induction false} InterruptsAdd(c: Time, n: nat)
    requires ClockOk(c)
    ensures ClockOk(TickedTimes(c, n)) && Nanos(TickedTimes(c, n)) == ToClock(Nanos(c) + 10_000_000 * n)
  {
    if n == 0 {
      ToClockUnique(Nanos(c), Nanos(c), 0);
    } else {
      hide ToClock, Ticked;
      InterruptsAdd(c, n - 1);
      TickedAdds(TickedTimes(c, n - 1));
      ToClockTwice(Nanos(c) + 10_000_000 * (n - 1), 10_000_000);
    }
  }

  /** Timer interrupts before and after a correction, by either path, all count. */
  lemma InterruptsOutsideCount(c: Time, offset: Time, before: nat, after: nat)
    requires ClockOk(c) && Addable(TickedTimes(c, before), offset)
    ensures Nanos(TickedTimes(Adjusted(TickedTimes(c, before), offset), after))
            == ToClock(Nanos(c) + Nanos(offset) + 10_000_000 * (before + after))
  {
    hide ToClock, Adjusted, Addable;
    InterruptsAdd(c, before);
    AddableAdds(TickedTimes(c, before), offset);
    InterruptsAdd(Adjusted(TickedTimes(c, before), offset), after);
    ToClockTwice(Nanos(c) + 10_000_000 * before, Nanos(offset));
    ToClockTwice(Nanos(c) + 10_000_000 * before + Nanos(offset), 10_000_000 * after);
  }

  /** Those between reading the clock and setting it do not: set from the reading, the clock lacks
      10 ms for each of what the same correction after them would have made it. */
  lemma SettingFallsShort(c: Time, offset: Time, inside: nat)
    requires ClockOk(c) && Addable(c, offset) && Addable(TickedTimes(c, inside), offset)
    ensures Nanos(Adjusted(TickedTimes(c, inside), offset))
            == ToClock(Nanos(Adjusted(c, offset)) + 10_000_000 * inside)
  {
    hide ToClock, Adjusted, Addable, TickedTimes;
    InterruptsAdd(c, inside);
    AddableAdds(TickedTimes(c, inside), offset);
    AddableAdds(c, offset);
    ToClockTwice(Nanos(c) + 10_000_000 * inside, Nanos(offset));
    ToClockTwice(Nanos(c) + Nanos(offset), 10_000_000 * inside);
  }

  lemma ToClockTwice(n: int, m: int)
    ensures ToClock(ToClock(n) + m) == ToClock(n + m)
  {
    var turn := 0x1_0000_0000_0000_0000 * 1_000_000_000;
    var half := 0x8000_0000_0000_0000 * 1_000_000_000;
    var k := (n + half) / turn;
    var k' := (ToClock(n) + m + half) / turn;
    ToClockUnique(n + m, ToClock(ToClock(n) + m), -(k + k'));
  }

  // ----- the code's in-place form -----

  /** The ADJUST operation: at most one second either way. */
  method SoftClockAdjust(clock: PtpTime, offset: Long)
    modifies clock
    ensures clock.Value() == Borrowed(old(clock.Value()).sec, ToLong(old(clock.nano) + Clamp(offset)))
  {
    var offsetNs: Long := offset;
    if offsetNs > 1_000_000_000 {
      offsetNs := 1_000_000_000;
    } else if offsetNs < -1_000_000_000 {
      offsetNs := -1_000_000_000;
    }
    clock.nano := ToLong(clock.nano + offsetNs);
    if clock.nano >= 1_000_000_000 {
      clock.nano := clock.nano - 1_000_000_000;
      clock.high, clock.low := Inc64(clock.high, clock.low);
    } else if clock.nano < 0 {
      clock.nano := clock.nano + 1_000_000_000;
      clock.high, clock.low := Dec64(clock.high, clock.low);
    }
  }

  /** The SOFT_TIMER_UPDATE operation. */
  method SoftTimerUpdate(clock: PtpTime)
    modifies clock
    ensures clock.Value() == Ticked(old(clock.Value()))
  {
    clock.nano := ToLong(clock.nano + 10_000_000);
    if clock.nano >= 1_000_000_000 {
      clock.nano := clock.nano - 1_000_000_000;
      clock.high, clock.low := Inc64(clock.high, clock.low);
    }
  }

  /** An offset without seconds steps the clock, with interrupts disabled. Any other reads it,
      adds, and sets it: the timer interrupts that come inside advance a clock that is then
      overwritten. */
  method ClockAdjust(clock: PtpTime, offset: PtpTime, inside: nat)
    requires clock != offset
    modifies clock
    ensures clock.Value() == Adjusted(old(clock.Value()), offset.Value())
  {
    hide ToInt64, ToLong, Ticked;
    if offset.high == 0 && offset.low == 0 {
      SoftClockAdjust(clock, offset.nano);
    } else {
      var current := new PtpTime(clock.high, clock.low, clock.nano);
      for i := 0 to inside
        invariant current.Value() == old(clock.Value()) && current.nano == old(clock.nano)
        modifies clock
      {
        SoftTimerUpdate(clock);
      }
      AddTo(current, offset);
      clock.Assign(current);
    }
  }

  /** The addition between reading the clock and setting it. */
  method AddTo(current: PtpTime, offset: PtpTime)
    requires current != offset
    modifies current
    ensures var b := Borrowed(old(current.Value()).sec, ToLong(old(current.nano) + offset.nano));
            current.Value() == Time(ToInt64(b.sec + offset.Value().sec), b.ns)
  {
    hide ToInt64, ToLong;
    current.nano := ToLong(current.nano + offset.nano);
    if current.nano < 0 {
      current.nano := current.nano + 1_000_000_000;
      current.high, current.low := Dec64(current.high, current.low);
    } else if current.nano >= 1_000_000_000 {
      current.nano := current.nano - 1_000_000_000;
      current.high, current.low := Inc64(current.high, current.low);
    }
    current.high, current.low := Add64(current.high, current.low, offset.high, offset.low);
  }
}
