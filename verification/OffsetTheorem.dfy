/** What a correction does to a slave's error: IEEE 1588-2008 section 11.3 on the client's own
    arithmetic. */
module OffsetTheorem {
  import opened Words
  import opened PtpTime
  import opened SoftClock
  import opened Wire
  import opened Client
  import opened ClientRuns

  /** In range, and far from the end of 64-bit seconds: about 36 thousand million years. */
  predicate Moderate(t: Time) {
    InRange(t) && -0x1000_0000_0000_0000 <= t.sec <= 0x1000_0000_0000_0000
  }

  // ----- the arithmetic -----

  lemma DiffOfBounded(a: Time, b: Time, bound: int)
    requires InRange(a) && InRange(b) && 0 <= bound < 0x3000_0000_0000_0000
    requires -bound <= a.sec <= bound && -bound <= b.sec <= bound
    ensures var d := Diff(a, b);
            Canonical(d) && Nanos(d) == Nanos(a) - Nanos(b) && -2 * bound - 2 <= d.sec <= 2 * bound + 2
  {
    DiffExact(a, b);
    hide Diff;
    var d := Diff(a, b);
    assert d.sec * 1_000_000_000 + d.ns == Nanos(a) - Nanos(b);
  }

  /** Three differences, one of them into its own operand, and a halving are exact. */
  lemma OffsetExact(t1: Time, t2: Time, t3: Time, t4: Time)
    requires Moderate(t1) && Moderate(t2) && Moderate(t3) && Moderate(t4)
    ensures Canonical(Offset(t1, t2, t3, t4)) && IsInt64(Offset(t1, t2, t3, t4).sec)
    ensures Nanos(Offset(t1, t2, t3, t4))
            == TruncHalf((Nanos(t4) - Nanos(t3)) - (Nanos(t2) - Nanos(t1)))
  {
    DiffOfBounded(t2, t1, 0x1000_0000_0000_0000);
    DiffOfBounded(t4, t3, 0x1000_0000_0000_0000);
    var a, b := Diff(t2, t1), Diff(t4, t3);
    DiffOfBounded(b, a, 0x2000_0000_0000_0002);
    HalfExact(Diff(b, a));
    hide Diff, Half;
  }

  /** The rounding of the offset, seen from the error that is left. */
  lemma ErrorLeft(theta: int, d1: int, d2: int)
    ensures var left := theta + TruncHalf(d2 - d1 - 2 * theta);
            && -1 <= 2 * left - (d2 - d1) <= 1
            && (left == 0 <==> d1 == d2 || (d2 == d1 + 1 && theta <= 0) || (d1 == d2 + 1 && theta >= 0))
  {
  }

  /** Equal delays are not necessary for a perfect correction: here the way back takes one
      nanosecond longer, and the offset is still exactly zero. */
  lemma UnequalDelaysCanCancel()
    ensures var t1, t2, t3, t4 := Time(5, 0), Time(5, 100), Time(6, 0), Time(6, 101);
            Nanos(t2) - Nanos(t1) != Nanos(t4) - Nanos(t3) && Offset(t1, t2, t3, t4) == ZERO
  {
    hide Offset;
    var t1, t2, t3, t4 := Time(5, 0), Time(5, 100), Time(6, 0), Time(6, 101);
    OffsetExact(t1, t2, t3, t4);
    CanonicalUnique(Offset(t1, t2, t3, t4));
  }

  /** t1 is the master's timestamp plus the correction field, floored to nanoseconds, exactly when
      that is from 0 to below 2^32 ns. */
  lemma SyncCarriesCorrection(hdr: Header, body: seq<Byte>)
    requires |body| >= 10 && 0 <= ParseTimestamp(body).ns < 1_000_000_000
    ensures Nanos(CorrectedSync(hdr, body)) == Nanos(ParseTimestamp(body)) + CorrectionField(hdr) / 0x1_0000
            <==> 0 <= CorrectionField(hdr) / 0x1_0000 < 0x1_0000_0000
  {
    StampSeconds(body);
    hide ParseTimestamp, CorrectionNs, CorrectionField, Sum;
    CorrectionExactBelow2Pow32(hdr);
    var ns := CorrectionNs(hdr);
    SumExact(ParseTimestamp(body), Time(ns / 1_000_000_000, ns % 1_000_000_000));
  }

  lemma StampSeconds(body: seq<Byte>)
    requires |body| >= 10
    ensures 0 <= ParseTimestamp(body).sec < 0x1_0000_0000_0000
  {
  }

  // ----- one Delay_Resp -----

  /** The slave is ahead by theta; its Sync took d1 and its Delay_Req d2. */
  predicate Measured(c: Client, t4: Time, theta: int, d1: int, d2: int) {
    && Nanos(c.syncTs) == Nanos(c.sync) + d1 + theta
    && Nanos(t4) == Nanos(c.delayTs) - theta + d2
  }

  predicate ModerateTimes(c: Client, t4: Time) {
    && ClockOk(c.clock) && Moderate(c.clock)
    && Moderate(c.sync) && Moderate(c.syncTs) && Moderate(c.delayTs) && Moderate(t4)
  }

  /** After a Delay_Resp the error is half the difference of the delays, to the nanosecond: it is
      gone exactly when the delays are equal, or differ by the one nanosecond that truncation
      toward zero rounds away. */
  lemma CorrectionError(c: Client, e: Event, theta: int, d1: int, d2: int)
    requires ValidConfig(c.cfg) && AnswersRequest(c, e) && c.sync.sec != 0
    requires ModerateTimes(c, ParseTimestamp(ParseHeader(e.packet, c.cfg.domain).body))
    requires Measured(c, ParseTimestamp(ParseHeader(e.packet, c.cfg.domain).body), theta, d1, d2)
    ensures var left := Nanos(Step(c, e).client.clock) - (Nanos(c.clock) - theta);
            && ClockOk(Step(c, e).client.clock)
            && -1 <= 2 * left - (d2 - d1) <= 1
            && (left == 0 <==> d1 == d2 || (d2 == d1 + 1 && theta <= 0) || (d1 == d2 + 1 && theta >= 0))
  {
    hide PacketTaken, ParseHeader, ParseTimestamp, Follows, Adjusted, Offset, TruncHalf, ToClock, Nanos, Representable;
    PacketCases(c, e);
    var t4 := ParseTimestamp(ParseHeader(e.packet, c.cfg.domain).body);
    OffsetExact(c.sync, c.syncTs, c.delayTs, t4);
    var offset := Offset(c.sync, c.syncTs, c.delayTs, t4);
    AddableAdds(c.clock, offset);
    var n := d2 - d1 - 2 * theta;
    assert Nanos(offset) == TruncHalf(n);
    HalfBound(n, c.clock, c.sync, c.syncTs, c.delayTs, t4);
    ToClockUnique(Nanos(c.clock) + Nanos(offset), Nanos(c.clock) + Nanos(offset), 0);
    ErrorLeft(theta, d1, d2);
  }

  lemma HalfBound(n: int, c: Time, t1: Time, t2: Time, t3: Time, t4: Time)
    requires Moderate(c) && Moderate(t1) && Moderate(t2) && Moderate(t3) && Moderate(t4)
    requires n == (Nanos(t4) - Nanos(t3)) - (Nanos(t2) - Nanos(t1))
    ensures Representable(Nanos(c) + TruncHalf(n))
  {
    hide TruncHalf;
    var b := 0x1000_0000_0000_0001 * 1_000_000_000;
    assert -b <= Nanos(t1) <= b && -b <= Nanos(t2) <= b && -b <= Nanos(t3) <= b && -b <= Nanos(t4) <= b;
    var h := TruncHalf(n);
    assert -4 * b <= n <= 4 * b;
    assert -1 <= n - 2 * h <= 1;
    assert -3 * b <= h <= 3 * b;
  }

  /** A packet corrects exactly when it answers the pending Delay_Req and a Sync has been seen;
      the phase matters only through whom a slave hears. */
  lemma CorrectsWhen(c: Client, e: Event)
    requires ValidConfig(c.cfg)
    ensures Count(Step(c, e).out, Correction) > 0 <==> AnswersRequest(c, e) && c.sync.sec != 0
  {
    hide PacketTaken, ParseHeader, ParseTimestamp, ParseAnnounce, Follows, Offset, Ticking, Count, SyncTaken,
         AnswersRequest;
    AnnounceIsNoResponse(c, e);
    if e.Tick? {
      TickOutputs(c, e.announce, e.sync);
    } else {
      FewOutputs(c, e);
      if e.Receive? {
        PacketCases(c, e);
        var p := ParseHeader(e.packet, c.cfg.domain);
        if p.Accepted? && |p.body| >= 10 {
          SyncCorrectsNothing(c, p.hdr, p.body, e.net);
          SyncCorrectsNothing(c.(syncTs := c.clock), p.hdr, p.body, e.net);
        }
      }
    }
  }

  lemma AnnounceIsNoResponse(c: Client, e: Event)
    requires ValidConfig(c.cfg)
    ensures !(Follows(c, e) && AnswersRequest(c, e))
    ensures AnswersRequest(c, e) ==> e.Receive?
  {
  }

  lemma SyncCorrectsNothing(c: Client, hdr: Header, body: seq<Byte>, net: Net)
    requires ValidConfig(c.cfg) && |body| >= 10
    ensures var out := SyncTaken(c, hdr, body, net).out;
            |out| <= 1 && (|out| == 1 ==> out[0].DelayReqSent?)
  {
    hide CorrectedSync, DelayReqBytes;
  }
}
