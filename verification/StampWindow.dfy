/** How far the nanosecond field of a received timestamp may stray before a correction breaks the
    clock. The client checks none of them. */
module StampWindow {
  import opened Words
  import opened PtpTime
  import opened SoftClock
  import opened Wire
  import opened Client
  import opened ClientRuns

  /** What t1 may hold. */
  predicate SyncNs(ns: int) {
    -1_000_000_000 <= ns < 2_000_000_000
  }

  /** What the timestamp of a Delay_Resp may hold. */
  predicate ResponseNs(ns: int) {
    -1_000_000_003 <= ns <= 2_000_000_002
  }

  /** What the timestamp of a Sync or Follow_Up may hold if its correction field may be anything. */
  predicate StampNs(ns: int) {
    -1_000_000_000 <= ns <= 1_147_483_648
  }

  // ----- inside the windows -----

  lemma NormalisedWithin(sec: int, ns: int, extra: nat)
    requires extra <= 3 && -1_999_999_999 - extra <= ns <= 1_999_999_999 + extra
    ensures -999_999_999 - extra <= Normalised(sec, ns).ns <= 999_999_999 + extra
  {
    hide ToInt64;
  }

  lemma HalfWithin(t: Time)
    requires -1_000_000_001 <= t.ns <= 1_000_000_001
    ensures -1_000_000_000 <= Half(t).ns <= 1_000_000_000
  {
    hide ToInt64;
    assert 0 <= t.sec % 2 <= 1 && 0 <= ToInt64(-t.sec) % 2 <= 1;
  }

  lemma OffsetWithin(t1: Time, t2: Time, t3: Time, t4: Time)
    requires SyncNs(t1.ns) && ClockOk(t2) && ClockOk(t3) && ResponseNs(t4.ns)
    ensures -1_000_000_000 <= Offset(t1, t2, t3, t4).ns <= 1_000_000_000
  {
    hide Normalised, Half;
    var a, b := Diff(t2, t1), Diff(t4, t3);
    NormalisedWithin(t2.sec - t1.sec, t2.ns - t1.ns, 0);
    NormalisedWithin(t4.sec - t3.sec, t4.ns - t3.ns, 3);
    NormalisedWithin(b.sec - a.sec, b.ns - a.ns, 2);
    HalfWithin(Diff(b, a));
  }

  // ----- outside -----

  /** Times of a Sync, of one Sync and Delay_Req stamped together, and of a Delay_Resp, and a clock
      that the correction breaks. */
  predicate Breaks(clock: Time, t1: Time, t23: Time, t4: Time) {
    && ClockOk(clock) && ClockOk(t23)
    && 0 < t1.sec < 0x1_0000_0000_0000 && 0 <= t4.sec < 0x1_0000_0000_0000
    && !ClockOk(Adjusted(clock, Offset(t1, t23, t23, t4)))
  }

  lemma SmallInt64(x: int)
    requires -100 <= x <= 100
    ensures ToInt64(x) == x
  {
  }

  /** Differences of moderate seconds with a carry in view. */
  lemma CarriedDiff(a: Time, b: Time, carry: int)
    requires -50 <= a.sec - b.sec <= 50 && -0x8000_0000 <= a.ns - b.ns < 0x8000_0000
    requires carry == Carry(a.ns - b.ns)
    ensures Diff(a, b) == Aligned(Time(a.sec - b.sec + carry, a.ns - b.ns - carry * 1_000_000_000))
  {
    SmallInt64(a.sec - b.sec);
    SmallInt64(a.sec - b.sec + carry);
    hide ToInt64;
  }

  lemma HalfOddSeconds(t: Time)
    requires -0x8000_0000 < t.ns < 0x8000_0000
    ensures t.sec == 3 && t.ns >= 0 ==> Half(t) == Time(1, t.ns / 2 + 500_000_000)
    ensures t.sec == -3 && t.ns <= 0 ==> Half(t) == Time(-1, -(-t.ns / 2 + 500_000_000))
  {
    SmallInt64(3);
    SmallInt64(-3);
    SmallInt64(1);
    SmallInt64(-1);
    hide ToInt64;
  }

  /** An offset of one second with more than another in its nanoseconds breaks a clock at the end,
      or the beginning, of its second. */
  lemma HugeOffsetBreaks(offset: Time)
    requires -0x8000_0000 <= offset.ns < 0x8000_0000
    ensures offset.sec == 1 && offset.ns > 1_000_000_000 ==> !ClockOk(Adjusted(Time(10, 999_999_999), offset))
    ensures offset.sec == -1 && offset.ns < -1_000_000_000 ==> !ClockOk(Adjusted(Time(10, 0), offset))
  {
    AdjustedAdds(Time(10, 999_999_999), offset);
    AdjustedAdds(Time(10, 0), offset);
    hide Adjusted;
  }

  const AT_END := Time(10, 999_999_999)
  const AT_START := Time(10, 0)

  /** A Delay_Resp too far ahead breaks a correction though t1 is proper. */
  lemma LateResponseBreaks(ns: Long)
    requires ns > 2_000_000_002
    ensures Breaks(AT_END, Time(1, 999_999_999), Time(1, 0), Time(2, ns))
  {
    hide Diff, Half, Adjusted;
    var t1, t2, t4 := Time(1, 999_999_999), Time(1, 0), Time(2, ns);
    var a, b := Diff(t2, t1), Diff(t4, t2);
    CarriedDiff(t2, t1, 0);
    CarriedDiff(t4, t2, 1);
    CarriedDiff(b, a, 1);
    HalfOddSeconds(Diff(b, a));
    HugeOffsetBreaks(Half(Diff(b, a)));
  }

  /** One too far behind does too; the other fields keep the differences within 32 bits. */
  lemma EarlyResponseBreaks(ns: Long)
    requires ns < -1_000_000_003
    ensures var n := if ns < -2_000_000_003 then 0 else ns + 2_000_000_003;
            Breaks(AT_START, Time(10, n - 999_999_999), Time(10, n), Time(9, ns))
  {
    hide Diff, Half, Adjusted;
    var n := if ns < -2_000_000_003 then 0 else ns + 2_000_000_003;
    var t1, t2, t4 := Time(10, n - 999_999_999), Time(10, n), Time(9, ns);
    var a, b := Diff(t2, t1), Diff(t4, t2);
    CarriedDiff(t2, t1, 0);
    CarriedDiff(t4, t2, -1);
    CarriedDiff(b, a, -1);
    HalfOddSeconds(Diff(b, a));
    HugeOffsetBreaks(Half(Diff(b, a)));
  }

  /** t1 too far ahead breaks a correction by a Delay_Resp inside its window. */
  lemma LateSyncBreaks(ns: Long)
    requires ns >= 2_000_000_000
    ensures var y := if ns >= 2_000_000_003 then 1_999_999_999 else 2_000_000_002;
            Breaks(AT_END, Time(1, ns), Time(1, 0), Time(1, y))
  {
    hide Diff, Half, Adjusted;
    var y := if ns >= 2_000_000_003 then 1_999_999_999 else 2_000_000_002;
    var t1, t2, t4 := Time(1, ns), Time(1, 0), Time(1, y);
    var a, b := Diff(t2, t1), Diff(t4, t2);
    CarriedDiff(t2, t1, -1);
    CarriedDiff(t4, t2, 1);
    CarriedDiff(b, a, 1);
    HalfOddSeconds(Diff(b, a));
    HugeOffsetBreaks(Half(Diff(b, a)));
  }

  lemma EarlySyncBreaks(ns: Long)
    requires -1_147_483_648 <= ns < -1_000_000_000
    ensures Breaks(AT_START, Time(1, ns), Time(1, 999_999_999), Time(1, -2_000_000_004 - ns))
  {
    hide Diff, Half, Adjusted;
    var t1, t2, t4 := Time(1, ns), Time(1, 999_999_999), Time(1, -2_000_000_004 - ns);
    var a, b := Diff(t2, t1), Diff(t4, t2);
    CarriedDiff(t2, t1, 1);
    CarriedDiff(t4, t2, -1);
    CarriedDiff(b, a, -1);
    HalfOddSeconds(Diff(b, a));
    HugeOffsetBreaks(Half(Diff(b, a)));
  }

  /** Farther back the first difference can wrap at 32 bits, and breaks the other way. */
  lemma WrappedSyncBreaks(ns: Long)
    requires ns < -1_147_483_648
    ensures var n := ns + 0x8000_0000;
            Breaks(AT_END, Time(1, ns), Time(1, n), Time(2, n + 999_999_999))
  {
    hide Diff, Half, Adjusted;
    var n := ns + 0x8000_0000;
    var t1, t2, t4 := Time(1, ns), Time(1, n), Time(2, n + 999_999_999);
    var a, b := Diff(t2, t1), Diff(t4, t2);
    WrappedDiff(ns);
    CarriedDiff(t4, t2, 0);
    CarriedDiff(b, a, 1);
    HalfOddSeconds(Diff(b, a));
    HugeOffsetBreaks(Half(Diff(b, a)));
  }

  lemma WrappedDiff(ns: Long)
    ensures Diff(Time(1, ns + 0x8000_0000), Time(1, ns)) == Time(-1, -1_147_483_648)
  {
    SmallInt64(0);
    SmallInt64(-1);
    hide ToInt64;
    assert ToLong(0x8000_0000) == -0x8000_0000;
    hide ToLong;
  }

  // ----- as packets to a client -----

  /** The clock and the records of a client that any run of such packets keeps. */
  predicate TimesOk(c: Client) {
    && ClockOk(c.clock) && ClockOk(c.syncTs) && ClockOk(c.delayTs)
    && IsInt64(c.sync.sec) && SyncNs(c.sync.ns) && c.delayPhase != WaitReqTs
  }

  /** A packet that answers the pending request, with this nanosecond field. */
  predicate AnswersWith(c: Client, e: Event, ns: int) {
    ValidConfig(c.cfg) && AnswersRequest(c, e) && ParseTimestamp(ParseHeader(e.packet, c.cfg.domain).body).ns == ns
  }

  /** One that answers it, with a nanosecond field inside the window. */
  predicate AnswersInWindow(c: Client, e: Event) {
    && ValidConfig(c.cfg) && AnswersRequest(c, e)
    && ResponseNs(ParseTimestamp(ParseHeader(e.packet, c.cfg.domain).body).ns)
  }

  predicate KeepsClock(c: Client, e: Event)
    requires ValidConfig(c.cfg)
  {
    ClockOk(Step(c, e).client.clock)
  }

  function ResponseBody(t4: Time, portId: seq<Byte>): seq<Byte> {
    TimestampBytes(t4) + portId
  }

  lemma ResponseBodyReads(t4: Time, portId: seq<Byte>)
    requires 0 <= t4.sec < 0x1_0000_0000_0000 && -0x8000_0000 <= t4.ns < 0x8000_0000 && |portId| == 10
    ensures var body := ResponseBody(t4, portId);
            |body| == 20 && ParseTimestamp(body) == t4 && body[10..20] == portId
  {
    TimestampRoundTrip(t4);
    var s, body := TimestampBytes(t4), ResponseBody(t4, portId);
    assert forall i :: 0 <= i < 10 ==> body[i] == s[i];
    hide TimestampBytes;
  }

  /** A Delay_Resp to the client, from some source, with this id and timestamp. */
  function Response(cfg: Config, id: UShort, t4: Time): Event
    requires ValidConfig(cfg)
  {
    Receive(HeaderBytes(TYPE_DELAY_RESP, 54, cfg.domain, 0, Zeros(10), id, 0) + ResponseBody(t4, cfg.portId), true,
            Net(true, 0, true, 0))
  }

  lemma ResponseAnswers(c: Client, t4: Time)
    requires ValidConfig(c.cfg) && c.phase != Slave && c.delayPhase == WaitResp
    requires 0 <= t4.sec < 0x1_0000_0000_0000 && -0x8000_0000 <= t4.ns < 0x8000_0000
    ensures var e := Response(c.cfg, c.delayReqId, t4);
            && AnswersRequest(c, e)
            && ParseTimestamp(ParseHeader(e.packet, c.cfg.domain).body) == t4
  {
    ResponseBodyReads(t4, c.cfg.portId);
    hide ResponseBody, ParseTimestamp, ParseHeader, HeaderBytes;
    PrintedHeaderRoundTrip(TYPE_DELAY_RESP, 54, c.cfg.domain, 0, Zeros(10), c.delayReqId, 0,
                           ResponseBody(t4, c.cfg.portId));
  }

  lemma BrokenByResponse(c: Client, t4: Time)
    requires ValidConfig(c.cfg) && c.phase != Slave && c.delayPhase == WaitResp
    requires c.syncTs == c.delayTs && Breaks(c.clock, c.sync, c.syncTs, t4)
    requires -0x8000_0000 <= t4.ns < 0x8000_0000
    ensures var e := Response(c.cfg, c.delayReqId, t4);
            && AnswersWith(c, e, t4.ns) && !KeepsClock(c, e)
            && (ResponseNs(t4.ns) ==> AnswersInWindow(c, e))
  {
    hide Offset, Adjusted, ParseHeader, ParseTimestamp, PacketTaken, Response, RespMatches;
    ResponseAnswers(c, t4);
    PacketCases(c, Response(c.cfg, c.delayReqId, t4));
  }

  // ----- the windows are exact -----

  /** A correction from times in their windows adds its offset to the clock. */
  lemma ResponseKeepsClock(c: Client, e: Event)
    requires ValidConfig(c.cfg) && TimesOk(c) && AnswersRequest(c, e)
    requires ResponseNs(ParseTimestamp(ParseHeader(e.packet, c.cfg.domain).body).ns)
    ensures var n := Step(c, e);
            && TimesOk(n.client)
            && Nanos(n.client.clock) == ToClock(Nanos(c.clock) + OffsetOf(n.out))
  {
    hide PacketTaken, ParseHeader, ParseTimestamp, Follows, Adjusted, Offset, ToClock;
    PacketCases(c, e);
    var t4 := ParseTimestamp(ParseHeader(e.packet, c.cfg.domain).body);
    OffsetWithin(c.sync, c.syncTs, c.delayTs, t4);
    AdjustedAdds(c.clock, Offset(c.sync, c.syncTs, c.delayTs, t4));
    ClockNanosFit(c.clock);
  }

  lemma ClockNanosFit(t: Time)
    requires ClockOk(t)
    ensures ToClock(Nanos(t)) == Nanos(t)
  {
    ToClockUnique(Nanos(t), Nanos(t), 0);
  }

  /** The clock, the t1, the t2 and t3, and the t4 that a field of a Delay_Resp breaks. */
  datatype Witness = Witness(clock: Time, t1: Time, t23: Time, t4: Time)

  predicate IsBroken(w: Witness) {
    Breaks(w.clock, w.t1, w.t23, w.t4)
  }

  lemma BreakingResponse(ns: Long) returns (w: Witness)
    requires !ResponseNs(ns)
    ensures IsBroken(w) && w.t4.ns == ns && SyncNs(w.t1.ns)
  {
    hide Breaks;
    if ns > 0 {
      LateResponseBreaks(ns);
      w := Witness(AT_END, Time(1, 999_999_999), Time(1, 0), Time(2, ns));
    } else {
      EarlyResponseBreaks(ns);
      var n := if ns < -2_000_000_003 then 0 else ns + 2_000_000_003;
      w := Witness(AT_START, Time(10, n - 999_999_999), Time(10, n), Time(9, ns));
    }
  }

  lemma BreakingSync(ns: Long) returns (w: Witness)
    requires !SyncNs(ns)
    ensures IsBroken(w) && w.t1.ns == ns && ResponseNs(w.t4.ns)
  {
    hide Breaks;
    if ns > 0 {
      LateSyncBreaks(ns);
      var y := if ns >= 2_000_000_003 then 1_999_999_999 else 2_000_000_002;
      w := Witness(AT_END, Time(1, ns), Time(1, 0), Time(1, y));
    } else if ns >= -1_147_483_648 {
      EarlySyncBreaks(ns);
      w := Witness(AT_START, Time(1, ns), Time(1, 999_999_999), Time(1, -2_000_000_004 - ns));
    } else {
      WrappedSyncBreaks(ns);
      w := Witness(AT_END, Time(1, ns), Time(1, ns + 0x8000_0000), Time(2, ns + 0x8000_0000 + 999_999_999));
    }
  }

  // ----- the field of a Sync or Follow_Up -----

  /** Without wrapping the sum stays in the window; with it, as far down as the window goes. */
  lemma SumWithin(sec: int, ns: int)
    requires -1_000_000_000 <= ns < 0x8000_0000
    ensures SyncNs(Normalised(sec, ns).ns)
  {
    hide ToInt64;
  }

  lemma StampInWindow(hdr: Header, body: seq<Byte>)
    requires |body| >= 10 && StampNs(ParseTimestamp(body).ns)
    ensures SyncNs(CorrectedSync(hdr, body).ns)
  {
    hide ParseTimestamp, CorrectionNs, Normalised;
    var ns := CorrectionNs(hdr);
    var t := ParseTimestamp(body);
    if ns != 0 {
      SumWithin(t.sec + ns / 1_000_000_000, t.ns + ns % 1_000_000_000);
    }
  }

  function HeaderWith(correctionNs: nat): (hdr: Header)
    requires correctionNs < 0x1_0000_0000
    ensures CorrectionNs(hdr) == correctionNs
  {
    Header(0, TYPE_SYNC, 2, 44, 0, 0, correctionNs / 0x1_0000, correctionNs % 0x1_0000 * 0x1_0000, Zeros(10), 0, 0)
  }

  /** A correction that takes the sum just past 32 bits. */
  lemma WrappedSum(ns: Long)
    requires 1_147_483_648 < ns < 2_000_000_000
    ensures Sum(Time(0, ns), Time(0, 0x8000_0000 - ns)) == Time(-1, -1_147_483_648)
  {
    SmallInt64(0);
    SmallInt64(-1);
    hide ToInt64;
    assert ToLong(0x8000_0000) == -0x8000_0000;
    hide ToLong;
  }

  predicate StampTaken(hdr: Header, body: seq<Byte>, ns: int) {
    |body| >= 10 && ParseTimestamp(body).ns == ns
  }

  predicate LeavesSyncInWindow(hdr: Header, body: seq<Byte>)
    requires |body| >= 10
  {
    SyncNs(CorrectedSync(hdr, body).ns)
  }

  /** No correction: the field itself is t1's. */
  lemma UncorrectedLeaves(ns: Long, body: seq<Byte>)
    requires !SyncNs(ns) && |body| >= 10 && ParseTimestamp(body) == Time(0, ns)
    ensures !LeavesSyncInWindow(HeaderWith(0), body)
  {
    hide ParseTimestamp, CorrectionNs, Sum, HeaderWith;
  }

  lemma CorrectedLeaves(ns: Long, body: seq<Byte>)
    requires SyncNs(ns) && !StampNs(ns) && |body| >= 10 && ParseTimestamp(body) == Time(0, ns)
    ensures !LeavesSyncInWindow(HeaderWith(0x8000_0000 - ns), body)
  {
    hide ParseTimestamp, CorrectionNs, Sum, HeaderWith;
    WrappedSum(ns);
    BelowASecond(0x8000_0000 - ns);
  }

  lemma BelowASecond(ns: int)
    requires 0 <= ns < 1_000_000_000
    ensures ns / 1_000_000_000 == 0 && ns % 1_000_000_000 == ns
  {
  }

  lemma StampLeavesWindow(ns: Long)
    requires !StampNs(ns)
    ensures exists hdr: Header, body: seq<Byte> :: StampTaken(hdr, body, ns) && !LeavesSyncInWindow(hdr, body)
  {
    hide TimestampBytes, ParseTimestamp, HeaderWith, LeavesSyncInWindow;
    TimestampRoundTrip(Time(0, ns));
    var body := TimestampBytes(Time(0, ns));
    var hdr := HeaderWith(if SyncNs(ns) then 0x8000_0000 - ns else 0);
    if SyncNs(ns) {
      CorrectedLeaves(ns, body);
    } else {
      UncorrectedLeaves(ns, body);
    }
    assert StampTaken(hdr, body, ns) && !LeavesSyncInWindow(hdr, body);
  }

  /** A Sync or Follow_Up with this nanosecond field leaves t1 in its window, whatever its
      correction field, exactly when the field is from -1 000 000 000 to 1 147 483 648. */
  lemma StampWindowOfSync(ns: Long)
    ensures (forall hdr: Header, body: seq<Byte> :: StampTaken(hdr, body, ns) ==> LeavesSyncInWindow(hdr, body))
            <==> StampNs(ns)
  {
    hide ParseTimestamp, CorrectedSync;
    if StampNs(ns) {
      forall hdr: Header, body: seq<Byte> | StampTaken(hdr, body, ns)
        ensures LeavesSyncInWindow(hdr, body)
      {
        StampInWindow(hdr, body);
      }
    } else {
      StampLeavesWindow(ns);
    }
  }
}
