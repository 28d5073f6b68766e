/** Corrections one might not expect: outside the slave state, from a t1 and a t2 of different Syncs,
    and with another correction between t2 and t3. OffsetTheorem, Pairing and Drift have the exact
    conditions. */
module Unchecked {
  import opened Words
  import opened PtpTime
  import opened SoftClock
  import opened Wire
  import opened Client
  import opened ClientRuns
  import opened StampWindow
  import opened OffsetTheorem
  import opened Exchange

  // ----- corrections outside the slave state -----

  predicate Ticks(events: seq<Event>) {
    forall e :: e in events ==> e.Tick?
  }

  /** A slave-only client that hears nothing leaves the slave state with its Delay_Req pending. */
  lemma {:induction false} TimeoutKeepsPending(c: Client, events: seq<Event>)
    requires ValidConfig(c.cfg) && c.cfg.role == SlaveOnly && Ticks(events)
    requires c.announceTimeout == |events| > 0
    ensures var c' := Steps(c, events);
            c'.phase == Listening && c'.delayPhase == c.delayPhase && c'.delayReqId == c.delayReqId
            && c'.sync == c.sync
    decreases |events|
  {
    hide Ticking;
    var e := events[0];
    assert e in events;
    TickEffect(c, e.announce, e.sync);
    var c1 := Step(c, e).client;
    assert Steps(c, events) == Steps(c1, events[1..]);
    if |events| > 1 {
      TimeoutKeepsPending(c1, events[1..]);
    }
  }

  /** A Delay_Resp with the pending id, for our port, from anyone. */
  predicate IsAnyonesResponse(c: Client, packet: seq<Byte>) {
    var p := ParseHeader(packet, c.cfg.domain);
    && p.Accepted? && p.hdr.messageType == TYPE_DELAY_RESP && p.hdr.sequenceId == c.delayReqId
    && |p.body| >= 20 && p.body[10..20] == c.cfg.portId
  }

  /** Corrections do not stop with the slave state: once the announce timeout has ended it, the
      response still pending is taken, and from any source. */
  lemma ListeningIsCorrected(c: Client, silence: seq<Event>, packet: seq<Byte>, net: Net)
    requires ValidConfig(c.cfg) && c.cfg.role == SlaveOnly && Ticks(silence)
    requires c.delayPhase == WaitResp && c.sync.sec != 0 && c.announceTimeout == |silence| > 0
    requires IsAnyonesResponse(c, packet)
    ensures var c' := Steps(c, silence);
            c'.phase == Listening && Count(Step(c', Receive(packet, true, net)).out, Correction) > 0
  {
    hide ParseHeader, Step, Count;
    TimeoutKeepsPending(c, silence);
    var c' := Steps(c, silence);
    assert AnswersRequest(c', Receive(packet, true, net));
    CorrectsWhen(c', Receive(packet, true, net));
  }

  // ----- a Follow_Up without its Sync -----

  /** A client that has just become a slave holds no Sync, yet it remembers a sequence id, zero
      at first. A Follow_Up with that id gives it a t1 to go with a t2 of zero; and then even
      with no delays and no error the response moves the clock by half of t1. */
  lemma FollowUpWithoutSync(c: Client, followUp: seq<Byte>, resp: seq<Byte>, net: Net, net': Net)
    requires ValidConfig(c.cfg) && c.phase == Slave && c.delayFlag && net.granted && net.sent
    requires c.syncTs == ZERO && IsFollowUpOf(c, followUp, c.syncId)
    requires IsResponse(c, resp, (c.delayReqId + 1) % 0x1_0000)
    requires FollowUpStampOf(c, followUp, c.syncId).sec != 0 && Moderate(FollowUpStampOf(c, followUp, c.syncId))
    requires ClockOk(c.clock) && Moderate(c.clock)
    requires ResponseStamp(c, resp, (c.delayReqId + 1) % 0x1_0000) == c.clock
    ensures var c1 := Step(c, Receive(followUp, true, net)).client;
            var c2 := Step(c1, Receive(resp, true, net')).client;
            Nanos(c2.clock) == ToClock(Nanos(c.clock) + TruncHalf(Nanos(FollowUpStampOf(c, followUp, c.syncId))))
  {
    hide Step, ParseHeader, ParseTimestamp, CorrectedSync, Nanos, ToClock, TruncHalf, DelayRespTaken;
    FollowUpTaken(c, followUp, c.syncId, net);
    var e := Receive(resp, true, net');
    var c1 := Step(c, Receive(followUp, true, net)).client;
    assert AnswersRequest(c1, e);
    PacketCases(c1, e);
    HalfOfSync(c1, ParseHeader(resp, c.cfg.domain).body);
  }

  lemma HalfOfSync(c: Client, body: seq<Byte>)
    requires |body| >= 10 && ParseTimestamp(body) == c.clock == c.delayTs && c.syncTs == ZERO
    requires ClockOk(c.clock) && Moderate(c.clock) && Moderate(c.sync) && c.sync.sec != 0
    ensures Nanos(DelayRespTaken(c, body).client.clock) == ToClock(Nanos(c.clock) + TruncHalf(Nanos(c.sync)))
  {
    hide ParseTimestamp, Offset, Adjusted, ToClock, TruncHalf, Moderate, Nanos;
    LoneSyncOffset(c.sync, c.clock);
    AddableAdds(c.clock, Offset(c.sync, ZERO, c.clock, c.clock));
  }

  lemma LoneSyncOffset(t1: Time, t: Time)
    requires Moderate(t1) && Moderate(t)
    ensures InRange(Offset(t1, ZERO, t, t)) && Nanos(Offset(t1, ZERO, t, t)) == TruncHalf(Nanos(t1))
  {
    hide Offset, TruncHalf;
    OffsetExact(t1, ZERO, t, t);
    assert (Nanos(t) - Nanos(t)) - (Nanos(ZERO) - Nanos(t1)) == Nanos(t1);
  }

  // ----- a two-step Sync before the response -----

  /** A two-step Sync replaces t2 at once and t1 only at its Follow_Up. If the response to an
      earlier Delay_Req comes in between, then even with no delays and no error the clock goes back
      by half of the time since the earlier Sync. */
  lemma TwoStepBeforeResponse(c: Client, sync: seq<Byte>, id: UShort, resp: seq<Byte>, net: Net, net': Net)
    requires ValidConfig(c.cfg) && c.phase == Slave && c.delayPhase == WaitResp && c.sync.sec != 0
    requires IsTwoStepSync(c, sync, id) && IsResponse(c, resp, c.delayReqId)
    requires c.sync == c.syncTs == c.delayTs == ResponseStamp(c, resp, c.delayReqId)
    requires ClockOk(c.clock) && Moderate(c.clock) && Moderate(c.sync)
    ensures var c1 := Step(c, Receive(sync, true, net)).client;
            var c2 := Step(c1, Receive(resp, true, net')).client;
            Nanos(c2.clock) == ToClock(Nanos(c.clock) + TruncHalf(Nanos(c.sync) - Nanos(c.clock)))
  {
    hide Step, ParseHeader, ParseTimestamp, Nanos, ToClock, TruncHalf, DelayRespTaken, Bit;
    TwoStepRemembered(c, sync, id, net);
    var e := Receive(resp, true, net');
    var c1 := Step(c, Receive(sync, true, net)).client;
    assert AnswersRequest(c1, e);
    PacketCases(c1, e);
    HalfSinceSync(c1, ParseHeader(resp, c.cfg.domain).body);
  }

  lemma HalfSinceSync(c: Client, body: seq<Byte>)
    requires |body| >= 10 && ParseTimestamp(body) == c.sync == c.delayTs && c.syncTs == c.clock
    requires ClockOk(c.clock) && Moderate(c.clock) && Moderate(c.sync) && c.sync.sec != 0
    ensures Nanos(DelayRespTaken(c, body).client.clock)
            == ToClock(Nanos(c.clock) + TruncHalf(Nanos(c.sync) - Nanos(c.clock)))
  {
    hide ParseTimestamp, Offset, Adjusted, ToClock, TruncHalf, Nanos;
    OffsetExact(c.sync, c.clock, c.sync, c.sync);
    assert (Nanos(c.sync) - Nanos(c.sync)) - (Nanos(c.clock) - Nanos(c.sync)) == Nanos(c.sync) - Nanos(c.clock);
    AddableAdds(c.clock, Offset(c.sync, c.clock, c.sync, c.sync));
  }

  // ----- a correction between the Sync and its Follow_Up -----

  /** A time of the common era: seconds not negative, and far from the end of 64 bits. */
  predicate Present(t: Time) {
    ClockOk(t) && 0 <= t.sec <= 0x1000_0000_0000_0000
  }

  /** A slave whose clock is exact has a Delay_Req pending and the next due at the coming timer
      event; nothing is delayed. */
  predicate DueAndPending(c: Client) {
    && ValidConfig(c.cfg) && c.phase == Slave && c.delayPhase == WaitResp
    && c.delayTimer == 1 && c.announceTimeout > 1
    && c.sync == c.syncTs == c.delayTs && c.sync.sec != 0 && c.clock.sec != 0
    && Present(c.sync) && Present(c.clock)
  }

  /** The late response steps the clock to the middle between the earlier Sync and now. */
  lemma LateResponseHalves(c: Client, sync: seq<Byte>, id: UShort, resp: seq<Byte>, net: Net, net': Net)
    requires DueAndPending(c) && IsTwoStepSync(c, sync, id) && IsResponse(c, resp, c.delayReqId)
    requires ResponseStamp(c, resp, c.delayReqId) == c.delayTs
    ensures var c1 := Step(c, Receive(sync, true, net)).client;
            var c2 := Step(c1, Receive(resp, true, net')).client;
            && c2.cfg == c.cfg && c2.phase == Slave && c2.masterId == c.masterId && c2.delayReqId == c.delayReqId
            && c2.delayTimer == 1 && c2.announceTimeout == c.announceTimeout
            && c2.syncTs == c.clock && c2.syncId == id && ClockOk(c2.clock)
            && Nanos(c2.clock) == ToClock(Nanos(c.clock) + TruncHalf(Nanos(c.sync) - Nanos(c.clock)))
  {
    hide Step, ParseHeader, ParseTimestamp, Nanos, ToClock, TruncHalf, Bit, Offset, Adjusted;
    TwoStepRemembered(c, sync, id, net);
    var e := Receive(resp, true, net');
    var c1 := Step(c, Receive(sync, true, net)).client;
    assert AnswersRequest(c1, e);
    PacketCases(c1, e);
    var body := ParseHeader(resp, c.cfg.domain).body;
    HalfSinceSync(c1, body);
    StaysWellFormed(c1, body);
  }

  lemma StaysWellFormed(c: Client, body: seq<Byte>)
    requires |body| >= 10 && Present(c.sync) && ClockOk(c.clock) && ClockOk(c.syncTs) && ClockOk(c.delayTs)
    requires 0 <= ParseTimestamp(body).ns < 1_000_000_000
    ensures ClockOk(DelayRespTaken(c, body).client.clock)
  {
    hide ParseTimestamp, Offset, Adjusted;
    if c.sync.sec != 0 {
      OffsetWithin(c.sync, c.syncTs, c.delayTs, ParseTimestamp(body));
      AddableAdds(c.clock, Offset(c.sync, c.syncTs, c.delayTs, ParseTimestamp(body)));
    }
  }

  /** The middle of two present times is one. */
  lemma MiddleIsPresent(a: Time, b: Time, m: Time)
    requires Present(a) && Present(b) && ClockOk(m)
    requires Nanos(m) == ToClock(Nanos(b) + TruncHalf(Nanos(a) - Nanos(b)))
    ensures Present(m) && Nanos(m) == Nanos(b) + TruncHalf(Nanos(a) - Nanos(b))
  {
    var n := Nanos(b) + TruncHalf(Nanos(a) - Nanos(b));
    MiddleInRange(Nanos(a), Nanos(b), n);
    ToClockUnique(n, n, 0);
    hide ToClock, TruncHalf;
    assert m.sec * 1_000_000_000 <= n < (m.sec + 1) * 1_000_000_000;
  }

  lemma MiddleInRange(a: int, b: int, n: int)
    requires 0 <= a < 0x1000_0000_0000_0001 * 1_000_000_000 && 0 <= b < 0x1000_0000_0000_0001 * 1_000_000_000
    requires n == b + TruncHalf(a - b)
    ensures 0 <= n < 0x1000_0000_0000_0001 * 1_000_000_000
  {
  }

  /** t1 and t2 can be of one Sync, and the clock go wrong all the same. After the steps above the
      Sync's own Follow_Up makes the pair whole, but it is the stepped clock that stamps the next
      Delay_Req: its response takes back only half of what the first took. */
  lemma CorrectionBeforeFollowUp(c: Client, sync: seq<Byte>, id: UShort, resp: seq<Byte>, tick: Event,
                                 followUp: seq<Byte>, resp': seq<Byte>, net: Net, net': Net)
    requires DueAndPending(c) && IsTwoStepSync(c, sync, id) && IsResponse(c, resp, c.delayReqId)
    requires ResponseStamp(c, resp, c.delayReqId) == c.delayTs
    requires tick.Tick? && net'.granted && net'.sent
    requires IsFollowUpOf(c, followUp, id) && FollowUpStampOf(c, followUp, id) == c.clock
    requires IsResponse(c, resp', (c.delayReqId + 1) % 0x1_0000)
    requires ResponseStamp(c, resp', (c.delayReqId + 1) % 0x1_0000) == c.clock
    ensures var c1 := Step(c, Receive(sync, true, net)).client;
            var c2 := Step(c1, Receive(resp, true, net)).client;
            var c4 := Step(Step(c2, tick).client, Receive(followUp, true, net')).client;
            var c5 := Step(c4, Receive(resp', true, net)).client;
            var back := TruncHalf(Nanos(c.sync) - Nanos(c.clock));
            && c4.sync == c4.syncTs == c.clock
            && Nanos(c5.clock) == ToClock(Nanos(c.clock) + back + TruncHalf(-back))
  {
    hide Step, ParseHeader, ParseTimestamp, Nanos, ToClock, TruncHalf, Bit, Ticking, Present, DelayRespTaken;
    var c1 := Step(c, Receive(sync, true, net)).client;
    var c2 := Step(c1, Receive(resp, true, net)).client;
    LateResponseHalves(c, sync, id, resp, net, net);
    MiddleIsPresent(c.sync, c.clock, c2.clock);
    var c3 := Step(c2, tick).client;
    DueAtTick(c2, tick);
    FollowUpTaken(c3, followUp, id, net');
    var c4 := Step(c3, Receive(followUp, true, net')).client;
    var e := Receive(resp', true, net);
    assert AnswersRequest(c4, e);
    PacketCases(c4, e);
    StampedLate(c4, ParseHeader(resp', c.cfg.domain).body);
  }

  lemma DueAtTick(c: Client, tick: Event)
    requires ValidConfig(c.cfg) && tick.Tick? && c.phase == Slave && c.delayTimer == 1 && c.announceTimeout > 1
    ensures var c' := Step(c, tick).client;
            && c'.delayFlag && c'.phase == Slave && c'.masterId == c.masterId && c'.delayReqId == c.delayReqId
            && c'.clock == c.clock && c'.syncTs == c.syncTs && c'.syncId == c.syncId
  {
    hide Ticking;
    TickEffect(c, tick.announce, tick.sync);
  }

  /** t1, t2 and t4 agree, and t3 is the clock: half of its distance from them is corrected. */
  lemma StampedLate(c: Client, body: seq<Byte>)
    requires |body| >= 10 && ParseTimestamp(body) == c.sync == c.syncTs && c.delayTs == c.clock
    requires Present(c.clock) && Present(c.sync) && c.sync.sec != 0
    ensures Nanos(DelayRespTaken(c, body).client.clock)
            == ToClock(Nanos(c.clock) + TruncHalf(Nanos(c.sync) - Nanos(c.clock)))
  {
    hide ParseTimestamp, Offset, Adjusted, ToClock, TruncHalf, Nanos;
    OffsetExact(c.sync, c.sync, c.clock, c.sync);
    assert (Nanos(c.sync) - Nanos(c.clock)) - (Nanos(c.sync) - Nanos(c.sync)) == Nanos(c.sync) - Nanos(c.clock);
    AddableAdds(c.clock, Offset(c.sync, c.sync, c.clock, c.sync));
  }
}
