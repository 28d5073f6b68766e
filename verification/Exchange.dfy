/** Complete Sync and Delay exchanges, one-step and two-step, with the waiting in between. */
module Exchange {
  import opened Words
  import opened PtpTime
  import opened SoftClock
  import opened Wire
  import opened Client
  import opened ClientRuns
  import opened StampWindow
  import opened OffsetTheorem

  function Steps(c: Client, events: seq<Event>): (c': Client)
    requires ValidConfig(c.cfg)
    ensures c'.cfg == c.cfg
    decreases |events|
  {
    if events == [] then c else Steps(Step(c, events[0]).client, events[1..])
  }

  predicate TimerOnly(events: seq<Event>) {
    forall e :: e in events ==> e.Tick? || e.TimerInterrupt?
  }

  function Interrupts(events: seq<Event>): nat {
    if events == [] then 0 else (if events[0].TimerInterrupt? then 1 else 0) + Interrupts(events[1..])
  }

  // ----- waiting for the response -----

  predicate Awaiting(c: Client, c': Client) {
    && c'.cfg == c.cfg && c'.delayPhase == c.delayPhase && c'.delayReqId == c.delayReqId
    && c'.delayTs == c.delayTs && c'.sync == c.sync && c'.syncTs == c.syncTs && c'.masterId == c.masterId
    && c'.syncId == c.syncId && (c.delayFlag ==> c'.delayFlag)
    && (c'.phase == Slave ==> c.phase == Slave)
  }

  /** Timer events move the clock on and leave a measurement under way as it is, even those that
      end the slave state. */
  lemma {:induction false} TimersKeepMeasurement(c: Client, events: seq<Event>)
    requires ValidConfig(c.cfg) && TimerOnly(events) && ClockOk(c.clock)
    ensures var c' := Steps(c, events);
            Awaiting(c, c') && ClockOk(c'.clock)
            && Nanos(c'.clock) == ToClock(Nanos(c.clock) + 10_000_000 * Interrupts(events))
    decreases |events|
  {
    hide Ticking, Ticked, ToClock;
    if events == [] {
      ClockNanosFit(c.clock);
    } else {
      var e, c1 := events[0], Step(c, events[0]).client;
      assert e in events;
      if e.Tick? {
        TickEffect(c, e.announce, e.sync);
      } else {
        TickedAdds(c.clock);
        ToClockTwice(Nanos(c.clock) + 10_000_000, 10_000_000 * Interrupts(events[1..]));
      }
      TimersKeepMeasurement(c1, events[1..]);
    }
  }

  // ----- the exchange -----

  /** A one-step Sync from our master. */
  predicate IsSync(c: Client, packet: seq<Byte>) {
    var p := ParseHeader(packet, c.cfg.domain);
    && p.Accepted? && p.hdr.source == c.masterId && p.hdr.messageType == TYPE_SYNC
    && !Bit(p.hdr.flags, 9) && |p.body| >= 10
  }

  /** Our master's response to the Delay_Req with this id. */
  predicate IsResponse(c: Client, packet: seq<Byte>, id: UShort) {
    var p := ParseHeader(packet, c.cfg.domain);
    && p.Accepted? && p.hdr.source == c.masterId && p.hdr.messageType == TYPE_DELAY_RESP
    && p.hdr.sequenceId == id && |p.body| >= 20 && p.body[10..20] == c.cfg.portId
  }

  function SyncStamp(c: Client, packet: seq<Byte>): Time
    requires IsSync(c, packet)
  {
    var p := ParseHeader(packet, c.cfg.domain);
    CorrectedSync(p.hdr, p.body)
  }

  function ResponseStamp(c: Client, packet: seq<Byte>, id: UShort): Time
    requires IsResponse(c, packet, id)
  {
    ParseTimestamp(ParseHeader(packet, c.cfg.domain).body)
  }

  /** A Sync to a slave that may send answers at once with a Delay_Req stamped by the same clock. */
  lemma SyncRequestsNow(c: Client, packet: seq<Byte>, net: Net)
    requires ValidConfig(c.cfg) && c.phase == Slave && c.delayFlag && IsSync(c, packet)
    requires net.granted && net.sent
    ensures var n := Step(c, Receive(packet, true, net));
            && n.client.sync == SyncStamp(c, packet) && n.client.syncTs == c.clock && n.client.delayTs == c.clock
            && n.client.clock == c.clock && n.client.masterId == c.masterId
            && n.client.delayPhase == WaitResp && n.client.delayReqId == (c.delayReqId + 1) % 0x1_0000
            && n.client.phase == Slave
            && n.out == [DelayReqSent(DelayReqBytes(c.cfg.transport, c.cfg.domain, c.cfg.portId, n.client.delayReqId),
                                      n.client.delayReqId, c.clock)]
  {
    hide ParseHeader, CorrectedSync, DelayReqBytes, Bit;
  }

  /** The slave is ahead by theta of a master whose clock read `now` when the Sync arrived; the
      Sync took d1 and the Delay_Req d2. Whatever timer events come in between, after the response
      the slave's error is half the difference of the delays to the nanosecond, and is gone
      exactly when they are equal or rounding hides their one nanosecond. */
  lemma ExchangeCorrects(c: Client, sync: seq<Byte>, wait: seq<Event>, resp: seq<Byte>, net: Net, net': Net,
                         now: int, theta: int, d1: int, d2: int)
    requires ValidConfig(c.cfg) && c.phase == Slave && c.delayFlag && net.granted && net.sent
    requires IsSync(c, sync) && TimerOnly(wait) && IsResponse(c, resp, (c.delayReqId + 1) % 0x1_0000)
    requires ClockOk(c.clock) && Nanos(c.clock) == now + theta
    requires Nanos(SyncStamp(c, sync)) == now - d1 && SyncStamp(c, sync).sec != 0
    requires Nanos(ResponseStamp(c, resp, (c.delayReqId + 1) % 0x1_0000)) == now + d2
    requires Moderate(SyncStamp(c, sync)) && Moderate(ResponseStamp(c, resp, (c.delayReqId + 1) % 0x1_0000))
    requires -0x800_0000_0000_0000 <= c.clock.sec <= 0x800_0000_0000_0000
    requires Interrupts(wait) < 0x1_0000_0000_0000_0000
    ensures var c1 := Step(c, Receive(sync, true, net)).client;
            var c2 := Steps(c1, wait);
            var c3 := Step(c2, Receive(resp, true, net')).client;
            var left := Nanos(c3.clock) - (now + 10_000_000 * Interrupts(wait));
            && -1 <= 2 * left - (d2 - d1) <= 1
            && (left == 0 <==> d1 == d2 || (d2 == d1 + 1 && theta <= 0) || (d1 == d2 + 1 && theta >= 0))
  {
    hide ParseHeader, ParseTimestamp, CorrectedSync, Step, ToClock;
    SyncRequestsNow(c, sync, net);
    var c1 := Step(c, Receive(sync, true, net)).client;
    TimersKeepMeasurement(c1, wait);
    var c2 := Steps(c1, wait);
    ClockAfterWait(c.clock, c2.clock, Interrupts(wait));
    var e := Receive(resp, true, net');
    assert AnswersRequest(c2, e);
    CorrectionError(c2, e, theta, d1, d2);
  }

  // ----- a two-step exchange -----

  function TickCount(events: seq<Event>): nat {
    if events == [] then 0 else (if events[0].Tick? then 1 else 0) + TickCount(events[1..])
  }

  lemma {:induction false} TimersKeepSlave(c: Client, events: seq<Event>)
    requires ValidConfig(c.cfg) && TimerOnly(events) && c.phase == Slave && TickCount(events) < c.announceTimeout
    ensures Steps(c, events).phase == Slave
    decreases |events|
  {
    hide Ticking;
    if events != [] {
      var e := events[0];
      assert e in events;
      if e.Tick? {
        TickEffect(c, e.announce, e.sync);
      }
      TimersKeepSlave(Step(c, e).client, events[1..]);
    }
  }

  /** A two-step Sync from our master. */
  predicate IsTwoStepSync(c: Client, packet: seq<Byte>, id: UShort) {
    var p := ParseHeader(packet, c.cfg.domain);
    && p.Accepted? && p.hdr.source == c.masterId && p.hdr.messageType == TYPE_SYNC
    && Bit(p.hdr.flags, 9) && |p.body| >= 10 && p.hdr.sequenceId == id
  }

  predicate IsFollowUpOf(c: Client, packet: seq<Byte>, id: UShort) {
    var p := ParseHeader(packet, c.cfg.domain);
    && p.Accepted? && p.hdr.source == c.masterId && p.hdr.messageType == TYPE_FOLLOW_UP
    && p.hdr.sequenceId == id && |p.body| >= 10
  }

  function FollowUpStampOf(c: Client, packet: seq<Byte>, id: UShort): Time
    requires IsFollowUpOf(c, packet, id)
  {
    var p := ParseHeader(packet, c.cfg.domain);
    CorrectedSync(p.hdr, p.body)
  }

  lemma TwoStepRemembered(c: Client, packet: seq<Byte>, id: UShort, net: Net)
    requires ValidConfig(c.cfg) && c.phase == Slave && IsTwoStepSync(c, packet, id)
    ensures Step(c, Receive(packet, true, net)).client == c.(syncTs := c.clock, syncId := id)
  {
    hide ParseHeader, Bit;
  }

  lemma FollowUpTaken(c: Client, packet: seq<Byte>, id: UShort, net: Net)
    requires ValidConfig(c.cfg) && c.phase == Slave && c.delayFlag && net.granted && net.sent
    requires c.syncId == id && IsFollowUpOf(c, packet, id)
    ensures var n := Step(c, Receive(packet, true, net));
            && n.client.sync == FollowUpStampOf(c, packet, id) && n.client.syncTs == c.syncTs
            && n.client.delayTs == c.clock && n.client.clock == c.clock && n.client.masterId == c.masterId
            && n.client.delayPhase == WaitResp && n.client.delayReqId == (c.delayReqId + 1) % 0x1_0000
            && n.client.phase == Slave
            && n.out == [DelayReqSent(DelayReqBytes(c.cfg.transport, c.cfg.domain, c.cfg.portId, n.client.delayReqId),
                                      n.client.delayReqId, c.clock)]
  {
    hide ParseHeader, CorrectedSync, DelayReqBytes, Bit;
  }

  /** The Follow_Up of a two-step Sync may come any time before the announce timeout: t2 is still
      the Sync's, t3 is taken at the Follow_Up, and the request then waits for its response. */
  lemma TwoStepMeasures(c: Client, sync: seq<Byte>, id: UShort, wait: seq<Event>, followUp: seq<Byte>,
                        net: Net, net': Net)
    requires ValidConfig(c.cfg) && c.phase == Slave && c.delayFlag && net'.granted && net'.sent
    requires IsTwoStepSync(c, sync, id) && IsFollowUpOf(c, followUp, id)
    requires TimerOnly(wait) && TickCount(wait) < c.announceTimeout && ClockOk(c.clock)
    ensures var c1 := Step(c, Receive(sync, true, net)).client;
            var c2 := Steps(c1, wait);
            var c3 := Step(c2, Receive(followUp, true, net')).client;
            && c3.sync == FollowUpStampOf(c, followUp, id) && c3.syncTs == c.clock
            && c3.delayTs == c2.clock == c3.clock && ClockOk(c3.clock)
            && Nanos(c3.clock) == ToClock(Nanos(c.clock) + 10_000_000 * Interrupts(wait))
            && c3.masterId == c.masterId && c3.delayPhase == WaitResp
            && c3.delayReqId == (c.delayReqId + 1) % 0x1_0000 && c3.phase == Slave
  {
    hide ParseHeader, CorrectedSync, Step, ToClock, Bit;
    TwoStepRemembered(c, sync, id, net);
    var c1 := Step(c, Receive(sync, true, net)).client;
    TimersKeepMeasurement(c1, wait);
    TimersKeepSlave(c1, wait);
    FollowUpTaken(Steps(c1, wait), followUp, id, net');
  }

  /** The same bound for a two-step exchange, with timer events before the Follow_Up and before
      the response: `now` is the master's time when the Sync arrived. */
  lemma TwoStepCorrects(c: Client, sync: seq<Byte>, id: UShort, wait: seq<Event>, followUp: seq<Byte>,
                        wait': seq<Event>, resp: seq<Byte>, net: Net, net': Net,
                        now: int, theta: int, d1: int, d2: int)
    requires ValidConfig(c.cfg) && c.phase == Slave && c.delayFlag && net'.granted && net'.sent
    requires IsTwoStepSync(c, sync, id) && IsFollowUpOf(c, followUp, id)
    requires IsResponse(c, resp, (c.delayReqId + 1) % 0x1_0000)
    requires TimerOnly(wait) && TickCount(wait) < c.announceTimeout && TimerOnly(wait')
    requires ClockOk(c.clock) && Nanos(c.clock) == now + theta
    requires Nanos(FollowUpStampOf(c, followUp, id)) == now - d1 && FollowUpStampOf(c, followUp, id).sec != 0
    requires Nanos(ResponseStamp(c, resp, (c.delayReqId + 1) % 0x1_0000)) == now + 10_000_000 * Interrupts(wait) + d2
    requires Moderate(FollowUpStampOf(c, followUp, id))
    requires Moderate(ResponseStamp(c, resp, (c.delayReqId + 1) % 0x1_0000))
    requires -0x400_0000_0000_0000 <= c.clock.sec <= 0x400_0000_0000_0000
    requires Interrupts(wait) < 0x1_0000_0000_0000_0000 && Interrupts(wait') < 0x1_0000_0000_0000_0000
    ensures var c1 := Step(c, Receive(sync, true, net)).client;
            var c3 := Step(Steps(c1, wait), Receive(followUp, true, net')).client;
            var c5 := Step(Steps(c3, wait'), Receive(resp, true, net')).client;
            var left := Nanos(c5.clock) - (now + 10_000_000 * (Interrupts(wait) + Interrupts(wait')));
            && -1 <= 2 * left - (d2 - d1) <= 1
            && (left == 0 <==> d1 == d2 || (d2 == d1 + 1 && theta <= 0) || (d1 == d2 + 1 && theta >= 0))
  {
    hide ParseHeader, ParseTimestamp, CorrectedSync, Step, ToClock, Bit;
    TwoStepMeasures(c, sync, id, wait, followUp, net, net');
    var c1 := Step(c, Receive(sync, true, net)).client;
    var c3 := Step(Steps(c1, wait), Receive(followUp, true, net')).client;
    ClockAfterWait(c.clock, c3.clock, Interrupts(wait));
    TimersKeepMeasurement(c3, wait');
    var c4 := Steps(c3, wait');
    ClockAfterWait(c3.clock, c4.clock, Interrupts(wait'));
    var e := Receive(resp, true, net');
    assert AnswersRequest(c4, e);
    CorrectionError(c4, e, theta, d1, d2);
  }

  lemma ClockAfterWait(before: Time, after: Time, interrupts: nat)
    requires ClockOk(before) && ClockOk(after)
    requires -0x800_0000_0000_0000 <= before.sec <= 0x800_0000_0000_0000
    requires interrupts < 0x1_0000_0000_0000_0000
    requires Nanos(after) == ToClock(Nanos(before) + 10_000_000 * interrupts)
    ensures Nanos(after) == Nanos(before) + 10_000_000 * interrupts && Moderate(after)
  {
    var n := Nanos(before) + 10_000_000 * interrupts;
    assert -0x800_0000_0000_0000 * 1_000_000_000 <= n < 0xC00_0000_0000_0000 * 1_000_000_000;
    ToClockUnique(n, n, 0);
    assert after.sec * 1_000_000_000 <= n < (after.sec + 1) * 1_000_000_000;
  }
}
