/** Complete exchanges as they are on the wire: what a master's clock reads when its bytes come and
    go decides what is left of the slave's error. */
module WireExchange {
  import opened Words
  import opened PtpTime
  import opened SoftClock
  import opened ClockOrder
  import opened Wire
  import opened Client
  import opened Layout
  import opened Hearing
  import opened OffsetTheorem
  import opened Exchange

  /** A packet of our domain from our master, with a payload of the type and at least that long. */
  predicate FromMaster(c: Client, packet: seq<Byte>, messageType: int, length: nat) {
    && WellFormed(packet, c.cfg.domain) && packet[20..30] == c.masterId
    && OfType(packet, messageType, length)
  }

  function Stamp(packet: seq<Byte>): Time
    requires |packet| >= 44
  {
    Time(Number(packet[34..40]), Signed(Number(packet[40..44]), 0x1_0000_0000))
  }

  /** The correction field, in nanoseconds. */
  function Correction(packet: seq<Byte>): int
    requires |packet| >= 16
  {
    Signed(Number(packet[8..16]), 0x1_0000_0000_0000_0000) / 0x1_0000
  }

  /** A proper timestamp of after the first second, and a correction that is not misread. */
  predicate ProperStamp(packet: seq<Byte>) {
    && |packet| >= 44 && Stamp(packet).sec != 0 && 0 <= Stamp(packet).ns < 1_000_000_000
    && 0 <= Correction(packet) < 0x1_0000_0000
  }

  lemma FromMasterParses(c: Client, packet: seq<Byte>, messageType: int, length: nat)
    requires FromMaster(c, packet, messageType, length)
    ensures var p := ParseHeader(packet, c.cfg.domain);
            && p.Accepted? && p.hdr.source == c.masterId && p.hdr.messageType == messageType && |p.body| >= length
            && p.hdr.sequenceId == Number(packet[30..32])
            && (Bit(p.hdr.flags, 9) <==> packet[6] / 2 % 2 == 1)
  {
    HeardFromBytes(c, Receive(packet, true, Net(true, 0, true, 0)));
    HeaderFields(packet, c.cfg.domain);
    FlagBits(packet, c.cfg.domain);
    hide ParseHeader, Number, Signed, CorrectionField, PayloadLength, Bit;
  }

  /** t1 of such a Sync or Follow_Up. */
  lemma T1OfBytes(c: Client, packet: seq<Byte>, messageType: int)
    requires FromMaster(c, packet, messageType, 10) && ProperStamp(packet)
    ensures var p := ParseHeader(packet, c.cfg.domain);
            && p.Accepted? && |p.body| >= 10
            && var t1 := CorrectedSync(p.hdr, p.body);
               Nanos(t1) == Nanos(Stamp(packet)) + Correction(packet) && t1.sec != 0 && Moderate(t1)
  {
    FromMasterParses(c, packet, messageType, 10);
    hide ParseHeader, Number, CorrectedSync, FromMaster;
    PacketCarriesCorrection(packet, c.cfg.domain);
    var p := ParseHeader(packet, c.cfg.domain);
    StampOfPacket(packet, c.cfg.domain);
    T1Moderate(p.hdr, p.body);
  }

  lemma T1Moderate(hdr: Header, body: seq<Byte>)
    requires |body| >= 10 && ParseTimestamp(body).sec > 0 && 0 <= ParseTimestamp(body).ns < 1_000_000_000
    ensures CorrectedSync(hdr, body).sec != 0 && Moderate(CorrectedSync(hdr, body))
  {
    StampSeconds(body);
    hide ParseTimestamp, CorrectionNs, Sum;
    var t, ns := ParseTimestamp(body), CorrectionNs(hdr);
    if ns != 0 {
      var added := Time(ns / 1_000_000_000, ns % 1_000_000_000);
      SumExact(t, added);
      var sum := Sum(t, added);
      assert Nanos(sum) == Nanos(t) + Nanos(added);
      assert sum.sec * 1_000_000_000 + sum.ns >= 1_000_000_000;
    }
  }

  /** The Delay_Req among what a step puts out. */
  function RequestIn(out: seq<Output>): seq<Byte> {
    if out != [] && out[0].DelayReqSent? then out[0].bytes else []
  }

  /** A Delay_Resp that repeats the id and the port identity of a Delay_Req. */
  predicate RespondsTo(c: Client, packet: seq<Byte>, request: seq<Byte>) {
    && FromMaster(c, packet, 9, 20) && |packet| >= 54 && 0 <= Stamp(packet).ns < 1_000_000_000
    && |request| == 44 && packet[30..32] == request[30..32] && packet[44..54] == request[20..30]
  }

  lemma ResponseParses(c: Client, packet: seq<Byte>, id: UShort)
    requires ValidConfig(c.cfg)
    requires RespondsTo(c, packet, DelayReqBytes(c.cfg.transport, c.cfg.domain, c.cfg.portId, id))
    ensures IsResponse(c, packet, id) && ResponseStamp(c, packet, id) == Stamp(packet) && Moderate(Stamp(packet))
  {
    PrintedDelayReqBytes(c.cfg.transport, c.cfg.domain, c.cfg.portId, id);
    hide ParseHeader, Number, ParseTimestamp, DelayReqBytes, FromMaster;
    FromMasterParses(c, packet, 9, 20);
    StampOfPacket(packet, c.cfg.domain);
    HeardFromBytes(c, Receive(packet, true, Net(true, 0, true, 0)));
    var body := ParseHeader(packet, c.cfg.domain).body;
    StampSeconds(body);
    PayloadSlice(packet, 34 + |body|, 10, 20);
  }

  /** A one-step Sync comes, the Delay_Req it causes goes out, and what answers that Delay_Req comes
      back, with any timer events in between. The master's clock read `now` when the Sync arrived,
      which took d1, and the slave was ahead by theta; the Delay_Req took d2. */
  lemma OneStepOnTheWire(c: Client, sync: seq<Byte>, wait: seq<Event>, resp: seq<Byte>, net: Net, net': Net,
                         now: int, theta: int, d1: int, d2: int)
    requires ValidConfig(c.cfg) && c.phase == Slave && c.delayFlag && net.granted && net.sent
    requires FromMaster(c, sync, 0, 10) && ProperStamp(sync) && sync[6] / 2 % 2 == 0
    requires TimerOnly(wait) && RespondsTo(c, resp, RequestIn(Step(c, Receive(sync, true, net)).out))
    requires ClockOk(c.clock) && Nanos(c.clock) == now + theta
    requires Nanos(Stamp(sync)) + Correction(sync) == now - d1
    requires Nanos(Stamp(resp)) == now + d2
    requires -0x800_0000_0000_0000 <= c.clock.sec <= 0x800_0000_0000_0000
    requires Interrupts(wait) < 0x1_0000_0000_0000_0000
    ensures var c1 := Step(c, Receive(sync, true, net)).client;
            var c2 := Steps(c1, wait);
            var c3 := Step(c2, Receive(resp, true, net')).client;
            var left := Nanos(c3.clock) - (now + 10_000_000 * Interrupts(wait));
            && -1 <= 2 * left - (d2 - d1) <= 1
            && (left == 0 <==> d1 == d2 || (d2 == d1 + 1 && theta <= 0) || (d1 == d2 + 1 && theta >= 0))
  {
    hide Step, ParseHeader, ParseTimestamp, CorrectedSync, DelayReqBytes, FromMaster, Stamp, Correction, RespondsTo,
         ProperStamp, Number;
    FromMasterParses(c, sync, 0, 10);
    T1OfBytes(c, sync, 0);
    SyncRequestsNow(c, sync, net);
    ResponseParses(c, resp, (c.delayReqId + 1) % 0x1_0000);
    ExchangeCorrects(c, sync, wait, resp, net, net', now, theta, d1, d2);
  }

  /** The same for a two-step Sync and the Follow_Up that repeats its sequence id: the timestamp is the
      Follow_Up's, and so is the Delay_Req. */
  lemma TwoStepOnTheWire(c: Client, sync: seq<Byte>, wait: seq<Event>, followUp: seq<Byte>, wait': seq<Event>,
                         resp: seq<Byte>, net: Net, net': Net, now: int, theta: int, d1: int, d2: int)
    requires ValidConfig(c.cfg) && c.phase == Slave && c.delayFlag && net'.granted && net'.sent
    requires FromMaster(c, sync, 0, 10) && sync[6] / 2 % 2 == 1
    requires TimerOnly(wait) && TickCount(wait) < c.announceTimeout && TimerOnly(wait')
    requires FromMaster(c, followUp, 8, 10) && ProperStamp(followUp) && followUp[30..32] == sync[30..32]
    requires var c2 := Steps(Step(c, Receive(sync, true, net)).client, wait);
             RespondsTo(c, resp, RequestIn(Step(c2, Receive(followUp, true, net')).out))
    requires ClockOk(c.clock) && Nanos(c.clock) == now + theta
    requires Nanos(Stamp(followUp)) + Correction(followUp) == now - d1
    requires Nanos(Stamp(resp)) == now + 10_000_000 * Interrupts(wait) + d2
    requires -0x400_0000_0000_0000 <= c.clock.sec <= 0x400_0000_0000_0000
    requires Interrupts(wait) < 0x1_0000_0000_0000_0000 && Interrupts(wait') < 0x1_0000_0000_0000_0000
    ensures var c1 := Step(c, Receive(sync, true, net)).client;
            var c3 := Step(Steps(c1, wait), Receive(followUp, true, net')).client;
            var c5 := Step(Steps(c3, wait'), Receive(resp, true, net')).client;
            var left := Nanos(c5.clock) - (now + 10_000_000 * (Interrupts(wait) + Interrupts(wait')));
            && -1 <= 2 * left - (d2 - d1) <= 1
            && (left == 0 <==> d1 == d2 || (d2 == d1 + 1 && theta <= 0) || (d1 == d2 + 1 && theta >= 0))
  {
    hide Step, ParseHeader, ParseTimestamp, CorrectedSync, DelayReqBytes, FromMaster, Stamp, Correction, RespondsTo,
         ProperStamp, Number, Bit, ToClock;
    FromMasterParses(c, sync, 0, 10);
    var id := ParseHeader(sync, c.cfg.domain).hdr.sequenceId;
    FromMasterParses(c, followUp, 8, 10);
    T1OfBytes(c, followUp, 8);
    FollowUpSends(c, sync, id, wait, followUp, net, net');
    ResponseParses(c, resp, (c.delayReqId + 1) % 0x1_0000);
    TwoStepCorrects(c, sync, id, wait, followUp, wait', resp, net, net', now, theta, d1, d2);
  }

  lemma FollowUpSends(c: Client, sync: seq<Byte>, id: UShort, wait: seq<Event>, followUp: seq<Byte>,
                      net: Net, net': Net)
    requires ValidConfig(c.cfg) && c.phase == Slave && c.delayFlag && net'.granted && net'.sent
    requires IsTwoStepSync(c, sync, id) && IsFollowUpOf(c, followUp, id)
    requires TimerOnly(wait) && TickCount(wait) < c.announceTimeout && ClockOk(c.clock)
    ensures var c2 := Steps(Step(c, Receive(sync, true, net)).client, wait);
            RequestIn(Step(c2, Receive(followUp, true, net')).out)
            == DelayReqBytes(c.cfg.transport, c.cfg.domain, c.cfg.portId, (c.delayReqId + 1) % 0x1_0000)
  {
    hide ParseHeader, CorrectedSync, Step, ToClock, Bit, DelayReqBytes;
    TwoStepRemembered(c, sync, id, net);
    var c1 := Step(c, Receive(sync, true, net)).client;
    TimersKeepMeasurement(c1, wait);
    TimersKeepSlave(c1, wait);
    FollowUpTaken(Steps(c1, wait), followUp, id, net');
  }
}
