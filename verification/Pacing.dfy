/** Delay_Reqs are paced and never stall, over every run. */
module Pacing {
  import opened Words
  import opened PtpTime
  import opened Wire
  import opened Client
  import opened ClientRuns

  // ----- what a packet can do to the request side -----

  predicate RequestSideKept(c: Client, n: Next) {
    && n.client.delayTimer == c.delayTimer && n.client.delayFlag == c.delayFlag
    && |n.out| <= 2 && (forall o :: o in n.out ==> !o.DelayReqSent?)
  }

  predicate RequestSentNow(c: Client, n: Next) {
    && c.delayFlag && n.client.delayTimer == 200 && !n.client.delayFlag && n.client.phase == c.phase
    && |n.out| == 1 && n.out[0].DelayReqSent? && n.out[0].id == n.client.delayReqId
    && n.out[0].t3 == n.client.delayTs
  }

  lemma SyncRequests(c: Client, hdr: Header, body: seq<Byte>, net: Net)
    requires ValidConfig(c.cfg) && |body| >= 10
    ensures var n := SyncTaken(c, hdr, body, net);
            (RequestSideKept(c, n) && n.client.phase == c.phase) || RequestSentNow(c, n)
    ensures var n := SyncTaken(c.(syncTs := c.clock), hdr, body, net);
            (RequestSideKept(c, n) && n.client.phase == c.phase) || RequestSentNow(c, n)
  {
    hide CorrectedSync, DelayReqBytes;
  }

  predicate EntersReady(c: Client, n: Next) {
    && EntersSlave(c, n.client) && n.client.delayFlag && n.client.delayTimer == -1
    && |n.out| <= 2 && (forall o :: o in n.out ==> !o.DelayReqSent?)
  }

  lemma PacketRequests(c: Client, e: Event)
    requires ValidConfig(c.cfg) && e.Receive?
    ensures var n := Step(c, e);
            || (RequestSideKept(c, n) && !EntersSlave(c, n.client))
            || (c.phase == Slave && RequestSentNow(c, n))
            || EntersReady(c, n)
  {
    hide PacketTaken, ParseHeader, ParseAnnounce, SyncTaken, Offset, ParseTimestamp, Follows, AnswersRequest;
    PacketCases(c, e);
    var p := ParseHeader(e.packet, c.cfg.domain);
    if p.Accepted? && |p.body| >= 10 {
      SyncRequests(c, p.hdr, p.body, e.net);
    }
  }

  // ----- pacing -----

  predicate Paced(c: Client, h: History) {
    && (c.phase == Slave ==> if c.delayFlag then c.delayTimer <= 0 else 1 <= c.delayTimer <= 200)
    && (c.phase == Slave && !h.requestInEpoch ==> c.delayFlag)
    && (c.phase == Slave && h.requestInEpoch ==>
          && (c.delayFlag <==> h.sinceRequest >= 200)
          && (!c.delayFlag ==> c.delayTimer == 200 - h.sinceRequest))
  }

  lemma PacedPacket(c: Client, h: History, e: Event)
    requires ValidConfig(c.cfg) && Paced(c, h) && e.Receive?
    ensures Paced(Step(c, e).client, Observed(h, c, e))
  {
    hide Follows, PacketTaken, Count;
    FewOutputs(c, e);
    PacketRequests(c, e);
  }

  lemma PacedTick(c: Client, h: History, e: Event)
    requires ValidConfig(c.cfg) && Paced(c, h) && e.Tick?
    ensures Paced(Step(c, e).client, Observed(h, c, e))
  {
    hide Count, Ticking;
    TickOutputs(c, e.announce, e.sync);
    TickEffect(c, e.announce, e.sync);
  }

  lemma PacedStep(c: Client, h: History, e: Event)
    requires ValidConfig(c.cfg) && Paced(c, h)
    ensures Paced(Step(c, e).client, Observed(h, c, e))
  {
    if e.Receive? {
      PacedPacket(c, h, e);
    } else if e.Tick? {
      PacedTick(c, h, e);
    }
  }

  lemma {:induction false} AlwaysPaced(cfg: Config, clock: Time, events: seq<Event>)
    requires ValidConfig(cfg)
    ensures var r := After(cfg, clock, events); Paced(r.client, r.history)
  {
    if events != [] {
      AlwaysPaced(cfg, clock, events[..|events| - 1]);
      var r := After(cfg, clock, events[..|events| - 1]);
      PacedStep(r.client, r.history, events[|events| - 1]);
    }
  }

  /** Over every run, a slave either may send a Delay_Req or is 1 to 200 timer events from it,
      never both and never neither; and within one stay in the slave state it may send again
      exactly when 200 timer events have passed since the last one it sent. */
  lemma NeverStalled(cfg: Config, clock: Time, events: seq<Event>)
    requires ValidConfig(cfg)
    ensures var r := After(cfg, clock, events);
            r.client.phase == Slave ==>
              && r.client.delayFlag != (1 <= r.client.delayTimer <= 200)
              && (r.client.delayFlag <==> !r.history.requestInEpoch || r.history.sinceRequest >= 200)
  {
    AlwaysPaced(cfg, clock, events);
  }

  /** Over every run, whatever comes next: a Delay_Req is sent only in the slave state, alone,
      and at least 200 timer events after the previous one of the same stay. */
  lemma RequestsArePaced(cfg: Config, clock: Time, events: seq<Event>, e: Event)
    requires ValidConfig(cfg)
    ensures var r := After(cfg, clock, events);
            var out := Step(r.client, e).out;
            Count(out, Request) > 0 ==>
              && Count(out, Request) == 1
              && r.client.phase == Slave
              && (r.history.requestInEpoch ==> r.history.sinceRequest >= 200)
  {
    hide After, Ticking, PacketTaken, Count;
    AlwaysPaced(cfg, clock, events);
    var r := After(cfg, clock, events);
    if e.Tick? {
      TickOutputs(r.client, e.announce, e.sync);
    } else {
      FewOutputs(r.client, e);
      if e.Receive? {
        PacketRequests(r.client, e);
      }
    }
  }
}
