/** Every correction answers the latest Delay_Req, and no Delay_Req is answered twice. */
module Matching {
  import opened Words
  import opened PtpTime
  import opened SoftClock
  import opened Wire
  import opened Client
  import opened ClientRuns

  // ----- what a packet can do to the delay measurement -----

  predicate NoExchange(n: Next) {
    |n.out| <= 2 && (forall o :: o in n.out ==> !o.DelayReqSent? && !o.Corrected?)
  }

  predicate MeasurementKept(c: Client, n: Next) {
    && n.client.delayReqId == c.delayReqId && n.client.delayTs == c.delayTs
    && (n.client.delayPhase == c.delayPhase || n.client.delayPhase == DelayIdle)
    && NoExchange(n)
  }

  predicate RequestFailed(c: Client, n: Next) {
    && n.client.delayReqId == (c.delayReqId + 1) % 0x1_0000 && n.client.delayPhase == DelayIdle
    && n.client.delayPacket == 0 && NoExchange(n)
  }

  predicate RequestMade(c: Client, n: Next) {
    && n.client.delayReqId == (c.delayReqId + 1) % 0x1_0000 && n.client.delayPhase == WaitResp
    && n.client.delayTs == c.clock
    && |n.out| == 1 && n.out[0].DelayReqSent? && n.out[0].t3 == c.clock && n.out[0].id == n.client.delayReqId
    && |c.cfg.portId| == 10
    && n.out[0].bytes == DelayReqBytes(c.cfg.transport, c.cfg.domain, c.cfg.portId, n.client.delayReqId)
  }

  predicate ResponseUsed(c: Client, n: Next) {
    && c.delayPhase == WaitResp && n.client.delayPhase == DelayIdle
    && n.client.delayReqId == c.delayReqId && n.client.delayTs == c.delayTs
    && n.client.syncTimer == (if c.syncTimer == 0 then 12 else c.syncTimer)
    && 1 <= |n.out| <= 2 && n.out[0].Corrected? && (|n.out| == 2 ==> n.out[1].SyncEvent?)
  }

  lemma SyncMeasures(c: Client, hdr: Header, body: seq<Byte>, net: Net)
    requires ValidConfig(c.cfg) && |body| >= 10
    ensures var n := SyncTaken(c, hdr, body, net);
            MeasurementKept(c, n) || RequestFailed(c, n) || RequestMade(c, n)
    ensures var n := SyncTaken(c.(syncTs := c.clock), hdr, body, net);
            MeasurementKept(c, n) || RequestFailed(c, n) || RequestMade(c, n)
  {
    hide CorrectedSync, DelayReqBytes;
  }

  lemma PacketMeasures(c: Client, e: Event)
    requires ValidConfig(c.cfg) && e.Receive?
    ensures var n := Step(c, e);
            || MeasurementKept(c, n) || RequestFailed(c, n) || RequestMade(c, n)
            || (AnswersRequest(c, e) && c.sync.sec != 0 && ResponseUsed(c, n))
  {
    hide PacketTaken, ParseHeader, ParseAnnounce, SyncTaken, Offset, ParseTimestamp, Follows;
    PacketCases(c, e);
    var p := ParseHeader(e.packet, c.cfg.domain);
    if p.Accepted? && |p.body| >= 10 {
      SyncMeasures(c, p.hdr, p.body, e.net);
    }
  }

  // ----- matching -----

  /** The ids sent so far were drawn in order. */
  predicate InDrawOrder(sent: seq<nat>, drawn: nat) {
    && (forall i, j :: 0 <= i < j < |sent| ==> sent[i] < sent[j])
    && (forall i :: 0 <= i < |sent| ==> sent[i] <= drawn)
  }

  predicate Matched(c: Client, h: History) {
    && c.delayPhase != WaitReqTs
    && c.delayReqId == h.drawn % 0x1_0000
    && InDrawOrder(h.sent, h.drawn)
    && (c.delayPhase == WaitResp ==> |h.sent| > 0 && h.sent[|h.sent| - 1] == h.drawn && c.delayTs == h.lastT3)
    && h.corrections + (if c.delayPhase == WaitResp then 1 else 0) <= |h.sent|
  }

  lemma NextId(drawn: nat)
    ensures (drawn % 0x1_0000 + 1) % 0x1_0000 == (drawn + 1) % 0x1_0000 != drawn % 0x1_0000
  {
  }

  lemma SentGrows(sent: seq<nat>, drawn: nat)
    requires InDrawOrder(sent, drawn)
    ensures InDrawOrder(sent, drawn + 1)
    ensures InDrawOrder(sent + [drawn + 1], drawn + 1)
  {
    var grown := sent + [drawn + 1];
    forall i, j | 0 <= i < j < |grown|
      ensures grown[i] < grown[j]
    {
      assert grown[i] == sent[i];
    }
  }

  /** The part of the history that Matched is about. */
  predicate Booked(h: History, c: Client, n: Next, h': History) {
    && h'.drawn == h.drawn + (if n.client.delayReqId != c.delayReqId then 1 else 0)
    && h'.sent == (if Count(n.out, Request) > 0 then h.sent + [h'.drawn] else h.sent)
    && h'.lastT3 == SentT3(n.out, h.lastT3)
    && h'.corrections == h.corrections + Count(n.out, Correction)
  }

  lemma Bookkeeping(h: History, c: Client, e: Event)
    requires ValidConfig(c.cfg)
    ensures Booked(h, c, Step(c, e), Observed(h, c, e))
  {
    hide Step, Follows, Count;
  }

  lemma MatchedAfterRequest(c: Client, h: History, n: Next, h': History)
    requires Matched(c, h) && Booked(h, c, n, h') && (RequestMade(c, n) || RequestFailed(c, n))
    requires forall k :: Count(n.out, k) == Count2(n.out, k)
    ensures Matched(n.client, h')
  {
    hide Count, InDrawOrder;
    NextId(h.drawn);
    SentGrows(h.sent, h.drawn);
  }

  lemma MatchedOtherwise(c: Client, h: History, n: Next, h': History)
    requires Matched(c, h) && Booked(h, c, n, h') && (MeasurementKept(c, n) || ResponseUsed(c, n))
    requires forall k :: Count(n.out, k) == Count2(n.out, k)
    ensures Matched(n.client, h')
  {
    hide Count, InDrawOrder;
  }

  lemma MatchedPacket(c: Client, h: History, e: Event)
    requires ValidConfig(c.cfg) && Matched(c, h) && e.Receive?
    ensures Matched(Step(c, e).client, Observed(h, c, e))
  {
    hide Matched, Booked, RequestMade, RequestFailed, MeasurementKept, ResponseUsed, PacketTaken, Observed, Count,
         Count2;
    FewOutputs(c, e);
    PacketMeasures(c, e);
    Bookkeeping(h, c, e);
    var n, h' := Step(c, e), Observed(h, c, e);
    if RequestMade(c, n) || RequestFailed(c, n) {
      MatchedAfterRequest(c, h, n, h');
    } else {
      MatchedOtherwise(c, h, n, h');
    }
  }

  lemma MatchedTick(c: Client, h: History, e: Event)
    requires ValidConfig(c.cfg) && Matched(c, h) && e.Tick?
    ensures Matched(Step(c, e).client, Observed(h, c, e))
  {
    hide Count, Ticking, Observed, InDrawOrder;
    TickOutputs(c, e.announce, e.sync);
    TickEffect(c, e.announce, e.sync);
    Bookkeeping(h, c, e);
  }

  lemma MatchedQuiet(c: Client, h: History, e: Event)
    requires ValidConfig(c.cfg) && Matched(c, h) && !e.Tick? && !e.Receive?
    ensures Matched(Step(c, e).client, Observed(h, c, e))
  {
    hide Count, Observed, InDrawOrder, Ticked;
    FewOutputs(c, e);
    Bookkeeping(h, c, e);
  }

  lemma MatchedStep(c: Client, h: History, e: Event)
    requires ValidConfig(c.cfg) && Matched(c, h)
    ensures Matched(Step(c, e).client, Observed(h, c, e))
  {
    if e.Receive? {
      MatchedPacket(c, h, e);
    } else if e.Tick? {
      MatchedTick(c, h, e);
    } else {
      MatchedQuiet(c, h, e);
    }
  }

  lemma {:induction false} AlwaysMatched(cfg: Config, clock: Time, events: seq<Event>)
    requires ValidConfig(cfg)
    ensures var r := After(cfg, clock, events); Matched(r.client, r.history)
  {
    if events == [] {
      FewOutputs(Created(cfg, clock), ThreadStart(KeepClock));
    } else {
      AlwaysMatched(cfg, clock, events[..|events| - 1]);
      var r := After(cfg, clock, events[..|events| - 1]);
      MatchedStep(r.client, r.history, events[|events| - 1]);
    }
  }

  lemma OneRequestAtMost(c: Client, e: Event)
    requires ValidConfig(c.cfg)
    ensures Count(Step(c, e).out, Request) <= 1
  {
    hide Step, Count, MeasurementKept, PacketTaken, Ticking;
    if e.Tick? {
      TickCounts(c, e);
    } else {
      FewOutputs(c, e);
      if e.Receive? {
        PacketMeasures(c, e);
        PacketCounts(c, e);
      } else {
        QuietCounts(c, e);
      }
    }
  }

  lemma TickCounts(c: Client, e: Event)
    requires ValidConfig(c.cfg) && e.Tick?
    ensures Count(Step(c, e).out, Request) == 0
  {
    hide Count, Ticking;
    TickOutputs(c, e.announce, e.sync);
  }

  lemma QuietCounts(c: Client, e: Event)
    requires ValidConfig(c.cfg) && !e.Tick? && !e.Receive?
    ensures Count2(Step(c, e).out, Request) == 0
  {
  }

  lemma PacketCounts(c: Client, e: Event)
    requires ValidConfig(c.cfg) && e.Receive?
    ensures Count2(Step(c, e).out, Request) <= 1
  {
    hide PacketTaken;
    PacketMeasures(c, e);
  }

  /** The history counts what was put out. */
  lemma {:induction false} HistoryCountsOutputs(cfg: Config, clock: Time, events: seq<Event>)
    requires ValidConfig(cfg)
    ensures var h, out := After(cfg, clock, events).history, Outputs(cfg, clock, events);
            h.corrections == Count(out, Correction) && |h.sent| == Count(out, Request)
  {
    hide Step, Count, Observed, Started;
    if events == [] {
      StartCounts(cfg, clock);
    } else {
      var before, e := events[..|events| - 1], events[|events| - 1];
      HistoryCountsOutputs(cfg, clock, before);
      var r := After(cfg, clock, before);
      Bookkeeping(r.history, r.client, e);
      OneRequestAtMost(r.client, e);
      CountConcat(Outputs(cfg, clock, before), Step(r.client, e).out, Correction);
      CountConcat(Outputs(cfg, clock, before), Step(r.client, e).out, Request);
    }
  }

  lemma StartCounts(cfg: Config, clock: Time)
    requires ValidConfig(cfg)
    ensures var h, out := After(cfg, clock, []).history, Outputs(cfg, clock, []);
            h.corrections == Count(out, Correction) == 0 && h.sent == [] && Count(out, Request) == 0
  {
    FewOutputs(Created(cfg, clock), ThreadStart(KeepClock));
  }

  /** Over every run no more corrections are put out than Delay_Reqs. */
  lemma CorrectionsWithinRequests(cfg: Config, clock: Time, events: seq<Event>)
    requires ValidConfig(cfg)
    ensures var out := Outputs(cfg, clock, events); Count(out, Correction) <= Count(out, Request)
  {
    AlwaysMatched(cfg, clock, events);
    HistoryCountsOutputs(cfg, clock, events);
  }

  /** A Delay_Resp for us, with the id of the latest Delay_Req sent and of no other sent fewer
      than 65536 ids before. */
  predicate AnswersLatest(c: Client, h: History, e: Event)
    requires ValidConfig(c.cfg)
  {
    && e.Receive? && |h.sent| > h.corrections
    && var p := ParseHeader(e.packet, c.cfg.domain);
    && p.Accepted? && p.hdr.messageType == TYPE_DELAY_RESP && |p.body| >= 20
    && p.body[10..20] == c.cfg.portId
    && p.hdr.sequenceId == h.sent[|h.sent| - 1] % 0x1_0000
    && (forall i :: 0 <= i < |h.sent| - 1 && h.sent[|h.sent| - 1] < h.sent[i] + 0x1_0000 ==>
          h.sent[i] % 0x1_0000 != p.hdr.sequenceId)
  }

  lemma ResponseMatches(c: Client, h: History, e: Event)
    requires ValidConfig(c.cfg) && Matched(c, h) && AnswersRequest(c, e)
    ensures AnswersLatest(c, h, e) && c.delayTs == h.lastT3
  {
    hide ParseHeader;
    OtherIds(h.sent, h.drawn);
  }

  /** Over every run, whatever comes next: a correction is made only by such a Delay_Resp, and
      it uses the transmit timestamp of the latest Delay_Req sent. */
  lemma CorrectionsMatchRequests(cfg: Config, clock: Time, events: seq<Event>, e: Event)
    requires ValidConfig(cfg)
    ensures var r := After(cfg, clock, events);
            Count(Step(r.client, e).out, Correction) > 0 ==>
              && AnswersLatest(r.client, r.history, e)
              && Step(r.client, e).out[0] == Corrected(Offset(r.client.sync, r.client.syncTs, r.history.lastT3,
                   ParseTimestamp(ParseHeader(e.packet, cfg.domain).body)))
  {
    AlwaysMatched(cfg, clock, events);
    var r := After(cfg, clock, events);
    hide After;
    if e.Tick? {
      TickOutputs(r.client, e.announce, e.sync);
    } else {
      FewOutputs(r.client, e);
      if e.Receive? {
        PacketMeasures(r.client, e);
        PacketCases(r.client, e);
        if AnswersRequest(r.client, e) {
          ResponseMatches(r.client, r.history, e);
        }
      }
    }
    hide Ticking, PacketTaken, ParseHeader, Follows, Offset, ParseTimestamp, Count, Matched, AnswersRequest;
  }

  lemma OtherIds(sent: seq<nat>, drawn: nat)
    requires InDrawOrder(sent, drawn)
    ensures forall i :: 0 <= i < |sent| - 1 && sent[|sent| - 1] < sent[i] + 0x1_0000 ==>
              sent[i] % 0x1_0000 != sent[|sent| - 1] % 0x1_0000
  {
  }
}
