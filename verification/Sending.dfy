/** What a client sends, and when, over every run: the Delay_Reqs whose responses it takes, and the
    Announces and Syncs that it owes as master. */
module Sending {
  import opened Words
  import opened PtpTime
  import opened ClockOrder
  import opened Wire
  import opened Client
  import opened ClientRuns
  import opened Layout
  import opened Freshness
  import opened Hearing
  import opened Matching
  import opened Election
  import opened Exchange

  // ----- Delay_Reqs -----

  /** A Delay_Req of this client's, 44 bytes with its port identity, and the sequence id in it. */
  predicate IsPrinted(cfg: Config, o: Output) {
    && o.DelayReqSent?
    && |o.bytes| == 44 && o.bytes[0] % 16 == 1 && o.bytes[1] % 16 == 2
    && o.bytes[20..30] == cfg.portId
  }

  function PrintedId(o: Output): nat
    requires o.DelayReqSent? && |o.bytes| == 44
  {
    Number(o.bytes[30..32])
  }

  predicate IsAwaited(c: Client, c': Client, o: Output) {
    && IsPrinted(c.cfg, o)
    && PrintedId(o) == o.id == c'.delayReqId
    && c'.delayPhase == WaitResp && c'.delayTs == o.t3 == c.clock
  }

  /** Every Delay_Req that a step sends carries the id that the client then waits for, and was
      stamped with its clock. */
  lemma RequestIsAwaited(c: Client, e: Event)
    requires ValidConfig(c.cfg) && c.delayPhase != WaitReqTs
    ensures forall o :: o in Step(c, e).out && o.DelayReqSent? ==>
              |Step(c, e).out| == 1 && IsAwaited(c, Step(c, e).client, o)
  {
    hide PacketTaken, Ticking, DelayReqBytes, Number;
    if e.Receive? {
      PacketMeasures(c, e);
      if RequestMade(c, Step(c, e)) {
        PrintedDelayReqBytes(c.cfg.transport, c.cfg.domain, c.cfg.portId, Step(c, e).client.delayReqId);
      }
    } else if e.Tick? {
      TickOutputs(c, e.announce, e.sync);
      CountNone(Step(c, e).out, Request);
    }
  }

  /** The Delay_Reqs among some outputs. */
  function Requests(out: seq<Output>): seq<Output> {
    if out == [] then []
    else
      var last := out[|out| - 1];
      Requests(out[..|out| - 1]) + if last.DelayReqSent? then [last] else []
  }

  lemma {:induction false} RequestsConcat(a: seq<Output>, b: seq<Output>)
    ensures Requests(a + b) == Requests(a) + Requests(b)
  {
    if b == [] {
      assert a + b == a;
    } else {
      var n := |b| - 1;
      assert (a + b)[..|a + b| - 1] == a + b[..n];
      RequestsConcat(a, b[..n]);
    }
  }

  lemma {:induction false} NoRequests(out: seq<Output>)
    requires forall o :: o in out ==> !o.DelayReqSent?
    ensures Requests(out) == []
  {
    if out != [] {
      NoRequests(out[..|out| - 1]);
    }
  }

  lemma StepRequests(c: Client, e: Event)
    requires ValidConfig(c.cfg) && c.delayPhase != WaitReqTs
    ensures var n := Step(c, e);
            || (Count(n.out, Request) == 0 && Requests(n.out) == [])
            || (Count(n.out, Request) > 0 && |n.out| == 1 && Requests(n.out) == n.out
                && IsAwaited(c, n.client, n.out[0]) && n.client.delayReqId != c.delayReqId)
  {
    hide PacketTaken, Ticking, DelayReqBytes, Number, Count;
    RequestIsAwaited(c, e);
    var n := Step(c, e);
    if e.Receive? {
      PacketMeasures(c, e);
      FewOutputs(c, e);
      if RequestMade(c, n) {
        assert Requests(n.out[..0]) == [];
      } else {
        NoRequests(n.out);
      }
    } else if e.Tick? {
      TickOutputs(c, e.announce, e.sync);
      CountNone(n.out, Request);
      NoRequests(n.out);
    } else {
      FewOutputs(c, e);
      NoRequests(n.out);
    }
  }

  /** The Delay_Reqs put out are those of the history, their ids as printed. */
  predicate RequestsAre(cfg: Config, reqs: seq<Output>, h: History) {
    && |reqs| == |h.sent|
    && (forall i :: 0 <= i < |reqs| ==> IsPrinted(cfg, reqs[i]) && PrintedId(reqs[i]) == h.sent[i] % 0x1_0000)
    && (|reqs| > 0 ==> reqs[|reqs| - 1].t3 == h.lastT3)
  }

  lemma OneMore(cfg: Config, reqs: seq<Output>, o: Output, h: History, h': History, drawn: nat)
    requires RequestsAre(cfg, reqs, h) && h'.sent == h.sent + [drawn]
    requires IsPrinted(cfg, o) && PrintedId(o) == drawn % 0x1_0000 && o.t3 == h'.lastT3
    ensures RequestsAre(cfg, reqs + [o], h')
  {
    hide IsPrinted, PrintedId;
    assert forall i :: 0 <= i < |reqs| ==> (reqs + [o])[i] == reqs[i] && h'.sent[i] == h.sent[i];
  }

  lemma NoneMore(cfg: Config, reqs: seq<Output>, none: seq<Output>, h: History, h': History)
    requires RequestsAre(cfg, reqs, h) && h'.sent == h.sent && h'.lastT3 == h.lastT3 && none == []
    ensures RequestsAre(cfg, reqs + none, h')
  {
    assert reqs + none == reqs;
  }

  lemma RequestsStep(c: Client, h: History, reqs: seq<Output>, e: Event)
    requires ValidConfig(c.cfg) && Matched(c, h) && RequestsAre(c.cfg, reqs, h)
    ensures RequestsAre(c.cfg, reqs + Requests(Step(c, e).out), Observed(h, c, e))
  {
    hide Step, Observed, Count, InDrawOrder, IsPrinted, PrintedId, RequestsAre, Requests;
    StepRequests(c, e);
    Bookkeeping(h, c, e);
    MatchedStep(c, h, e);
    var n, h' := Step(c, e), Observed(h, c, e);
    if Count(n.out, Request) > 0 {
      assert Requests(n.out) == [n.out[0]];
      OneMore(c.cfg, reqs, n.out[0], h, h', h'.drawn);
    } else {
      QuietT3(c, e);
      NoneMore(c.cfg, reqs, Requests(n.out), h, h');
    }
  }

  /** Without a Delay_Req there is no new t3. */
  lemma QuietT3(c: Client, e: Event)
    requires ValidConfig(c.cfg) && Count(Step(c, e).out, Request) == 0
    ensures forall before: Time :: SentT3(Step(c, e).out, before) == before
  {
    hide Step;
    CountNone(Step(c, e).out, Request);
  }

  lemma {:induction false} RequestsArePrinted(cfg: Config, clock: Time, events: seq<Event>)
    requires ValidConfig(cfg)
    ensures RequestsAre(cfg, Requests(Outputs(cfg, clock, events)), After(cfg, clock, events).history)
  {
    hide Step, Observed, RequestsAre, Started;
    if events == [] {
      NothingRequested(cfg, clock);
    } else {
      var before, e := events[..|events| - 1], events[|events| - 1];
      RequestsArePrinted(cfg, clock, before);
      AlwaysMatched(cfg, clock, before);
      var r := After(cfg, clock, before);
      RequestsStep(r.client, r.history, Requests(Outputs(cfg, clock, before)), e);
      RequestsConcat(Outputs(cfg, clock, before), Step(r.client, e).out);
    }
  }

  lemma NothingRequested(cfg: Config, clock: Time)
    requires ValidConfig(cfg)
    ensures RequestsAre(cfg, Requests(Outputs(cfg, clock, [])), After(cfg, clock, []).history)
  {
    StartCounts(cfg, clock);
    NoRequests(Outputs(cfg, clock, []));
  }

  /** Over every run, whatever comes next: a correction is made only by a Delay_Resp that repeats, byte
      for byte, the id and the port identity of the Delay_Req put out last, and with the timestamp
      that one was put out with. */
  lemma CorrectionsAnswerWhatWasSent(cfg: Config, clock: Time, events: seq<Event>, e: Event)
    requires ValidConfig(cfg)
    ensures var c, reqs := After(cfg, clock, events).client, Requests(Outputs(cfg, clock, events));
            var out := Step(c, e).out;
            Count(out, Correction) > 0 ==>
              && |reqs| > 0 && IsPrinted(cfg, reqs[|reqs| - 1])
              && e.Receive? && |e.packet| >= 54 && e.packet[0] % 16 == 9
              && e.packet[30..32] == reqs[|reqs| - 1].bytes[30..32]
              && e.packet[44..54] == reqs[|reqs| - 1].bytes[20..30]
              && out[0] == Corrected(Offset(c.sync, c.syncTs, reqs[|reqs| - 1].t3,
                   Time(Number(e.packet[34..40]), Signed(Number(e.packet[40..44]), 0x1_0000_0000))))
  {
    hide Step, After, Outputs, Count, Number, ParseHeader, ParseTimestamp, Matched, Offset;
    CorrectionsMatchRequests(cfg, clock, events, e);
    RequestsArePrinted(cfg, clock, events);
    var r, reqs := After(cfg, clock, events), Requests(Outputs(cfg, clock, events));
    if Count(Step(r.client, e).out, Correction) > 0 {
      ResponseBytes(r.client, e);
      SameTwoBytes(e.packet[30..32], reqs[|reqs| - 1].bytes[30..32]);
    }
  }

  lemma ResponseBytes(c: Client, e: Event)
    requires ValidConfig(c.cfg) && e.Receive?
    requires var p := ParseHeader(e.packet, c.cfg.domain);
             p.Accepted? && p.hdr.messageType == TYPE_DELAY_RESP && |p.body| >= 20 && p.body[10..20] == c.cfg.portId
    ensures var p := ParseHeader(e.packet, c.cfg.domain);
            && |e.packet| >= 54 && e.packet[0] % 16 == 9
            && Number(e.packet[30..32]) == p.hdr.sequenceId && e.packet[44..54] == c.cfg.portId
            && ParseTimestamp(p.body)
               == Time(Number(e.packet[34..40]), Signed(Number(e.packet[40..44]), 0x1_0000_0000))
  {
    HeardFromBytes(c, e);
    hide ParseHeader, Number, ParseTimestamp, PayloadLength, Signed, ForUs;
    var body := ParseHeader(e.packet, c.cfg.domain).body;
    PayloadSlice(e.packet, 34 + |body|, 10, 20);
    StampOfPacket(e.packet, c.cfg.domain);
  }

  lemma SameTwoBytes(a: seq<Byte>, b: seq<Byte>)
    requires |a| == |b| && Number(a) == Number(b)
    ensures a == b
  {
    MemCmpComparesNumbers(a, b);
  }

  /** Transmit timestamps only. */
  predicate Notes(events: seq<Event>) {
    forall e :: e in events ==> e.TimestampNotify?
  }

  predicate Awaits(c: Client, e: Event) {
    c.delayPhase == WaitReqTs && e.TimestampNotify? && e.handle == c.delayPacket
  }

  /** Transmit timestamps that are not awaited change nothing, however many come. */
  lemma {:induction false} OtherStampsAreIgnored(c: Client, notes: seq<Event>)
    requires ValidConfig(c.cfg) && Notes(notes) && forall e :: e in notes ==> !Awaits(c, e)
    ensures Steps(c, notes) == c
    decreases |notes|
  {
    if notes != [] {
      assert notes[0] in notes;
      OtherStampsAreIgnored(c, notes[1..]);
    }
  }

  /** A client that waits for a packet's timestamp takes the first one that is of this packet, and keeps
      it whatever timestamps come later. */
  lemma {:induction false} FirstAwaitedStampIsTaken(c: Client, before: seq<Event>, e: Event, later: seq<Event>)
    requires ValidConfig(c.cfg) && Notes(before) && Notes(later)
    requires Awaits(c, e) && forall e' :: e' in before ==> !Awaits(c, e')
    ensures Steps(c, before + [e] + later) == c.(delayTs := e.timestamp, delayPhase := WaitResp)
    decreases |before|
  {
    var all := before + [e] + later;
    if before == [] {
      assert all[0] == e && all[1..] == later;
      OtherStampsAreIgnored(Step(c, e).client, later);
    } else {
      assert before[0] in before && all[0] == before[0] && all[1..] == before[1..] + [e] + later;
      FirstAwaitedStampIsTaken(c, before[1..], e, later);
    }
  }

  // ----- Announces and Syncs -----

  /** A client that is a master has both timers running; the others neither. */
  lemma TimersAgreeStep(c: Client, e: Event)
    requires ValidConfig(c.cfg) && TimersAgree(c)
    ensures TimersAgree(Step(c, e).client)
  {
    hide PacketTaken, Ticking, Follows, ParseHeader;
    if e.Receive? {
      if Follows(c, e) {
        FollowEffect(c, e);
        FollowsHeard(c, e);
      } else {
        UnfollowedStep(c, e);
      }
    } else if e.Tick? {
      TickEffect(c, e.announce, e.sync);
      SendTimersEffect(c, e.announce, e.sync);
    }
  }

  lemma {:induction false} AlwaysTimersAgree(cfg: Config, clock: Time, events: seq<Event>)
    requires ValidConfig(cfg)
    ensures TimersAgree(After(cfg, clock, events).client)
  {
    hide Step, Observed, TimersAgree;
    if events == [] {
      StartTimersAgree(cfg, clock);
    } else {
      var before := events[..|events| - 1];
      AlwaysTimersAgree(cfg, clock, before);
      TimersAgreeStep(After(cfg, clock, before).client, events[|events| - 1]);
    }
  }

  lemma StartTimersAgree(cfg: Config, clock: Time)
    requires ValidConfig(cfg)
    ensures TimersAgree(After(cfg, clock, []).client)
  {
  }

  /** Timer events until a send timer of a master runs out. An announce timeout left over from before
      it became master runs out too, once, and restarts the timer. */
  function Due(timer: int, timeout: int, interval: int): int {
    if 0 < timeout < timer then timeout + interval else timer
  }

  function DueAnnounce(c: Client): int {
    Due(c.announceTimer, c.announceTimeout, 200)
  }

  function DueSync(c: Client): int {
    Due(c.syncTimer, c.announceTimeout, 12)
  }

  /** A timer event of a master with its packets granted and sent puts out its Announce, or its Sync,
      exactly when that is due, and else the due time comes one nearer. */
  lemma DueTick(c: Client, announce: Net, sync: Net)
    requires ValidConfig(c.cfg) && TimersAgree(c) && c.phase == Master
    requires announce.granted && announce.sent && sync.granted && sync.sent
    ensures var n := Ticking(c, announce, sync);
            && n.client.phase == Master
            && ((exists o :: o in n.out && o.AnnounceSent?) <==> c.announceTimer == 1)
            && ((exists o :: o in n.out && o.SyncSent?) <==> c.syncTimer == 1)
            && (c.announceTimer == 1 ==> AnnounceSent(AnnounceOf(c.cfg, (c.seqId + 1) % 0x1_0000)) in n.out)
            && (c.syncTimer == 1 ==> SyncSent((c.seqId + if c.announceTimer == 1 then 2 else 1) % 0x1_0000) in n.out)
            && (c.announceTimer > 1 ==>
                  DueAnnounce(n.client) == DueAnnounce(c) - 1)
            && (c.syncTimer > 1 ==>
                  DueSync(n.client) == DueSync(c) - 1)
  {
    TickEffect(c, announce, sync);
    SendTimersEffect(c, announce, sync);
    TickSends(c, announce, sync);
    hide Ticking;
  }

  lemma TickSends(c: Client, announce: Net, sync: Net)
    requires ValidConfig(c.cfg) && announce.granted && announce.sent && sync.granted && sync.sent
    ensures var out := Ticking(c, announce, sync).out;
            && ((exists o :: o in out && o.AnnounceSent?) <==> c.announceTimer == 1)
            && ((exists o :: o in out && o.SyncSent?) <==> c.syncTimer == 1)
            && (c.announceTimer == 1 ==> AnnounceSent(AnnounceOf(c.cfg, (c.seqId + 1) % 0x1_0000)) in out)
            && (c.syncTimer == 1 ==> SyncSent((c.seqId + if c.announceTimer == 1 then 2 else 1) % 0x1_0000) in out)
  {
    hide AnnounceBytes;
    var a := AnnounceTick(c, announce);
    var s := SyncTick(a.client, sync);
    var t := TimeoutTick(s.client);
    var out := Ticking(c, announce, sync).out;
    assert out == a.out + s.out + t.out;
    assert a.client.syncTimer == c.syncTimer;
    if c.announceTimer == 1 {
      assert a.out == [AnnounceSent(AnnounceOf(c.cfg, (c.seqId + 1) % 0x1_0000))];
      assert a.out[0] in out;
    }
    if c.syncTimer == 1 {
      assert s.out == [SyncSent((c.seqId + if c.announceTimer == 1 then 2 else 1) % 0x1_0000)];
      assert s.out[0] in out;
    }
    hide Ticking, AnnounceTick, SyncTick, TimeoutTick;
  }

  /** All that a client puts out over some events. */
  function OutputsFrom(c: Client, events: seq<Event>): seq<Output>
    requires ValidConfig(c.cfg)
    decreases |events|
  {
    if events == [] then [] else Step(c, events[0]).out + OutputsFrom(Step(c, events[0]).client, events[1..])
  }

  /** The client is and stays master, is not restarted, and every packet it wants to send is granted
      and sent. */
  predicate StaysMaster(c: Client, events: seq<Event>)
    requires ValidConfig(c.cfg)
    decreases |events|
  {
    c.phase == Master &&
    (events == [] ||
     var e := events[0];
     && !e.ThreadStart?
     && (e.Tick? ==> e.announce.granted && e.announce.sent && e.sync.granted && e.sync.sent)
     && StaysMaster(Step(c, e).client, events[1..]))
  }

  predicate HasAnnounce(out: seq<Output>) {
    exists o :: o in out && o.AnnounceSent?
  }

  predicate HasSync(out: seq<Output>) {
    exists o :: o in out && o.SyncSent?
  }

  lemma HasConcat(a: seq<Output>, b: seq<Output>)
    ensures HasAnnounce(a + b) <==> HasAnnounce(a) || HasAnnounce(b)
    ensures HasSync(a + b) <==> HasSync(a) || HasSync(b)
  {
    assert forall o :: o in a + b <==> o in a || o in b;
  }

  lemma OtherEventsSendNothing(c: Client, e: Event)
    requires ValidConfig(c.cfg) && TimersAgree(c) && c.phase == Master && !e.Tick? && !e.ThreadStart?
    requires Step(c, e).client.phase == Master
    ensures var n := Step(c, e);
            && !HasAnnounce(n.out) && !HasSync(n.out)
            && n.client.announceTimer == c.announceTimer && n.client.syncTimer == c.syncTimer
            && n.client.announceTimeout == c.announceTimeout
  {
    hide PacketTaken, Follows, ParseHeader;
    if e.Receive? {
      if Follows(c, e) {
        FollowEffect(c, e);
      } else {
        UnfollowedStep(c, e);
      }
    }
  }

  /** As long as it stays master, it puts out its next Announce at exactly the timer event that is
      due, and so with its Sync. */
  lemma {:induction false} MasterSendsWhenDue(c: Client, events: seq<Event>)
    requires ValidConfig(c.cfg) && TimersAgree(c) && StaysMaster(c, events)
    ensures HasAnnounce(OutputsFrom(c, events)) <==>
              TickCount(events) >= DueAnnounce(c)
    ensures HasSync(OutputsFrom(c, events)) <==>
              TickCount(events) >= DueSync(c)
    decreases |events|
  {
    hide Step, HasAnnounce, HasSync;
    if events == [] {
      NothingSent();
    } else {
      var e := events[0];
      var n := Step(c, e);
      HasConcat(n.out, OutputsFrom(n.client, events[1..]));
      TimersAgreeStep(c, e);
      MasterSendsWhenDue(n.client, events[1..]);
      if e.Tick? {
        TickIsDue(c, e);
      } else {
        OtherEventsSendNothing(c, e);
      }
    }
  }

  lemma NothingSent()
    ensures !HasAnnounce([]) && !HasSync([])
  {
  }

  lemma TickIsDue(c: Client, e: Event)
    requires ValidConfig(c.cfg) && TimersAgree(c) && c.phase == Master && e.Tick?
    requires e.announce.granted && e.announce.sent && e.sync.granted && e.sync.sent
    ensures var n := Step(c, e);
            && (HasAnnounce(n.out) <==> c.announceTimer == 1) && (HasSync(n.out) <==> c.syncTimer == 1)
            && (c.announceTimer > 1 ==>
                  DueAnnounce(n.client) == DueAnnounce(c) - 1)
            && (c.syncTimer > 1 ==>
                  DueSync(n.client) == DueSync(c) - 1)
  {
    hide Ticking, Due;
    DueTick(c, e.announce, e.sync);
  }

  /** Over every run: a client that is master puts out an Announce within its next 200 timer events
      whose packets are granted and sent, or, if an announce timeout is left over that ends before
      the timer, exactly 200 after that end; and a Sync likewise within 12. */
  lemma MastersAnnounce(cfg: Config, clock: Time, before: seq<Event>, events: seq<Event>)
    requires ValidConfig(cfg) && StaysMaster(After(cfg, clock, before).client, events)
    ensures var c := After(cfg, clock, before).client;
            var out := OutputsFrom(c, events);
            var dueAnnounce := DueAnnounce(c);
            var dueSync := DueSync(c);
            && (HasAnnounce(out) <==> TickCount(events) >= dueAnnounce)
            && (HasSync(out) <==> TickCount(events) >= dueSync)
            && 1 <= dueAnnounce <= 399 && 1 <= dueSync <= 23
            && (!(0 < c.announceTimeout < c.announceTimer) ==> dueAnnounce <= 200)
            && (!(0 < c.announceTimeout < c.syncTimer) ==> dueSync <= 12)
  {
    hide Step, After, OutputsFrom, StaysMaster, HasAnnounce, HasSync;
    AlwaysTimersAgree(cfg, clock, before);
    MasterSendsWhenDue(After(cfg, clock, before).client, events);
    MasterNow(After(cfg, clock, before).client, events);
  }

  lemma MasterNow(c: Client, events: seq<Event>)
    requires ValidConfig(c.cfg) && StaysMaster(c, events)
    ensures c.phase == Master
  {
  }

  /** The left-over timeout is real: a node promoted by a worse clock's Announce while it has between
      1 and 199 timer events of its timeout left owes its first Announce later than 200. */
  lemma PromotionDelaysAnnounce(c: Client, e: Event)
    requires ValidConfig(c.cfg) && e.Receive? && Promotes(c, Step(c, e)) && 0 < c.announceTimeout < 200
    ensures var c' := Step(c, e).client;
            c'.phase == Master && DueAnnounce(c') == c.announceTimeout + 200
  {
    hide Step;
  }
}
