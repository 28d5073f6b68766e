/** Runs of one client, with the history an observer of its inputs and outputs would keep. */
module ClientRuns {
  import opened PtpTime
  import opened ClockOrder
  import opened Wire
  import opened Client

  datatype Kind = Request | Correction | SyncReport | Timeout

  predicate IsKind(o: Output, k: Kind) {
    match k
    case Request => o.DelayReqSent?
    case Correction => o.Corrected?
    case SyncReport => o.SyncEvent?
    case Timeout => o.TimeoutEvent?
  }

  function Count(out: seq<Output>, k: Kind): nat {
    if out == [] then 0 else (if IsKind(out[0], k) then 1 else 0) + Count(out[1..], k)
  }

  lemma {:induction false} CountConcat(a: seq<Output>, b: seq<Output>, k: Kind)
    ensures Count(a + b, k) == Count(a, k) + Count(b, k)
  {
    if a == [] {
      assert a + b == b;
    } else {
      assert (a + b)[1..] == a[1..] + b;
      CountConcat(a[1..], b, k);
    }
  }

  lemma {:induction false} CountNone(out: seq<Output>, k: Kind)
    requires Count(out, k) == 0
    ensures forall o :: o in out ==> !IsKind(o, k)
  {
    if out != [] {
      CountNone(out[1..], k);
      assert out == [out[0]] + out[1..];
    }
  }

  lemma CountSmall(out: seq<Output>)
    requires |out| <= 2
    ensures forall k :: Count(out, k) == Count2(out, k)
  {
    forall k
      ensures Count(out, k) == Count2(out, k)
    {
      if |out| == 2 {
        assert Count(out[1..], k) == if IsKind(out[1], k) then 1 else 0;
      }
    }
  }

  /** Count for at most two outputs. */
  function Count2(out: seq<Output>, k: Kind): nat {
    (if |out| > 0 && IsKind(out[0], k) then 1 else 0) + (if |out| > 1 && IsKind(out[1], k) then 1 else 0)
  }

  /** A packet causes at most two outputs. */
  lemma FewOutputs(c: Client, e: Event)
    requires ValidConfig(c.cfg) && !e.Tick?
    ensures |Step(c, e).out| <= 2
    ensures forall k :: Count(Step(c, e).out, k) == Count2(Step(c, e).out, k)
  {
    hide ParseHeader, ParseAnnounce, ClockCompare, Offset, CorrectedSync, ParseTimestamp, DelayReqBytes;
    CountSmall(Step(c, e).out);
  }

  /** What the send timers cause counts as nothing an observer counts. */
  lemma QuietSending(c: Client, net: Net)
    requires ValidConfig(c.cfg)
    ensures var out := AnnounceTick(c, net).out;
            (forall k :: Count(out, k) == 0) && (out == [] || out[0].AnnounceSent?)
    ensures var out := SyncTick(c, net).out;
            (forall k :: Count(out, k) == 0) && (out == [] || out[0].SyncSent?)
  {
    hide AnnounceBytes, Count;
    CountSmall(AnnounceTick(c, net).out);
    CountSmall(SyncTick(c, net).out);
  }

  /** A timer event sends no Delay_Req, corrects nothing and reports at most a timeout. */
  lemma TickOutputs(c: Client, announce: Net, sync: Net)
    requires ValidConfig(c.cfg)
    ensures var out := Ticking(c, announce, sync).out;
            && Count(out, Request) == 0 && Count(out, Correction) == 0 && Count(out, SyncReport) == 0
            && Count(out, Timeout) == (if c.announceTimeout == 1 && c.cfg.role == SlaveOnly then 1 else 0)
            && (out == [] || (!out[0].DelayReqSent? && !out[0].Corrected?))
  {
    hide AnnounceBytes, Count;
    var a := AnnounceTick(c, announce);
    var s := SyncTick(a.client, sync);
    var t := TimeoutTick(s.client);
    QuietSending(c, announce);
    QuietSending(a.client, sync);
    SendingTicks(c, announce);
    SendingTicks(a.client, sync);
    hide AnnounceTick, SyncTick;
    CountSmall(t.out);
    forall k: Kind
      ensures Count(a.out + s.out + t.out, k) == Count(a.out, k) + Count(s.out, k) + Count(t.out, k)
    {
      CountConcat(a.out + s.out, t.out, k);
      CountConcat(a.out, s.out, k);
    }
  }

  lemma SendingTicks(c: Client, net: Net)
    requires ValidConfig(c.cfg)
    ensures var a := AnnounceTick(c, net).client; a == c.(announceTimer := a.announceTimer, seqId := a.seqId)
    ensures var s := SyncTick(c, net).client; s == c.(syncTimer := s.syncTimer, seqId := s.seqId)
  {
    hide AnnounceBytes;
  }

  /** What a timer event does to the slave's side of a client. */
  lemma TickEffect(c: Client, announce: Net, sync: Net)
    requires ValidConfig(c.cfg)
    ensures var c' := Ticking(c, announce, sync).client;
            var expires := c.announceTimeout == 1;
            var lost := expires && c.cfg.role == SlaveOnly;
            && c'.phase == (if !expires then c.phase else if lost then Listening else Master)
            && c'.announceTimeout == (if c.announceTimeout <= 0 then c.announceTimeout
                                      else if lost then -1 else c.announceTimeout - 1)
            && c'.delayTimer == (if lost then -1 else if c.delayTimer > 0 then c.delayTimer - 1 else c.delayTimer)
            && c'.delayFlag == (c.delayFlag || (!lost && c.delayTimer == 1))
            && c'.delayPhase == c.delayPhase && c'.delayReqId == c.delayReqId && c'.delayTs == c.delayTs
            && c'.delayPacket == c.delayPacket
            && c'.flags == c.flags && c'.utcOffset == c.utcOffset && c'.masterId == c.masterId
            && c'.clock == c.clock && c'.sync == c.sync && c'.syncTs == c.syncTs && c'.syncId == c.syncId
  {
    hide AnnounceTick, SyncTick;
    SendingTicks(c, announce);
    SendingTicks(AnnounceTick(c, announce).client, sync);
  }

  /** The event is an Announce for this client, from a clock it may follow: its master's when it
      is a slave, any when it has no clock of its own, and otherwise one better than its own. */
  predicate Follows(c: Client, e: Event)
    requires ValidConfig(c.cfg)
  {
    && e.Receive? && e.usable
    && var p := ParseHeader(e.packet, c.cfg.domain);
    && p.Accepted?
    && Heard(c, p.hdr)
    && p.hdr.messageType == TYPE_ANNOUNCE
    && |p.body| >= ANNOUNCE_LEN
    && c.cfg.role != MasterOnly
    && (c.cfg.role == SlaveAndMaster ==>
          && ParseAnnounce(p.body).clock.identity != c.cfg.clock.identity
          && Better(ParseAnnounce(p.body).clock, c.cfg.clock))
  }

  function FollowedAnnounce(c: Client, e: Event): (SyncFlags, int)
    requires ValidConfig(c.cfg) && Follows(c, e)
  {
    var p := ParseHeader(e.packet, c.cfg.domain);
    (AnnouncedFlags(p.hdr), ParseAnnounce(p.body).utcOffset)
  }

  predicate AnswersRequest(c: Client, e: Event)
    requires ValidConfig(c.cfg)
  {
    && e.Receive? && e.usable
    && var p := ParseHeader(e.packet, c.cfg.domain);
    && p.Accepted?
    && Heard(c, p.hdr)
    && p.hdr.messageType == TYPE_DELAY_RESP
    && RespMatches(c, p.hdr, p.body)
  }

  /** Our master's two-step Sync: only its arrival counts until the Follow_Up. */
  predicate BeginsTwoStep(c: Client, e: Event)
    requires ValidConfig(c.cfg)
  {
    && e.Receive? && e.usable && c.phase == Slave
    && var p := ParseHeader(e.packet, c.cfg.domain);
    && p.Accepted?
    && Heard(c, p.hdr)
    && p.hdr.messageType == TYPE_SYNC && Bit(p.hdr.flags, 9) && |p.body| >= 10
  }

  /** Our master's one-step Sync, or a Follow_Up with the sequence id we remember. */
  predicate CarriesSync(c: Client, e: Event)
    requires ValidConfig(c.cfg)
  {
    && e.Receive? && e.usable && c.phase == Slave
    && var p := ParseHeader(e.packet, c.cfg.domain);
    && p.Accepted?
    && Heard(c, p.hdr)
    && ((p.hdr.messageType == TYPE_SYNC && !Bit(p.hdr.flags, 9))
        || (p.hdr.messageType == TYPE_FOLLOW_UP && p.hdr.sequenceId == c.syncId))
    && |p.body| >= 10
  }

  predicate Promotes(c: Client, n: Next) {
    c.cfg.role == SlaveAndMaster && c.phase != Master && n == Next(Promoted(c), [MasterEvent(c.cfg.clock)])
  }

  /** Everything a packet can be to a client. */
  lemma PacketCases(c: Client, e: Event)
    requires ValidConfig(c.cfg) && e.Receive?
    ensures Follows(c, e) ==>
              var p := ParseHeader(e.packet, c.cfg.domain);
              var c' := if c.cfg.role == SlaveAndMaster then Demoted(c) else c;
              Step(c, e) == Followed(c', p.hdr, ParseAnnounce(p.body))
    ensures AnswersRequest(c, e) ==>
              Step(c, e) == DelayRespTaken(c, ParseHeader(e.packet, c.cfg.domain).body)
    ensures BeginsTwoStep(c, e) ==>
              var id := ParseHeader(e.packet, c.cfg.domain).hdr.sequenceId;
              Step(c, e) == Next(c.(syncTs := c.clock, syncId := id), [])
    ensures CarriesSync(c, e) ==>
              var p := ParseHeader(e.packet, c.cfg.domain);
              var c' := if p.hdr.messageType == TYPE_SYNC then c.(syncTs := c.clock) else c;
              Step(c, e) == SyncTaken(c', p.hdr, p.body, e.net)
    ensures !Follows(c, e) && !AnswersRequest(c, e) && !BeginsTwoStep(c, e) && !CarriesSync(c, e) ==>
              Step(c, e) == Next(c, []) || Promotes(c, Step(c, e))
  {
    hide ParseHeader, ParseAnnounce, Followed, Demoted, Better, ClockCompare, SyncTaken, DelayRespTaken,
         RespMatches, Bit;
    var p := ParseHeader(e.packet, c.cfg.domain);
    if p.Accepted? && |p.body| >= ANNOUNCE_LEN {
      CompareIsRankOrder(c.cfg.clock, ParseAnnounce(p.body).clock);
    }
  }

  predicate AtMostOne(cases: seq<bool>) {
    forall i, j :: 0 <= i < j < |cases| ==> !(cases[i] && cases[j])
  }

  /** And it is only one of them. */
  lemma PacketCasesExclude(c: Client, e: Event)
    requires ValidConfig(c.cfg) && e.Receive?
    ensures AtMostOne([Follows(c, e), AnswersRequest(c, e), BeginsTwoStep(c, e), CarriesSync(c, e),
                       Promotes(c, Step(c, e))])
  {
    hide PacketTaken, ParseHeader, ParseAnnounce, Bit, Better, RespMatches;
    if Promotes(c, Step(c, e)) {
      PromotesAlone(c, e);
    }
  }

  /** A promotion makes its client master, and the other cases do not. */
  lemma PromotesAlone(c: Client, e: Event)
    requires ValidConfig(c.cfg) && e.Receive? && Promotes(c, Step(c, e))
    ensures !Follows(c, e) && !AnswersRequest(c, e) && !BeginsTwoStep(c, e) && !CarriesSync(c, e)
  {
    hide PacketTaken, ParseHeader, ParseAnnounce, ParseTimestamp, CorrectedSync, Offset, DelayReqBytes, Bit, Better,
         RespMatches, Follows, AnswersRequest;
    PacketCases(c, e);
  }

  predicate EntersSlave(c: Client, c': Client) {
    c.phase != Slave && c'.phase == Slave
  }

  datatype History = History(
    starts: nat,                    // thread starts
    accepted: nat,                  // Announces followed
    silence: nat,                   // timer events since the last start or followed Announce
    timeouts: nat,                  // TIMEOUT events reported
    lastFlags: SyncFlags, lastUtc: int, // of the last followed Announce
    drawn: nat,                     // Delay_Req ids drawn
    sent: seq<nat>,                 // of those drawn, the ones sent, in order
    lastT3: Time,                   // transmit timestamp of the last Delay_Req sent
    corrections: nat,
    requestInEpoch: bool,           // a Delay_Req was sent since the last entry to Slave
    sinceRequest: nat,              // timer events since the last Delay_Req
    correctionsInEpoch: nat,        // corrections since the last entry to Slave
    interrupts: nat,                // 10 ms timer interrupts since the clock was set or created
    offsets: int)                   // total of all corrections since then, in nanoseconds

  const NO_HISTORY := History(0, 0, 0, 0, NO_FLAGS, 0, 0, [], ZERO, 0, false, 0, 0, 0, 0)

  function SentT3(out: seq<Output>, before: Time): Time {
    if |out| > 0 && out[0].DelayReqSent? then out[0].t3 else before
  }

  function OffsetOf(out: seq<Output>): int {
    if |out| > 0 && out[0].Corrected? then Nanos(out[0].offset) else 0
  }

  predicate SetsClock(e: Event) {
    e.ThreadStart? && e.setting.SetClock?
  }

  function Observed(h: History, c: Client, e: Event): History
    requires ValidConfig(c.cfg)
  {
    var n := Step(c, e);
    var ticks := if e.Tick? then 1 else 0;
    var requested := Count(n.out, Request) > 0;
    var drawn := h.drawn + if n.client.delayReqId != c.delayReqId then 1 else 0;
    var corrected := Count(n.out, Correction);
    History(
      h.starts + if e.ThreadStart? then 1 else 0,
      h.accepted + if Follows(c, e) then 1 else 0,
      if e.ThreadStart? || Follows(c, e) then 0 else h.silence + ticks,
      h.timeouts + Count(n.out, Timeout),
      if Follows(c, e) then FollowedAnnounce(c, e).0 else h.lastFlags,
      if Follows(c, e) then FollowedAnnounce(c, e).1 else h.lastUtc,
      drawn,
      if requested then h.sent + [drawn] else h.sent,
      SentT3(n.out, h.lastT3),
      h.corrections + corrected,
      if EntersSlave(c, n.client) then false else h.requestInEpoch || requested,
      if requested then 0 else h.sinceRequest + ticks,
      if EntersSlave(c, n.client) then 0 else h.correctionsInEpoch + corrected,
      if SetsClock(e) then 0 else h.interrupts + if e.TimerInterrupt? then 1 else 0,
      if SetsClock(e) then 0 else h.offsets + OffsetOf(n.out))
  }

  datatype Run = Run(client: Client, history: History)

  /** All outputs of such a run, in order. */
  function Outputs(cfg: Config, clock: Time, events: seq<Event>): seq<Output>
    requires ValidConfig(cfg)
  {
    if events == [] then Started(Created(cfg, clock)).out
    else
      var before := events[..|events| - 1];
      Outputs(cfg, clock, before) + Step(After(cfg, clock, before).client, events[|events| - 1]).out
  }

  /** The thread starts on a created client, and then the events happen in order. */
  function After(cfg: Config, clock: Time, events: seq<Event>): (r: Run)
    requires ValidConfig(cfg)
    ensures r.client.cfg == cfg
  {
    if events == [] then
      var c := Created(cfg, clock);
      Run(Started(c).client, Observed(NO_HISTORY, c, ThreadStart(KeepClock)))
    else
      var r := After(cfg, clock, events[..|events| - 1]);
      var e := events[|events| - 1];
      Run(Step(r.client, e).client, Observed(r.history, r.client, e))
  }
}
