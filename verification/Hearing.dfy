/** Which packets do what to a client, from their bytes. */
module Hearing {
  import opened Words
  import opened PtpTime
  import opened ClockOrder
  import opened Wire
  import opened Client
  import opened ClientRuns
  import opened Layout
  import opened Freshness

  /** The packet is usable, of the client's domain and, if the client is a slave, its master's. */
  predicate ForUs(c: Client, e: Event) {
    && e.Receive? && e.usable && WellFormed(e.packet, c.cfg.domain)
    && (c.phase == Slave ==> e.packet[20..30] == c.masterId)
  }

  function PayloadLength(packet: seq<Byte>): int
    requires |packet| >= 34
  {
    (if Number(packet[2..4]) < |packet| then Number(packet[2..4]) else |packet|) - 34
  }

  /** A packet of the type with a payload of at least so many bytes. */
  predicate OfType(packet: seq<Byte>, messageType: int, length: nat) {
    |packet| >= 34 && packet[0] % 16 == messageType && PayloadLength(packet) >= length
  }

  /** The clock an Announce tells of. */
  function ClockOfBytes(packet: seq<Byte>): ClockInfo
    requires |packet| >= 64
  {
    ClockInfo(packet[47], packet[48], packet[49], (packet[50] as int) * 256 + packet[51], packet[52], packet[53..61],
              (packet[61] as int) * 256 + packet[62], packet[63])
  }

  predicate Announces(c: Client, e: Event) {
    ForUs(c, e) && OfType(e.packet, 11, 30)
  }

  lemma HeardFromBytes(c: Client, e: Event)
    requires e.Receive?
    ensures var p := ParseHeader(e.packet, c.cfg.domain);
            && (e.usable && p.Accepted? && Heard(c, p.hdr) <==> ForUs(c, e))
            && (p.Accepted? ==>
                  && |e.packet| >= 34 && |p.body| == PayloadLength(e.packet)
                  && p.hdr.messageType == e.packet[0] % 16 && p.hdr.sequenceId == Number(e.packet[30..32])
                  && p.body == e.packet[34..34 + |p.body|])
  {
    HeaderFields(e.packet, c.cfg.domain);
    if WellFormed(e.packet, c.cfg.domain) {
      PayloadFollows(e.packet, c.cfg.domain);
    }
    hide ParseHeader, Number, CorrectionField, Signed;
  }

  lemma AnnouncedClock(c: Client, e: Event)
    requires ValidConfig(c.cfg) && Announces(c, e)
    ensures |e.packet| >= 64 && ParseHeader(e.packet, c.cfg.domain).Accepted?
    ensures var body := ParseHeader(e.packet, c.cfg.domain).body;
            |body| >= ANNOUNCE_LEN && ParseAnnounce(body).clock == ClockOfBytes(e.packet)
            && ParseAnnounce(body).utcOffset == Signed(Number(e.packet[44..46]), 0x1_0000)
  {
    HeardFromBytes(c, e);
    hide ForUs, ParseHeader, ParseAnnounce, PayloadLength, WellFormed;
    AnnounceFields(e.packet, c.cfg.domain);
    Number2(e.packet, 50);
    Number2(e.packet, 61);
  }

  // ----- the cases -----

  lemma FollowsWhen(c: Client, e: Event)
    requires ValidConfig(c.cfg)
    ensures Follows(c, e) <==>
              && Announces(c, e) && |e.packet| >= 64
              && (match c.cfg.role
                  case MasterOnly => false
                  case SlaveOnly => true
                  case SlaveAndMaster =>
                    e.packet[53..61] != c.cfg.clock.identity && Better(ClockOfBytes(e.packet), c.cfg.clock))
  {
    if e.Receive? {
      HeardFromBytes(c, e);
      hide ParseHeader, ParseAnnounce, Rank, PayloadLength, WellFormed, Heard, Number;
      if Announces(c, e) {
        AnnouncedClock(c, e);
      }
    }
  }

  lemma AnswersWhen(c: Client, e: Event)
    requires ValidConfig(c.cfg)
    ensures AnswersRequest(c, e) <==>
              && ForUs(c, e) && OfType(e.packet, 9, 20) && |e.packet| >= 54
              && c.delayPhase == WaitResp
              && Number(e.packet[30..32]) == c.delayReqId && e.packet[44..54] == c.cfg.portId
  {
    if e.Receive? {
      HeardFromBytes(c, e);
      hide ParseHeader, PayloadLength, WellFormed, Heard, Number, ForUs;
      var p := ParseHeader(e.packet, c.cfg.domain);
      if p.Accepted? && |p.body| >= 20 {
        PayloadSlice(e.packet, 34 + |p.body|, 10, 20);
      }
    }
  }

  /** A two-step Sync of our master's. */
  lemma BeginsWhen(c: Client, e: Event)
    requires ValidConfig(c.cfg)
    ensures BeginsTwoStep(c, e) <==>
              && ForUs(c, e) && c.phase == Slave
              && OfType(e.packet, 0, 10) && e.packet[6] / 2 % 2 == 1
  {
    if e.Receive? {
      HeardFromBytes(c, e);
      if WellFormed(e.packet, c.cfg.domain) {
        FlagBits(e.packet, c.cfg.domain);
      }
      hide ParseHeader, PayloadLength, Heard, Number, Bit;
    }
  }

  /** A one-step Sync of our master's, or its Follow_Up with the id remembered. */
  lemma CarriesWhen(c: Client, e: Event)
    requires ValidConfig(c.cfg)
    ensures CarriesSync(c, e) <==>
              && ForUs(c, e) && c.phase == Slave
              && ((OfType(e.packet, 0, 10) && e.packet[6] / 2 % 2 == 0)
                  || (OfType(e.packet, 8, 10) && Number(e.packet[30..32]) == c.syncId))
  {
    if e.Receive? {
      HeardFromBytes(c, e);
      if WellFormed(e.packet, c.cfg.domain) {
        FlagBits(e.packet, c.cfg.domain);
      }
      hide ParseHeader, PayloadLength, Heard, Number, Bit;
    }
  }

  /** An Announce of a clock worse than one's own makes a node that is not one master, and nothing
      else that it receives does. */
  lemma PromotesWhen(c: Client, e: Event)
    requires ValidConfig(c.cfg) && e.Receive?
    ensures Promotes(c, Step(c, e)) <==>
              && Announces(c, e) && |e.packet| >= 64
              && c.cfg.role == SlaveAndMaster && c.phase != Master
              && e.packet[53..61] != c.cfg.clock.identity && Better(c.cfg.clock, ClockOfBytes(e.packet))
  {
    hide Step, Announces, Better;
    if Announces(c, e) {
      AnnouncePromotes(c, e);
    } else {
      OthersPromoteNone(c, e);
    }
  }

  lemma AnnouncePromotes(c: Client, e: Event)
    requires ValidConfig(c.cfg) && Announces(c, e)
    ensures |e.packet| >= 64
    ensures Promotes(c, Step(c, e)) <==>
              && c.cfg.role == SlaveAndMaster && c.phase != Master
              && e.packet[53..61] != c.cfg.clock.identity && Better(c.cfg.clock, ClockOfBytes(e.packet))
  {
    AnnouncedClock(c, e);
    TakenAnnounce(c, e);
    CompareIsRankOrder(c.cfg.clock, ClockOfBytes(e.packet));
    hide Step, ParseHeader, ParseAnnounce, Better, ClockCompare, Announces, AnnouncedFlags;
  }

  lemma OthersPromoteNone(c: Client, e: Event)
    requires ValidConfig(c.cfg) && e.Receive? && !Announces(c, e)
    ensures !Promotes(c, Step(c, e))
  {
    HeardFromBytes(c, e);
    hide ParseHeader, ForUs, PayloadLength, Number, Heard, SyncTaken, AnnounceTaken, ParseTimestamp, Offset, Bit;
    var p := ParseHeader(e.packet, c.cfg.domain);
    if p.Accepted? && |p.body| >= 10 {
      SyncSide(c, p.hdr, p.body, e.net);
    }
  }

  lemma TakenAnnounce(c: Client, e: Event)
    requires ValidConfig(c.cfg) && Announces(c, e)
    ensures var p := ParseHeader(e.packet, c.cfg.domain);
            p.Accepted? && |p.body| >= ANNOUNCE_LEN && Step(c, e) == AnnounceTaken(c, p.hdr, p.body)
  {
    HeardFromBytes(c, e);
    hide ParseHeader, PayloadLength, WellFormed, Heard, Number, AnnounceTaken, ForUs;
  }

  // ----- what is not heard -----

  /** A packet that is not for the client changes nothing and causes nothing: it is not usable, or
      short, or of another version or domain, or comes to a slave from a port that is not its
      master's. */
  lemma OthersAreIgnored(c: Client, e: Event)
    requires ValidConfig(c.cfg) && e.Receive? && !ForUs(c, e)
    ensures Step(c, e) == Next(c, [])
  {
    HeardFromBytes(c, e);
    hide ParseHeader, ForUs, PayloadLength, Number, Heard, EventPacketTaken, GeneralPacketTaken;
  }

  /** Over every run, a packet that changes anything of a slave, or makes it put anything out, bears
      the port identity of its master, which is that of the Announce it followed last. */
  lemma SlaveHearsOnlyItsMaster(cfg: Config, clock: Time, events: seq<Event>, e: Event)
    requires ValidConfig(cfg) && e.Receive?
    ensures var c, last := After(cfg, clock, events).client, LastFollowed(cfg, clock, events);
            c.phase == Slave && Step(c, e) != Next(c, []) ==>
              && e.usable && WellFormed(e.packet, cfg.domain)
              && last.Last? && e.packet[20..30] == last.source == c.masterId
  {
    AlwaysFollowsLast(cfg, clock, events);
    hide Step, After, LastFollowed;
    var c := After(cfg, clock, events).client;
    if !ForUs(c, e) {
      OthersAreIgnored(c, e);
    }
  }

  // ----- what the application hears of masters -----

  /** A master is reported exactly when there is a new one: the announced clock when the client
      becomes its slave, and its own when it becomes, or is confirmed as, master itself. */
  predicate ReportsMaster(out: seq<Output>, clock: ClockInfo) {
    && (exists o :: o in out && o.MasterEvent?)
    && (forall o :: o in out && o.MasterEvent? ==> o.master == clock)
  }

  predicate ReportsNone(out: seq<Output>) {
    forall o :: o in out ==> !o.MasterEvent?
  }

  lemma PacketReportsMaster(c: Client, e: Event)
    requires ValidConfig(c.cfg) && e.Receive?
    ensures var n := Step(c, e);
            && (EntersSlave(c, n.client) ==> |e.packet| >= 64 && n.out == [MasterEvent(ClockOfBytes(e.packet))])
            && (Promotes(c, n) ==> ReportsMaster(n.out, c.cfg.clock))
            && (!EntersSlave(c, n.client) && !Promotes(c, n) ==> ReportsNone(n.out))
  {
    hide PacketTaken, ParseHeader, ParseAnnounce, ParseTimestamp, Bit, CorrectedSync, Offset, Follows, AnswersRequest,
         SyncTaken, DelayReqBytes, ClockOfBytes, Announces;
    PacketCases(c, e);
    PacketCasesExclude(c, e);
    FollowsWhen(c, e);
    var p := ParseHeader(e.packet, c.cfg.domain);
    if Promotes(c, Step(c, e)) {
      PromotionReports(c, Step(c, e));
    } else if Follows(c, e) {
      AnnouncedClock(c, e);
    } else if CarriesSync(c, e) {
      SyncReportsNone(if p.hdr.messageType == TYPE_SYNC then c.(syncTs := c.clock) else c, p.hdr, p.body, e.net);
    }
  }

  lemma PromotionReports(c: Client, n: Next)
    requires Promotes(c, n)
    ensures ReportsMaster(n.out, c.cfg.clock)
  {
    assert n.out[0].MasterEvent?;
  }

  lemma SyncReportsNone(c: Client, hdr: Header, body: seq<Byte>, net: Net)
    requires ValidConfig(c.cfg) && |body| >= 10
    ensures ReportsNone(SyncTaken(c, hdr, body, net).out) && SyncTaken(c, hdr, body, net).client.phase == c.phase
  {
    hide CorrectedSync, DelayReqBytes;
  }

  lemma OtherEventsReportMaster(c: Client, e: Event)
    requires ValidConfig(c.cfg) && !e.Receive?
    ensures var out := Step(c, e).out;
            if (e.Tick? && c.announceTimeout == 1 && c.cfg.role != SlaveOnly)
               || (e.ThreadStart? && c.cfg.role == MasterOnly)
            then ReportsMaster(out, c.cfg.clock) else ReportsNone(out)
  {
    hide AnnounceBytes;
    if e.Tick? {
      var a := AnnounceTick(c, e.announce);
      var s := SyncTick(a.client, e.sync);
      var t := TimeoutTick(s.client);
      assert ReportsNone(a.out) && ReportsNone(s.out);
      assert a.client.announceTimeout == s.client.announceTimeout == c.announceTimeout;
      assert Step(c, e).out == a.out + s.out + t.out;
      if t.out != [] {
        assert t.out[0] in Step(c, e).out;
      }
    } else if e.ThreadStart? && c.cfg.role == MasterOnly {
      assert Step(c, e).out[0].MasterEvent?;
    }
  }
}
