/** A slave is never without a recent Announce: bounds that hold over every run. */
module Freshness {
  import opened Words
  import opened PtpTime
  import opened ClockOrder
  import opened Wire
  import opened Client
  import opened ClientRuns
  import opened Layout

  // ----- packets other than followed Announces leave what was announced alone -----

  predicate SameAnnounceSide(c: Client, n: Next) {
    && n.client.announceTimeout == c.announceTimeout && n.client.masterId == c.masterId
    && n.client.utcOffset == c.utcOffset && n.client.flags.(calibrated := false) == c.flags.(calibrated := false)
    && n.client.phase == c.phase && n.client.announceTimer == c.announceTimer
    && (c.syncTimer != 0 ==> n.client.syncTimer == c.syncTimer) && n.client.seqId == c.seqId
    && |n.out| <= 2 && (forall o :: o in n.out ==> !o.TimeoutEvent? && !o.AnnounceSent? && !o.SyncSent?)
  }

  lemma SyncSide(c: Client, hdr: Header, body: seq<Byte>, net: Net)
    requires ValidConfig(c.cfg) && |body| >= 10
    ensures SameAnnounceSide(c, SyncTaken(c, hdr, body, net))
    ensures SameAnnounceSide(c, SyncTaken(c.(syncTs := c.clock), hdr, body, net))
  {
    hide CorrectedSync, DelayReqBytes;
  }

  lemma UnfollowedStep(c: Client, e: Event)
    requires ValidConfig(c.cfg) && e.Receive? && !Follows(c, e)
    ensures SameAnnounceSide(c, Step(c, e)) || Promotes(c, Step(c, e))
  {
    hide PacketTaken, ParseHeader, SyncTaken, Offset, ParseTimestamp, Follows;
    PacketCases(c, e);
    var p := ParseHeader(e.packet, c.cfg.domain);
    if p.Accepted? && |p.body| >= 10 {
      SyncSide(c, p.hdr, p.body, e.net);
    }
  }

  // ----- freshness -----

  predicate Fresh(c: Client, h: History) {
    && c.announceTimeout <= 600
    && (c.announceTimeout > 0 ==> c.announceTimeout + h.silence == 600)
    && (c.announceTimeout <= 0 ==> h.silence >= 600 && c.phase == if c.cfg.role == SlaveOnly then Listening else Master)
    && (c.cfg.role == SlaveOnly ==>
          && c.phase != Master
          && h.timeouts + (if c.announceTimeout > 0 then 1 else 0) <= h.starts + h.accepted)
  }

  lemma FreshPacket(c: Client, h: History, e: Event)
    requires ValidConfig(c.cfg) && c.cfg.role != MasterOnly && Fresh(c, h) && e.Receive?
    ensures Fresh(Step(c, e).client, Observed(h, c, e))
  {
    hide Follows, PacketTaken, ParseHeader, ParseAnnounce, Count;
    FewOutputs(c, e);
    if Follows(c, e) {
      PacketCases(c, e);
    } else {
      UnfollowedStep(c, e);
    }
  }

  lemma FreshTick(c: Client, h: History, e: Event)
    requires ValidConfig(c.cfg) && c.cfg.role != MasterOnly && Fresh(c, h) && e.Tick?
    ensures Fresh(Step(c, e).client, Observed(h, c, e))
  {
    hide Count, Ticking;
    TickOutputs(c, e.announce, e.sync);
    TickEffect(c, e.announce, e.sync);
  }

  lemma FreshStep(c: Client, h: History, e: Event)
    requires ValidConfig(c.cfg) && c.cfg.role != MasterOnly && Fresh(c, h)
    ensures Fresh(Step(c, e).client, Observed(h, c, e))
  {
    if e.Receive? {
      FreshPacket(c, h, e);
    } else if e.Tick? {
      FreshTick(c, h, e);
    }
  }

  lemma {:induction false} AlwaysFresh(cfg: Config, clock: Time, events: seq<Event>)
    requires ValidConfig(cfg) && cfg.role != MasterOnly
    ensures var r := After(cfg, clock, events); Fresh(r.client, r.history)
  {
    if events != [] {
      AlwaysFresh(cfg, clock, events[..|events| - 1]);
      var r := After(cfg, clock, events[..|events| - 1]);
      FreshStep(r.client, r.history, events[|events| - 1]);
    }
  }

  // ----- who was followed last, and how long ago -----

  datatype Announcement = NoneYet | Last(source: seq<Byte>, ago: nat)

  function Listen(l: Announcement, c: Client, e: Event): Announcement
    requires ValidConfig(c.cfg)
  {
    if Follows(c, e) then
      FollowsMaster(c, e);
      Last(e.packet[20..30], 0)
    else if e.Tick? && l.Last? then l.(ago := l.ago + 1)
    else l
  }

  /** The last Announce followed in the run: its source bytes, and the timer events since. */
  function LastFollowed(cfg: Config, clock: Time, events: seq<Event>): Announcement
    requires ValidConfig(cfg)
  {
    if events == [] then NoneYet
    else
      var before := events[..|events| - 1];
      Listen(LastFollowed(cfg, clock, before), After(cfg, clock, before).client, events[|events| - 1])
  }

  predicate FollowsLast(c: Client, l: Announcement) {
    c.phase == Slave ==> l.Last? && l.source == c.masterId && 0 < c.announceTimeout == 600 - l.ago
  }

  lemma FollowsLastStep(c: Client, l: Announcement, e: Event)
    requires ValidConfig(c.cfg) && FollowsLast(c, l)
    ensures FollowsLast(Step(c, e).client, Listen(l, c, e))
  {
    if e.Receive? {
      PacketCases(c, e);
      if !Follows(c, e) {
        UnfollowedStep(c, e);
      } else {
        FollowsMaster(c, e);
      }
      hide PacketTaken, ParseHeader, ParseAnnounce, Follows;
    } else if e.Tick? {
      TickEffect(c, e.announce, e.sync);
      hide Ticking;
    }
  }

  lemma FollowsMaster(c: Client, e: Event)
    requires ValidConfig(c.cfg) && Follows(c, e)
    ensures |e.packet| >= 34 && ParseHeader(e.packet, c.cfg.domain).hdr.source == e.packet[20..30]
    ensures c.phase == Slave ==> e.packet[20..30] == c.masterId
  {
    HeaderFields(e.packet, c.cfg.domain);
    hide ParseHeader, ParseAnnounce, Better;
  }

  lemma {:induction false} AlwaysFollowsLast(cfg: Config, clock: Time, events: seq<Event>)
    requires ValidConfig(cfg)
    ensures FollowsLast(After(cfg, clock, events).client, LastFollowed(cfg, clock, events))
  {
    hide Step, Observed, Listen;
    if events == [] {
      NoSlaveAtStart(cfg, clock);
    } else {
      var before := events[..|events| - 1];
      AlwaysFollowsLast(cfg, clock, before);
      FollowsLastStep(After(cfg, clock, before).client, LastFollowed(cfg, clock, before), events[|events| - 1]);
    }
  }

  lemma NoSlaveAtStart(cfg: Config, clock: Time)
    requires ValidConfig(cfg)
    ensures After(cfg, clock, []).client.phase != Slave
  {
  }

  /** Over every run: the Announce a slave followed last came from its stored master, within its
      last 600 timer events, and its timeout counts down what is left of them; after 600 timer
      events without one since the thread started or since the last, a client listens again (or,
      with a clock of its own, is master); and a slave-only client reports at most one timeout for
      each thread start and each Announce it followed. */
  lemma SlaveIsFresh(cfg: Config, clock: Time, events: seq<Event>)
    requires ValidConfig(cfg) && cfg.role != MasterOnly
    ensures var r, last := After(cfg, clock, events), LastFollowed(cfg, clock, events);
            && (r.client.phase == Slave ==>
                  && last.Last? && last.source == r.client.masterId && last.ago < 600
                  && r.client.announceTimeout == 600 - last.ago)
            && (r.history.silence >= 600 ==>
                  r.client.phase == if cfg.role == SlaveOnly then Listening else Master)
            && (cfg.role == SlaveOnly ==> r.history.timeouts <= r.history.starts + r.history.accepted)
  {
    AlwaysFresh(cfg, clock, events);
    AlwaysFollowsLast(cfg, clock, events);
  }

  /** The master a slave listens to changes only by leaving and entering the slave state. */
  lemma MasterFixedWhileSlave(c: Client, e: Event)
    requires ValidConfig(c.cfg)
    requires c.phase == Slave && Step(c, e).client.phase == Slave
    ensures Step(c, e).client.masterId == c.masterId
  {
    if e.Receive? {
      PacketCases(c, e);
      if !Follows(c, e) {
        UnfollowedStep(c, e);
      }
      hide PacketTaken, ParseHeader, ParseAnnounce, Follows;
    } else if e.Tick? {
      TickEffect(c, e.announce, e.sync);
      hide Ticking;
    }
  }
}
