/** What the sync flags and the SYNC events say, over every run. */
module Calibration {
  import opened Words
  import opened PtpTime
  import opened Wire
  import opened Client
  import opened ClientRuns

  predicate FlagsKept(c: Client, n: Next) {
    && n.client.flags == c.flags && n.client.utcOffset == c.utcOffset && n.client.phase == c.phase
    && |n.out| <= 2 && (forall o :: o in n.out ==> !o.SyncEvent? && !o.Corrected?)
  }

  lemma SyncFlagsKept(c: Client, hdr: Header, body: seq<Byte>, net: Net)
    requires ValidConfig(c.cfg) && |body| >= 10
    ensures FlagsKept(c, SyncTaken(c, hdr, body, net))
    ensures FlagsKept(c, SyncTaken(c.(syncTs := c.clock), hdr, body, net))
  {
    hide CorrectedSync, DelayReqBytes;
  }

  /** The flags are the three low bits of the Announce's flag field, as IEEE 1588-2008 section
      13.3.2.6 numbers them. */
  lemma FlagsAreAnnouncedBits(hdr: Header)
    ensures var f := AnnouncedFlags(hdr);
            hdr.flags % 8 == (if f.utcReasonable then 4 else 0) + (if f.leap59 then 2 else 0)
                             + (if f.leap61 then 1 else 0)
  {
    assert Bit(hdr.flags, 0) == (hdr.flags % 2 == 1);
    assert Bit(hdr.flags, 1) == (hdr.flags / 2 % 2 == 1);
    assert Bit(hdr.flags, 2) == (hdr.flags / 4 % 2 == 1);
    hide Bit;
    ThreeBits(hdr.flags);
  }

  lemma ThreeBits(n: nat)
    ensures n % 8 == n / 4 % 2 * 4 + n / 2 % 2 * 2 + n % 2
  {
    var q: int := n / 8;
    assert n / 2 == 4 * q + n % 8 / 2;
    assert n / 4 == 2 * q + n % 8 / 4;
  }

  /** A packet leaves the flags alone, promotes, is followed, or is a Delay_Resp. */
  lemma PacketFlags(c: Client, e: Event)
    requires ValidConfig(c.cfg) && e.Receive? && !Follows(c, e)
    ensures var n := Step(c, e);
            || FlagsKept(c, n) || Promotes(c, n)
            || (AnswersRequest(c, e) && n == DelayRespTaken(c, ParseHeader(e.packet, c.cfg.domain).body))
  {
    hide PacketTaken, ParseHeader, SyncTaken, DelayRespTaken, Follows;
    PacketCases(c, e);
    var p := ParseHeader(e.packet, c.cfg.domain);
    if p.Accepted? && |p.body| >= 10 {
      SyncFlagsKept(c, p.hdr, p.body, e.net);
    }
  }

  /** The flags and UTC offset are those last announced, and the calibrated flag of a slave
      says whether it was corrected since it became one. */
  predicate FlagsTrue(c: Client, h: History) {
    && c.flags.(calibrated := false) == h.lastFlags && c.utcOffset == h.lastUtc
    && (c.phase == Slave ==> (c.flags.calibrated <==> h.correctionsInEpoch > 0))
    && (c.cfg.role == SlaveOnly ==> c.phase != Master)
  }

  predicate FlagsBooked(h: History, c: Client, e: Event, n: Next, h': History)
    requires ValidConfig(c.cfg)
  {
    && h'.lastFlags == (if Follows(c, e) then FollowedAnnounce(c, e).0 else h.lastFlags)
    && h'.lastUtc == (if Follows(c, e) then FollowedAnnounce(c, e).1 else h.lastUtc)
    && h'.correctionsInEpoch == (if EntersSlave(c, n.client) then 0
                                 else h.correctionsInEpoch + Count(n.out, Correction))
  }

  lemma FlagsBookkeeping(h: History, c: Client, e: Event)
    requires ValidConfig(c.cfg)
    ensures FlagsBooked(h, c, e, Step(c, e), Observed(h, c, e))
  {
    hide Step, Follows, Count;
  }

  lemma FlagsTrueAfterPacket(c: Client, h: History, e: Event)
    requires ValidConfig(c.cfg) && FlagsTrue(c, h) && e.Receive?
    ensures FlagsTrue(Step(c, e).client, Observed(h, c, e))
  {
    hide PacketTaken, Observed, Count, ParseHeader, ParseAnnounce, Offset, ParseTimestamp, Bit;
    FewOutputs(c, e);
    FlagsBookkeeping(h, c, e);
    if Follows(c, e) {
      PacketCases(c, e);
    } else {
      PacketFlags(c, e);
    }
  }

  lemma FlagsTrueStep(c: Client, h: History, e: Event)
    requires ValidConfig(c.cfg) && FlagsTrue(c, h)
    ensures FlagsTrue(Step(c, e).client, Observed(h, c, e))
  {
    hide Count, Ticking, Observed, PacketTaken;
    FlagsBookkeeping(h, c, e);
    if e.Receive? {
      FlagsTrueAfterPacket(c, h, e);
    } else if e.Tick? {
      TickOutputs(c, e.announce, e.sync);
      TickEffect(c, e.announce, e.sync);
    } else {
      FewOutputs(c, e);
    }
  }

  lemma {:induction false} FlagsAlwaysTrue(cfg: Config, clock: Time, events: seq<Event>)
    requires ValidConfig(cfg)
    ensures var r := After(cfg, clock, events); FlagsTrue(r.client, r.history)
  {
    if events == [] {
      FewOutputs(Created(cfg, clock), ThreadStart(KeepClock));
    } else {
      FlagsAlwaysTrue(cfg, clock, events[..|events| - 1]);
      var r := After(cfg, clock, events[..|events| - 1]);
      FlagsTrueStep(r.client, r.history, events[|events| - 1]);
    }
  }

  /** Over every run, whatever comes next: a SYNC event is reported at most once and only of a
      calibrated client; a correction reports one exactly when the client was not yet calibrated,
      so of a slave exactly for the first correction since it became one; and a followed Announce
      reports one exactly when a calibrated slave hears other flags or another UTC offset than
      were last announced. */
  lemma SyncEvents(cfg: Config, clock: Time, events: seq<Event>, e: Event)
    requires ValidConfig(cfg)
    ensures var r := After(cfg, clock, events);
            var c, h, n := r.client, r.history, Step(r.client, e);
            && Count(n.out, SyncReport) <= 1
            && (Count(n.out, SyncReport) > 0 ==> n.client.flags.calibrated)
            && (forall o :: o in n.out && o.SyncEvent? ==>
                  && o.utcOffset == n.client.utcOffset
                  && o.flags == n.client.flags.(calibrated := Count(n.out, Correction) > 0))
            && (Count(n.out, Correction) > 0 ==>
                  Count(n.out, SyncReport) == if c.flags.calibrated then 0 else 1)
            && (Count(n.out, Correction) > 0 && c.phase == Slave ==>
                  (Count(n.out, SyncReport) == 1 <==> h.correctionsInEpoch == 0))
            && (Count(n.out, Correction) == 0 ==>
                  (Count(n.out, SyncReport) == 1 <==>
                     && Follows(c, e) && c.phase == Slave && h.correctionsInEpoch > 0
                     && FollowedAnnounce(c, e) != (h.lastFlags, h.lastUtc)))
  {
    FlagsAlwaysTrue(cfg, clock, events);
    var r := After(cfg, clock, events);
    SyncEventsOf(r.client, r.history, e);
  }

  lemma SyncEventsOf(c: Client, h: History, e: Event)
    requires ValidConfig(c.cfg) && FlagsTrue(c, h)
    ensures var n := Step(c, e);
            && Count(n.out, SyncReport) <= 1
            && (Count(n.out, SyncReport) > 0 ==> n.client.flags.calibrated)
            && (forall o :: o in n.out && o.SyncEvent? ==>
                  && o.utcOffset == n.client.utcOffset
                  && o.flags == n.client.flags.(calibrated := Count(n.out, Correction) > 0))
            && (Count(n.out, Correction) > 0 ==>
                  Count(n.out, SyncReport) == if c.flags.calibrated then 0 else 1)
            && (Count(n.out, Correction) == 0 ==>
                  (Count(n.out, SyncReport) == 1 <==>
                     && Follows(c, e) && c.phase == Slave && h.correctionsInEpoch > 0
                     && FollowedAnnounce(c, e) != (h.lastFlags, h.lastUtc)))
  {
    hide PacketTaken, Count, ParseHeader, ParseAnnounce, Offset, ParseTimestamp, Bit, Ticking, AnswersRequest;
    if e.Tick? {
      TickOutputs(c, e.announce, e.sync);
      CountNone(Step(c, e).out, SyncReport);
    } else {
      FewOutputs(c, e);
      if e.Receive? {
        if Follows(c, e) {
          PacketCases(c, e);
        } else {
          PacketFlags(c, e);
        }
      }
    }
  }
}
