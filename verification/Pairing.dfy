/** Which Sync each of t1 and t2 is of, over every run, and what a correction makes of them when
    they are of two. A Follow_Up is of the Sync whose sequence id it repeats. */
module Pairing {
  import opened Words
  import opened PtpTime
  import opened Wire
  import opened Client
  import opened ClientRuns
  import opened OffsetTheorem

  /** A Sync the client took: its sequence id, and our clock as it came. */
  datatype Sighting = Sighting(id: UShort, at: Time)

  /** The last packet about a Sync since the client became a slave. */
  datatype Latest = Nothing | OneStep | TwoStep | FollowUp

  /** What an observer of the packets knows. Syncs are numbered from 1. */
  datatype Seen = Seen(
    syncs: seq<Sighting>,   // those taken, in order
    remembered: nat,        // the Sync whose sequence id the client remembers, 0 if none
    t1: nat,                // the Sync that t1 is of, 0 if none known
    t2: nat,                // the Sync that t2 is of, 0 if none since the client became a slave
    stamp: Time,            // the timestamp last taken for t1
    latest: Latest,
    before: nat)            // Syncs taken before the client last became a slave

  const UNSEEN := Seen([], 0, 0, 0, ZERO, Nothing, 0)

  function Watch(w: Seen, c: Client, e: Event): Seen
    requires ValidConfig(c.cfg)
  {
    if EntersSlave(c, Step(c, e).client) then
      w.(t1 := 0, t2 := 0, stamp := ZERO, latest := Nothing, before := |w.syncs|)
    else if BeginsTwoStep(c, e) then
      var hdr := ParseHeader(e.packet, c.cfg.domain).hdr;
      var n := |w.syncs| + 1;
      w.(syncs := w.syncs + [Sighting(hdr.sequenceId, c.clock)], t2 := n, remembered := n, latest := TwoStep)
    else if CarriesSync(c, e) then
      var p := ParseHeader(e.packet, c.cfg.domain);
      var stamp := CorrectedSync(p.hdr, p.body);
      if p.hdr.messageType == TYPE_SYNC then
        var n := |w.syncs| + 1;
        w.(syncs := w.syncs + [Sighting(p.hdr.sequenceId, c.clock)], t1 := n, t2 := n, stamp := stamp,
           latest := OneStep)
      else
        w.(t1 := w.remembered, stamp := stamp, latest := FollowUp)
    else w
  }

  function Watched(cfg: Config, clock: Time, events: seq<Event>): Seen
    requires ValidConfig(cfg)
  {
    if events == [] then UNSEEN
    else
      var before := events[..|events| - 1];
      Watch(Watched(cfg, clock, before), After(cfg, clock, before).client, events[|events| - 1])
  }

  // ----- the observer is right -----

  /** The client's times and remembered id are those of the Syncs the observer says. */
  predicate Tracks(c: Client, w: Seen) {
    && w.t2 <= |w.syncs| && w.remembered <= |w.syncs| && w.before <= |w.syncs|
    && c.sync == w.stamp
    && c.syncTs == (if w.t2 == 0 then ZERO else w.syncs[w.t2 - 1].at)
    && c.syncId == (if w.remembered == 0 then 0 else w.syncs[w.remembered - 1].id)
  }

  /** The client remembers two-step Syncs only, and t2 is always the latest Sync's. */
  predicate Numbered(w: Seen) {
    && w.t2 == (if |w.syncs| > w.before then |w.syncs| else 0)
    && match w.latest
       case Nothing => w.t1 == 0 && |w.syncs| == w.before
       case OneStep => w.t1 == |w.syncs| > w.before
       case TwoStep => w.t1 < |w.syncs| == w.remembered && |w.syncs| > w.before
       case FollowUp => w.t1 == w.remembered
  }

  lemma SyncRecords(c: Client, hdr: Header, body: seq<Byte>, net: Net)
    requires ValidConfig(c.cfg) && |body| >= 10
    ensures var c' := SyncTaken(c, hdr, body, net).client;
            && c'.sync == CorrectedSync(hdr, body) && c'.syncTs == c.syncTs && c'.syncId == c.syncId
            && c'.phase == c.phase
  {
    hide CorrectedSync, DelayReqBytes;
  }

  lemma PacketTracked(c: Client, w: Seen, e: Event)
    requires ValidConfig(c.cfg) && e.Receive? && Tracks(c, w) && Numbered(w)
    ensures Tracks(Step(c, e).client, Watch(w, c, e)) && Numbered(Watch(w, c, e))
  {
    hide PacketTaken, ParseHeader, ParseAnnounce, ParseTimestamp, CorrectedSync, Offset, Bit, Follows, AnswersRequest,
         SyncTaken;
    PacketCases(c, e);
    var p := ParseHeader(e.packet, c.cfg.domain);
    if CarriesSync(c, e) {
      SyncRecords(if p.hdr.messageType == TYPE_SYNC then c.(syncTs := c.clock) else c, p.hdr, p.body, e.net);
    }
  }

  lemma StepTracked(c: Client, w: Seen, e: Event)
    requires ValidConfig(c.cfg) && Tracks(c, w) && Numbered(w)
    ensures Tracks(Step(c, e).client, Watch(w, c, e)) && Numbered(Watch(w, c, e))
  {
    if e.Receive? {
      PacketTracked(c, w, e);
    } else if e.Tick? {
      hide Ticking;
      TickEffect(c, e.announce, e.sync);
    }
  }

  lemma {:induction false} AlwaysTracked(cfg: Config, clock: Time, events: seq<Event>)
    requires ValidConfig(cfg)
    ensures var w := Watched(cfg, clock, events);
            Tracks(After(cfg, clock, events).client, w) && Numbered(w)
  {
    hide Step, Watch, Observed;
    if events == [] {
      StartedEmpty(cfg, clock);
    } else {
      var before := events[..|events| - 1];
      AlwaysTracked(cfg, clock, before);
      StepTracked(After(cfg, clock, before).client, Watched(cfg, clock, before), events[|events| - 1]);
    }
  }

  lemma StartedEmpty(cfg: Config, clock: Time)
    requires ValidConfig(cfg)
    ensures var c := After(cfg, clock, []).client;
            c.sync == ZERO && c.syncTs == ZERO && c.syncId == 0 && c.phase != Slave
  {
  }

  // ----- when t1 and t2 pair -----

  predicate OfOneSync(w: Seen) {
    w.t1 == w.t2 > 0
  }

  /** The last packet about a Sync was a one-step Sync, or a Follow_Up when the remembered id is
      that of the latest Sync since the client became a slave. */
  predicate LatestCompletes(w: Seen) {
    w.latest == OneStep || (w.latest == FollowUp && w.remembered == |w.syncs| > w.before)
  }

  /** Over every run: t2 is our clock at the arrival of the Sync that the observer says it is of, t1
      the timestamp last taken, and the id a Follow_Up must repeat that of the remembered Sync; and
      t1 and t2 are of one Sync exactly when the last packet about a Sync completed the latest. */
  lemma TimestampsPair(cfg: Config, clock: Time, events: seq<Event>)
    requires ValidConfig(cfg)
    ensures var c, w := After(cfg, clock, events).client, Watched(cfg, clock, events);
            && Tracks(c, w)
            && (OfOneSync(w) <==> LatestCompletes(w))
  {
    AlwaysTracked(cfg, clock, events);
  }

  // ----- what a correction makes of them -----

  /** The times at which the Syncs were sent (index 0 for a t1 that is of none known); t1 is that of
      its Sync. */
  predicate SentAt(w: Seen, sent: seq<int>) {
    && |sent| == |w.syncs| + 1 && w.t1 < |sent|
    && 0 < w.t2 <= |w.syncs|
    && Nanos(w.stamp) == sent[w.t1]
  }

  predicate AllApart(sent: seq<int>) {
    forall i, j :: 0 <= i < j < |sent| ==> sent[i] != sent[j]
  }

  /** The time from the Sync that t1 is of to that which t2 is of. */
  function Gap(w: Seen, sent: seq<int>): int
    requires SentAt(w, sent)
  {
    sent[w.t2] - sent[w.t1]
  }

  /** There is no gap when the last packet about a Sync completed the latest; and, if the Syncs were
      sent at different times, only then. */
  lemma GapCloses(w: Seen, sent: seq<int>)
    requires Numbered(w) && SentAt(w, sent)
    ensures LatestCompletes(w) ==> Gap(w, sent) == 0
    ensures AllApart(sent) ==> (Gap(w, sent) == 0 <==> LatestCompletes(w))
  {
    assert OfOneSync(w) <==> LatestCompletes(w);
    if AllApart(sent) && w.t1 < w.t2 {
      assert sent[w.t1] != sent[w.t2];
    }
  }

  /** Over every run, whatever answers the pending Delay_Req next, for a slave ahead by theta2 when
      the Sync of t2 arrived, having taken d1, by theta3 when it sent its Delay_Req, which took d2,
      and by theta now: the error left is half of the difference of the delays, less the gap, plus
      what the clock has moved since the one and since the other. */
  lemma PairingDecidesError(cfg: Config, clock: Time, events: seq<Event>, e: Event, sent: seq<int>,
                            theta2: int, theta3: int, theta: int, d1: int, d2: int)
    requires ValidConfig(cfg)
    requires var c := After(cfg, clock, events).client;
             AnswersRequest(c, e) && c.sync.sec != 0 &&
             var t4 := ParseTimestamp(ParseHeader(e.packet, cfg.domain).body);
             ModerateTimes(c, t4) && Nanos(t4) == Nanos(c.delayTs) - theta3 + d2
    requires var w := Watched(cfg, clock, events);
             SentAt(w, sent) && Nanos(w.syncs[w.t2 - 1].at) == sent[w.t2] + d1 + theta2
    ensures var c, w := After(cfg, clock, events).client, Watched(cfg, clock, events);
            var left := Nanos(Step(c, e).client.clock) - (Nanos(c.clock) - theta);
            var extra := (theta - theta2) + (theta - theta3) - Gap(w, sent);
            && -1 <= 2 * left - (d2 - d1 + extra) <= 1
            && (LatestCompletes(w) ==> Gap(w, sent) == 0)
            && (AllApart(sent) ==> (Gap(w, sent) == 0 <==> LatestCompletes(w)))
  {
    AlwaysTracked(cfg, clock, events);
    var c, w := After(cfg, clock, events).client, Watched(cfg, clock, events);
    hide After, Watched, Step, ParseTimestamp, ParseHeader, ModerateTimes, AnswersRequest;
    GapCloses(w, sent);
    CorrectionError(c, e, theta, d1 + Gap(w, sent) + theta2 - theta, d2 + theta - theta3);
  }

  // ----- before the first stay as a slave -----

  predicate NeverSlave(cfg: Config, clock: Time, events: seq<Event>)
    requires ValidConfig(cfg)
  {
    forall k :: 0 <= k <= |events| ==> After(cfg, clock, events[..k]).client.phase != Slave
  }

  lemma {:induction false} NothingSeen(cfg: Config, clock: Time, events: seq<Event>)
    requires ValidConfig(cfg) && NeverSlave(cfg, clock, events)
    ensures Watched(cfg, clock, events) == UNSEEN
  {
    hide Step, BeginsTwoStep, CarriesSync;
    if events != [] {
      var n := |events| - 1;
      var before := events[..n];
      assert forall k :: 0 <= k <= n ==> before[..k] == events[..k];
      NothingSeen(cfg, clock, before);
      assert events[..n + 1] == events;
      SyncsNeedSlave(After(cfg, clock, before).client, events[n]);
    }
  }

  lemma SyncsNeedSlave(c: Client, e: Event)
    requires ValidConfig(c.cfg) && c.phase != Slave
    ensures !BeginsTwoStep(c, e) && !CarriesSync(c, e)
  {
  }

  lemma EnteringClears(c: Client, e: Event)
    requires ValidConfig(c.cfg) && EntersSlave(c, Step(c, e).client)
    ensures var c' := Step(c, e).client;
            c'.sync == ZERO && c'.syncTs == ZERO && c'.syncId == c.syncId && c'.delayFlag && c'.delayPhase == DelayIdle
  {
    hide PacketTaken, ParseHeader, ParseAnnounce, Follows, AnswersRequest, SyncTaken, Bit;
    if e.Receive? {
      PacketCases(c, e);
    } else if e.Tick? {
      hide Ticking;
      TickEffect(c, e.announce, e.sync);
    }
  }

  /** Every run that has not been a slave yet enters the slave state with no Sync known and
      sequence id 0 remembered, ready to send a Delay_Req. */
  lemma FirstSlaveHoldsNoSync(cfg: Config, clock: Time, events: seq<Event>, e: Event)
    requires ValidConfig(cfg) && NeverSlave(cfg, clock, events)
    requires Step(After(cfg, clock, events).client, e).client.phase == Slave
    ensures var c := Step(After(cfg, clock, events).client, e).client;
            c.delayFlag && c.syncTs == ZERO && c.sync == ZERO && c.syncId == 0
  {
    NothingSeen(cfg, clock, events);
    AlwaysTracked(cfg, clock, events);
    assert events[..|events|] == events;
    hide Step, After, Watched;
    EnteringClears(After(cfg, clock, events).client, e);
  }
}
