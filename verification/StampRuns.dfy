/** The windows are exact for whole runs: for every field outside there is a run that breaks the
    clock, and all of whose other timestamps are inside. */
module StampRuns {
  import opened Words
  import opened PtpTime
  import opened SoftClock
  import opened Wire
  import opened Client
  import opened ClientRuns
  import opened StampWindow
  import opened Conservation
  import opened Exchange
  import opened Election

  /** A client so configured has an Announce to follow: it can become a slave at all. */
  predicate CanFollow(cfg: Config, announce: Event) {
    ValidConfig(cfg) && Follows(Created(cfg, ZERO), announce)
  }

  /** A client without a clock of its own can follow any node of its domain that may be master. */
  lemma SlaveOnlyCanFollow(cfg: Config, other: Config, id: UShort, net: Net)
    requires ValidConfig(cfg) && ValidConfig(other) && cfg.role == SlaveOnly && other.domain == cfg.domain
    ensures CanFollow(cfg, Receive(AnnounceOf(other, id), true, net))
  {
    hide Follows, AnnounceOf;
    PrintedAnnounce(Created(cfg, ZERO), other, id, Receive(AnnounceOf(other, id), true, net));
  }

  function Source(cfg: Config, announce: Event): seq<Byte>
    requires CanFollow(cfg, announce)
  {
    ParseHeader(announce.packet, cfg.domain).hdr.source
  }

  /** A one-step Sync of that master's with this timestamp and no correction. */
  function SyncPacket(cfg: Config, source: seq<Byte>, t1: Time): seq<Byte>
    requires |source| == 10
  {
    HeaderBytes(TYPE_SYNC, 44, cfg.domain, 0, source, 0, 0) + TimestampBytes(t1)
  }

  lemma SyncPacketReads(c: Client, t1: Time)
    requires ValidConfig(c.cfg) && |c.masterId| == 10
    requires 0 <= t1.sec < 0x1_0000_0000_0000 && -0x8000_0000 <= t1.ns < 0x8000_0000
    ensures var packet := SyncPacket(c.cfg, c.masterId, t1);
            IsSync(c, packet) && SyncStamp(c, packet) == t1
  {
    hide HeaderBytes, ParseHeader, ParseTimestamp, TimestampBytes;
    TimestampRoundTrip(t1);
    PrintedHeaderRoundTrip(TYPE_SYNC, 44, c.cfg.domain, 0, c.masterId, 0, 0, TimestampBytes(t1));
  }

  /** Follow the Announce, take the Sync and answer it with a Delay_Req; then stop, have the clock
      set, and start again with the Delay_Req still pending. */
  function RunTo(cfg: Config, announce: Event, w: Witness): seq<Event>
    requires CanFollow(cfg, announce) && |Source(cfg, announce)| == 10
  {
    [announce, Receive(SyncPacket(cfg, Source(cfg, announce), w.t1), true, Net(true, 0, true, 0)),
     ThreadStart(SetClock(w.clock))]
  }

  lemma AnnounceFollowed(cfg: Config, clock: Time, announce: Event)
    requires CanFollow(cfg, announce)
    ensures |Source(cfg, announce)| == 10 && !CarriesSync(After(cfg, clock, []).client, announce)
    ensures !AnswersRequest(After(cfg, clock, []).client, announce) && announce.Receive?
    ensures var c := After(cfg, clock, [announce]).client;
            && c.phase == Slave && c.masterId == Source(cfg, announce) && c.delayFlag && c.delayReqId == 0
            && c.clock == clock
  {
    var c := After(cfg, clock, []).client;
    assert [announce][..0] == [];
    assert After(cfg, clock, [announce]).client == Step(c, announce).client;
    hide PacketTaken, ParseHeader, ParseAnnounce, Bit, Observed;
    SourceLength(cfg, announce);
    PacketCases(c, announce);
  }

  lemma SourceLength(cfg: Config, announce: Event)
    requires CanFollow(cfg, announce)
    ensures |Source(cfg, announce)| == 10
  {
  }

  lemma Prefixes(a: Event, b: Event, c: Event)
    ensures [a, b, c][..2] == [a, b] && [a, b][..1] == [a] && [a, b, c][..1] == [a]
    ensures [a][..0] == [] && [a, b, c][..0] == []
  {
  }

  lemma WitnessIsReached(cfg: Config, announce: Event, w: Witness)
    requires CanFollow(cfg, announce) && IsBroken(w) && -0x8000_0000 <= w.t1.ns < 0x8000_0000
    ensures |Source(cfg, announce)| == 10
    ensures var c := After(cfg, w.t23, RunTo(cfg, announce, w)).client;
            && c.phase != Slave && c.delayPhase == WaitResp
            && c.sync == w.t1 && c.syncTs == w.t23 && c.delayTs == w.t23 && c.clock == w.clock
  {
    AnnounceFollowed(cfg, w.t23, announce);
    var events := RunTo(cfg, announce, w);
    Prefixes(events[0], events[1], events[2]);
    var c1 := After(cfg, w.t23, [announce]).client;
    SyncPacketReads(c1, w.t1);
    SyncRequestsNow(c1, SyncPacket(cfg, c1.masterId, w.t1), Net(true, 0, true, 0));
    var c2 := After(cfg, w.t23, events[..2]).client;
    assert c2 == Step(c1, events[1]).client;
    hide SyncPacket, PacketTaken, SyncStamp, IsSync;
    RestartSets(c2, w.clock);
    assert After(cfg, w.t23, events).client == Step(c2, events[2]).client;
  }

  lemma RestartSets(c: Client, clock: Time)
    requires ValidConfig(c.cfg)
    ensures var c' := Step(c, ThreadStart(SetClock(clock))).client;
            c' == c.(clock := clock, phase := c'.phase, announceTimer := c'.announceTimer, syncTimer := c'.syncTimer,
                     delayTimer := c'.delayTimer, announceTimeout := c'.announceTimeout)
            && c'.phase != Slave
  {
  }

  // ----- all other stamps of that run are good -----

  function At(cfg: Config, clock: Time, events: seq<Event>, k: nat): Client
    requires ValidConfig(cfg) && k <= |events|
  {
    After(cfg, clock, events[..k]).client
  }

  predicate GoodAt(cfg: Config, clock: Time, events: seq<Event>, k: nat)
    requires ValidConfig(cfg) && k < |events|
  {
    After(cfg, clock, events[..k]).client.cfg == cfg && GoodStamp(After(cfg, clock, events[..k]).client, events[k])
  }

  /** The k-th event brings a Sync or Follow_Up that leaves t1 with this nanosecond field. */
  predicate StampsSync(cfg: Config, clock: Time, events: seq<Event>, k: nat, ns: int)
    requires ValidConfig(cfg) && k < |events|
  {
    CarriesSync(At(cfg, clock, events, k), events[k]) &&
    var p := ParseHeader(events[k].packet, cfg.domain);
    CorrectedSync(p.hdr, p.body).ns == ns
  }

  lemma OnlySyncStrays(cfg: Config, announce: Event, w: Witness)
    requires CanFollow(cfg, announce) && IsBroken(w) && -0x8000_0000 <= w.t1.ns < 0x8000_0000
    ensures |Source(cfg, announce)| == 10
    ensures var events := RunTo(cfg, announce, w);
            && GoodAt(cfg, w.t23, events, 0) && GoodAt(cfg, w.t23, events, 2)
            && StampsSync(cfg, w.t23, events, 1, w.t1.ns)
  {
    AnnounceFollowed(cfg, w.t23, announce);
    var events := RunTo(cfg, announce, w);
    Prefixes(events[0], events[1], events[2]);
    var c1 := After(cfg, w.t23, [announce]).client;
    SyncPacketReads(c1, w.t1);
    hide SyncPacket, After, ParseHeader, ParseTimestamp, CorrectedSync, Bit, Adjusted, Offset, RespMatches;
    assert CarriesSync(c1, events[1]);
  }

  lemma SyncIsGood(cfg: Config, clock: Time, events: seq<Event>, k: nat, ns: int)
    requires ValidConfig(cfg) && k < |events| && StampsSync(cfg, clock, events, k, ns)
    ensures GoodAt(cfg, clock, events, k) <==> SyncNs(ns)
  {
    hide After, ParseHeader, ParseTimestamp, CorrectedSync, Bit, RespMatches;
  }

  lemma AllGood(cfg: Config, clock: Time, events: seq<Event>)
    requires ValidConfig(cfg) && forall j :: 0 <= j < |events| ==> GoodAt(cfg, clock, events, j)
    ensures GoodStamps(cfg, clock, events)
  {
    hide GoodStamp, After;
    forall k | 0 <= k < |events|
      ensures GoodStamp(After(cfg, clock, events[..k]).client, events[k])
    {
      assert GoodAt(cfg, clock, events, k);
    }
  }

  // ----- the windows over runs -----

  /** A run with every timestamp in its window, but for a last Delay_Resp with this nanosecond
      field, which breaks the clock. */
  predicate BreaksAtResponse(cfg: Config, clock: Time, events: seq<Event>, e: Event, ns: int)
    requires ValidConfig(cfg)
  {
    && ClockOk(clock) && GoodStamps(cfg, clock, events)
    && var c := After(cfg, clock, events).client;
    AnswersWith(c, e, ns) && !KeepsClock(c, e)
  }

  /** For every client that can become a slave: some run breaks the clock by a Delay_Resp with this
      nanosecond field exactly when the field is not from -1 000 000 003 to 2 000 000 002. */
  lemma ResponseWindow(cfg: Config, announce: Event, ns: Long)
    requires CanFollow(cfg, announce)
    ensures (exists clock: Time, events: seq<Event>, e: Event :: BreaksAtResponse(cfg, clock, events, e, ns))
            <==> !ResponseNs(ns)
  {
    if ResponseNs(ns) {
      forall clock: Time, events: seq<Event>, e: Event
        ensures !BreaksAtResponse(cfg, clock, events, e, ns)
      {
        NoBreakInside(cfg, clock, events, e, ns);
      }
    } else {
      var w := BreakingResponse(ns);
      BreaksOutside(cfg, announce, w);
    }
  }

  lemma NoBreakInside(cfg: Config, clock: Time, events: seq<Event>, e: Event, ns: Long)
    requires ValidConfig(cfg) && ResponseNs(ns)
    ensures !BreaksAtResponse(cfg, clock, events, e, ns)
  {
    hide After, GoodStamps, Step, AnswersRequest;
    if BreaksAtResponse(cfg, clock, events, e, ns) {
      AlwaysConserved(cfg, clock, events);
      ResponseKeepsClock(After(cfg, clock, events).client, e);
    }
  }

  /** The response that ends that run breaks the clock. */
  lemma LastResponse(cfg: Config, announce: Event, w: Witness) returns (e: Event)
    requires CanFollow(cfg, announce) && IsBroken(w)
    requires -0x8000_0000 <= w.t1.ns < 0x8000_0000 && -0x8000_0000 <= w.t4.ns < 0x8000_0000
    ensures ClockOk(w.t23) && |Source(cfg, announce)| == 10
    ensures var events := RunTo(cfg, announce, w);
            var c := After(cfg, w.t23, events).client;
            && |events| == 3 && GoodAt(cfg, w.t23, events, 0) && GoodAt(cfg, w.t23, events, 2)
            && StampsSync(cfg, w.t23, events, 1, w.t1.ns)
            && (SyncNs(w.t1.ns) ==> GoodAt(cfg, w.t23, events, 1))
            && AnswersWith(c, e, w.t4.ns) && !KeepsClock(c, e)
            && (ResponseNs(w.t4.ns) ==> AnswersInWindow(c, e))
  {
    hide After, RunTo, Adjusted, Offset, AnswersWith, AnswersInWindow, KeepsClock, Response, StampsSync, GoodAt;
    WitnessIsReached(cfg, announce, w);
    OnlySyncStrays(cfg, announce, w);
    ThreeEvents(cfg, announce, w);
    var events := RunTo(cfg, announce, w);
    var c := After(cfg, w.t23, events).client;
    SyncIsGood(cfg, w.t23, events, 1, w.t1.ns);
    BrokenByResponse(c, w.t4);
    e := Response(cfg, c.delayReqId, w.t4);
  }

  lemma ThreeEvents(cfg: Config, announce: Event, w: Witness)
    requires CanFollow(cfg, announce) && |Source(cfg, announce)| == 10
    ensures |RunTo(cfg, announce, w)| == 3
  {
  }

  lemma BreaksOutside(cfg: Config, announce: Event, w: Witness)
    requires CanFollow(cfg, announce) && IsBroken(w) && SyncNs(w.t1.ns)
    requires -0x8000_0000 <= w.t4.ns < 0x8000_0000
    ensures exists clock: Time, events: seq<Event>, e: Event :: BreaksAtResponse(cfg, clock, events, e, w.t4.ns)
  {
    hide After, Breaks, AnswersWith, AnswersInWindow, KeepsClock, Response, StampsSync, GoodAt, GoodStamps;
    var events := RunTo(cfg, announce, w);
    var e := LastResponse(cfg, announce, w);
    AllGood(cfg, w.t23, events);
    assert BreaksAtResponse(cfg, w.t23, events, e, w.t4.ns);
  }

  /** A run with every timestamp in its window but that of the k-th event, which leaves t1 with this
      nanosecond field, and the clock then broken by a Delay_Resp inside its window. */
  predicate BreaksAfterSync(cfg: Config, clock: Time, events: seq<Event>, k: nat, e: Event, ns: int)
    requires ValidConfig(cfg)
  {
    && ClockOk(clock) && k < |events| && StampsSync(cfg, clock, events, k, ns)
    && (forall j :: 0 <= j < |events| && j != k ==> GoodAt(cfg, clock, events, j))
    && var c := After(cfg, clock, events).client;
    AnswersInWindow(c, e) && !KeepsClock(c, e)
  }

  /** And some run with one stray Sync or Follow_Up breaks it exactly when that leaves t1 with
      nanoseconds not from -1 000 000 000 to 1 999 999 999. */
  lemma SyncWindow(cfg: Config, announce: Event, ns: Long)
    requires CanFollow(cfg, announce)
    ensures (exists clock: Time, events: seq<Event>, k: nat, e: Event :: BreaksAfterSync(cfg, clock, events, k, e, ns))
            <==> !SyncNs(ns)
  {
    if SyncNs(ns) {
      forall clock: Time, events: seq<Event>, k: nat, e: Event
        ensures !BreaksAfterSync(cfg, clock, events, k, e, ns)
      {
        NoBreakAfterGoodSync(cfg, clock, events, k, e, ns);
      }
    } else {
      var w := BreakingSync(ns);
      BreaksAfterStraySync(cfg, announce, w);
    }
  }

  lemma NoBreakAfterGoodSync(cfg: Config, clock: Time, events: seq<Event>, k: nat, e: Event, ns: Long)
    requires ValidConfig(cfg) && SyncNs(ns)
    ensures !BreaksAfterSync(cfg, clock, events, k, e, ns)
  {
    hide After, Step, AnswersRequest, GoodStamp, StampsSync;
    if BreaksAfterSync(cfg, clock, events, k, e, ns) {
      SyncIsGood(cfg, clock, events, k, ns);
      AllGood(cfg, clock, events);
      AlwaysConserved(cfg, clock, events);
      ResponseKeepsClock(After(cfg, clock, events).client, e);
    }
  }

  lemma BreaksAfterStraySync(cfg: Config, announce: Event, w: Witness)
    requires CanFollow(cfg, announce) && IsBroken(w) && ResponseNs(w.t4.ns)
    requires -0x8000_0000 <= w.t1.ns < 0x8000_0000
    ensures exists clock: Time, events: seq<Event>, k: nat, e: Event ::
              BreaksAfterSync(cfg, clock, events, k, e, w.t1.ns)
  {
    hide After, Breaks, AnswersWith, AnswersInWindow, KeepsClock, Response, StampsSync, GoodAt;
    var events := RunTo(cfg, announce, w);
    var e := LastResponse(cfg, announce, w);
    assert BreaksAfterSync(cfg, w.t23, events, 1, e, w.t1.ns);
  }
}
