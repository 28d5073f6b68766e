/** How the clock moves between the three times of a measurement, over every run, and what that
    leaves of the error. */
module Drift {
  import opened Words
  import opened PtpTime
  import opened SoftClock
  import opened Wire
  import opened Client
  import opened ClientRuns
  import opened StampWindow
  import opened OffsetTheorem
  import opened Conservation
  import opened Matching
  import opened Pairing

  /** What an observer has counted since t2 and since t3 were taken: the timer interrupts that fired,
      and by how much the clock was moved otherwise. */
  datatype Moves = Moves(fired2: nat, moved2: int, fired3: nat, set3: int)

  function FiresIn(c: Client, e: Event): nat
    requires ValidConfig(c.cfg)
  {
    if e.TimerInterrupt? then 1 else LostIn(c, e)
  }

  /** By how much the application set the clock ahead. */
  function Jump(c: Client, e: Event): int {
    if SetsClock(e) then Nanos(e.setting.time) - Nanos(c.clock) else 0
  }

  /** A correction reported, less 10 ms for each interrupt it lost. */
  function CorrectedBy(c: Client, e: Event): int
    requires ValidConfig(c.cfg)
  {
    OffsetOf(Step(c, e).out) - 10_000_000 * LostIn(c, e)
  }

  predicate StampsT2(c: Client, e: Event)
    requires ValidConfig(c.cfg)
  {
    BeginsTwoStep(c, e)
    || (CarriesSync(c, e) && ParseHeader(e.packet, c.cfg.domain).hdr.messageType == TYPE_SYNC)
  }

  predicate StampsT3(c: Client, e: Event)
    requires ValidConfig(c.cfg)
  {
    Step(c, e).client.delayReqId != c.delayReqId
  }

  function Book(m: Moves, c: Client, e: Event): Moves
    requires ValidConfig(c.cfg)
  {
    var fired := FiresIn(c, e);
    Moves(
      if StampsT2(c, e) then 0 else m.fired2 + fired,
      if StampsT2(c, e) then 0 else m.moved2 + Jump(c, e) + CorrectedBy(c, e),
      if StampsT3(c, e) then 0 else m.fired3 + fired,
      if StampsT3(c, e) then 0 else m.set3 + Jump(c, e))
  }

  function MovesSince(cfg: Config, clock: Time, events: seq<Event>): Moves
    requires ValidConfig(cfg)
  {
    if events == [] then Moves(0, 0, 0, 0)
    else
      var before := events[..|events| - 1];
      Book(MovesSince(cfg, clock, before), After(cfg, clock, before).client, events[|events| - 1])
  }

  // ----- the books are right -----

  predicate Booked2(c: Client, m: Moves) {
    Nanos(c.clock) == ToClock(Nanos(c.syncTs) + 10_000_000 * m.fired2 + m.moved2)
  }

  predicate Booked3(c: Client, m: Moves) {
    Nanos(c.clock) == ToClock(Nanos(c.delayTs) + 10_000_000 * m.fired3 + m.set3)
  }

  /** The clock is t2 plus what is booked since; and, while a response is awaited, t3 plus what is:
      between t3 and its response nothing corrects the clock. */
  predicate BooksRight(c: Client, w: Seen, m: Moves) {
    && (w.t2 > 0 ==> Booked2(c, m))
    && (c.delayPhase == WaitResp ==> Booked3(c, m))
  }

  /** The clock goes from one reading to another by these interrupts and this much otherwise. */
  lemma Goes(start: int, fired: nat, moved: int, clock: Time, clock': Time, fired': nat, moved': int)
    requires Nanos(clock) == ToClock(start + 10_000_000 * fired + moved)
    requires Nanos(clock') == ToClock(Nanos(clock) + 10_000_000 * fired' + moved')
    ensures Nanos(clock') == ToClock(start + 10_000_000 * (fired + fired') + (moved + moved'))
  {
    hide ToClock, Nanos;
    ToClockTwice(start + 10_000_000 * fired + moved, 10_000_000 * fired' + moved');
  }

  /** One event moves the clock by what is booked for it. */
  lemma EventBooked(c: Client, e: Event)
    requires ValidConfig(c.cfg) && TimesOk(c) && GoodStamp(c, e)
    ensures TimesOk(Step(c, e).client)
    ensures Nanos(Step(c, e).client.clock)
            == ToClock(Nanos(c.clock) + 10_000_000 * FiresIn(c, e) + Jump(c, e) + CorrectedBy(c, e))
  {
    hide PacketTaken, Ticking, ToClock, Ticked;
    match e
    case Receive(_, _, _) =>
      PacketTimes(c, e);
      ClockNanosFit(c.clock);
    case Tick(a, s) =>
      TickEffect(c, a, s);
      TickOutputs(c, a, s);
      ClockNanosFit(c.clock);
    case TimerInterrupt =>
      TickedAdds(c.clock);
    case ThreadStart(setting) =>
      ClockNanosFit(Step(c, e).client.clock);
    case TimestampNotify(_, _) =>
      ClockNanosFit(c.clock);
  }

  /** t2 is stamped from the clock as it stands, or kept; it is dropped on entering the slave state. */
  lemma T2Kept(c: Client, w: Seen, e: Event)
    requires ValidConfig(c.cfg) && TimesOk(c) && GoodStamp(c, e)
    ensures var c' := Step(c, e).client;
            && (StampsT2(c, e) ==> c'.syncTs == c.clock == c'.clock)
            && (!StampsT2(c, e) ==> Watch(w, c, e).t2 == 0 || (Watch(w, c, e).t2 == w.t2 && c'.syncTs == c.syncTs))
  {
    hide PacketTaken, Ticking, ParseHeader, ParseAnnounce, ParseTimestamp, CorrectedSync, Offset, Bit, Follows,
         AnswersRequest, SyncTaken;
    if e.Receive? {
      PacketCases(c, e);
      var p := ParseHeader(e.packet, c.cfg.domain);
      if CarriesSync(c, e) {
        var c1 := if p.hdr.messageType == TYPE_SYNC then c.(syncTs := c.clock) else c;
        SyncRecords(c1, p.hdr, p.body, e.net);
        SyncTakesNoClock(c1, p.hdr, p.body, e.net);
      }
    } else if e.Tick? {
      TickEffect(c, e.announce, e.sync);
    }
  }

  lemma SyncTakesNoClock(c: Client, hdr: Header, body: seq<Byte>, net: Net)
    requires ValidConfig(c.cfg) && |body| >= 10
    ensures SyncTaken(c, hdr, body, net).client.clock == c.clock
  {
    hide CorrectedSync, DelayReqBytes;
  }

  /** t3 is stamped from the clock as it stands; and while a response is awaited it is kept, and
      nothing is corrected. */
  lemma T3Kept(c: Client, e: Event)
    requires ValidConfig(c.cfg) && TimesOk(c) && Step(c, e).client.delayPhase == WaitResp
    ensures var c' := Step(c, e).client;
            && (StampsT3(c, e) ==> c'.delayTs == c.clock == c'.clock)
            && (!StampsT3(c, e) ==> c.delayPhase == WaitResp && c'.delayTs == c.delayTs && CorrectedBy(c, e) == 0)
  {
    hide PacketTaken, Ticking, Ticked;
    if e.Receive? {
      PacketMeasures(c, e);
      RequestKeepsClock(c, e);
    } else if e.Tick? {
      TickEffect(c, e.announce, e.sync);
      TickOutputs(c, e.announce, e.sync);
    }
  }

  /** An event that draws a Delay_Req id leaves the clock alone. */
  lemma RequestKeepsClock(c: Client, e: Event)
    requires ValidConfig(c.cfg) && e.Receive?
    ensures StampsT3(c, e) ==> Step(c, e).client.clock == c.clock
  {
    hide PacketTaken, ParseHeader, ParseAnnounce, ParseTimestamp, CorrectedSync, Offset, Bit, Follows,
         AnswersRequest, SyncTaken;
    PacketCases(c, e);
    if CarriesSync(c, e) {
      var p := ParseHeader(e.packet, c.cfg.domain);
      SyncTakesNoClock(if p.hdr.messageType == TYPE_SYNC then c.(syncTs := c.clock) else c, p.hdr, p.body, e.net);
    }
  }

  lemma Books2(c: Client, c': Client, m: Moves, m': Moves, fired: nat, moved: int)
    requires Nanos(c'.clock) == ToClock(Nanos(c.clock) + 10_000_000 * fired + moved)
    requires Booked2(c, m) && c'.syncTs == c.syncTs
    requires m'.fired2 == m.fired2 + fired && m'.moved2 == m.moved2 + moved
    ensures Booked2(c', m')
  {
    hide ToClock, Nanos;
    Goes(Nanos(c.syncTs), m.fired2, m.moved2, c.clock, c'.clock, fired, moved);
  }

  lemma Books3(c: Client, c': Client, m: Moves, m': Moves, fired: nat, moved: int)
    requires Nanos(c'.clock) == ToClock(Nanos(c.clock) + 10_000_000 * fired + moved)
    requires Booked3(c, m) && c'.delayTs == c.delayTs
    requires m'.fired3 == m.fired3 + fired && m'.set3 == m.set3 + moved
    ensures Booked3(c', m')
  {
    hide ToClock, Nanos;
    Goes(Nanos(c.delayTs), m.fired3, m.set3, c.clock, c'.clock, fired, moved);
  }

  /** Books opened at the present clock. */
  lemma BooksOpen(c: Client, m: Moves)
    requires ClockOk(c.clock)
    ensures c.syncTs == c.clock && m.fired2 == 0 && m.moved2 == 0 ==> Booked2(c, m)
    ensures c.delayTs == c.clock && m.fired3 == 0 && m.set3 == 0 ==> Booked3(c, m)
  {
    ClockNanosFit(c.clock);
    hide ToClock, Nanos;
  }

  lemma BooksStep2(c: Client, w: Seen, m: Moves, e: Event)
    requires ValidConfig(c.cfg) && TimesOk(c) && GoodStamp(c, e) && (w.t2 > 0 ==> Booked2(c, m))
    ensures Watch(w, c, e).t2 > 0 ==> Booked2(Step(c, e).client, Book(m, c, e))
  {
    hide Step, Watch, StampsT2, StampsT3, ToClock, Nanos, GoodStamp, FiresIn, Jump, CorrectedBy, Booked2, Booked3;
    EventBooked(c, e);
    T2Kept(c, w, e);
    var c', m' := Step(c, e).client, Book(m, c, e);
    var fired, moved := FiresIn(c, e), Jump(c, e) + CorrectedBy(c, e);
    if StampsT2(c, e) {
      BooksOpen(c', m');
    } else if Watch(w, c, e).t2 > 0 {
      Books2(c, c', m, m', fired, moved);
    }
  }

  lemma BooksStep3(c: Client, m: Moves, e: Event)
    requires ValidConfig(c.cfg) && TimesOk(c) && GoodStamp(c, e) && (c.delayPhase == WaitResp ==> Booked3(c, m))
    ensures Step(c, e).client.delayPhase == WaitResp ==> Booked3(Step(c, e).client, Book(m, c, e))
  {
    hide Step, StampsT2, StampsT3, ToClock, Nanos, GoodStamp, FiresIn, Jump, CorrectedBy, Booked2, Booked3;
    EventBooked(c, e);
    var c', m' := Step(c, e).client, Book(m, c, e);
    if c'.delayPhase == WaitResp {
      T3Kept(c, e);
      var fired, moved := FiresIn(c, e), Jump(c, e);
      if StampsT3(c, e) {
        BooksOpen(c', m');
      } else {
        Books3(c, c', m, m', fired, moved);
      }
    }
  }

  lemma BooksStep(c: Client, w: Seen, m: Moves, e: Event)
    requires ValidConfig(c.cfg) && TimesOk(c) && GoodStamp(c, e) && BooksRight(c, w, m)
    ensures BooksRight(Step(c, e).client, Watch(w, c, e), Book(m, c, e))
  {
    hide Step, Watch, Book, GoodStamp, Booked2, Booked3;
    BooksStep2(c, w, m, e);
    BooksStep3(c, m, e);
  }

  lemma {:induction false} BooksAlwaysRight(cfg: Config, clock: Time, events: seq<Event>)
    requires ValidConfig(cfg) && ClockOk(clock) && GoodStamps(cfg, clock, events)
    ensures BooksRight(After(cfg, clock, events).client, Watched(cfg, clock, events), MovesSince(cfg, clock, events))
  {
    hide Step, Watch, Book, Observed, GoodStamp;
    if events == [] {
      NothingPending(cfg, clock);
    } else {
      var before, e := events[..|events| - 1], events[|events| - 1];
      StampsBefore(cfg, clock, events);
      AlwaysConserved(cfg, clock, before);
      BooksAlwaysRight(cfg, clock, before);
      BooksStep(After(cfg, clock, before).client, Watched(cfg, clock, before), MovesSince(cfg, clock, before), e);
    }
  }

  lemma NothingPending(cfg: Config, clock: Time)
    requires ValidConfig(cfg)
    ensures After(cfg, clock, []).client.delayPhase == DelayIdle
  {
  }

  // ----- the error of a measurement -----

  /** Both sums can be held in 64-bit seconds. */
  predicate SumsFit(c: Client, m: Moves) {
    && Representable(Nanos(c.syncTs) + 10_000_000 * m.fired2 + m.moved2)
    && Representable(Nanos(c.delayTs) + 10_000_000 * m.fired3 + m.set3)
  }

  lemma BooksExact(c: Client, w: Seen, m: Moves)
    requires BooksRight(c, w, m) && SumsFit(c, m) && w.t2 > 0 && c.delayPhase == WaitResp
    ensures Nanos(c.clock) - Nanos(c.syncTs) == 10_000_000 * m.fired2 + m.moved2
    ensures Nanos(c.clock) - Nanos(c.delayTs) == 10_000_000 * m.fired3 + m.set3
  {
    hide ToClock, Representable, Nanos;
    var sum2 := Nanos(c.syncTs) + 10_000_000 * m.fired2 + m.moved2;
    var sum3 := Nanos(c.delayTs) + 10_000_000 * m.fired3 + m.set3;
    ToClockUnique(sum2, sum2, 0);
    ToClockUnique(sum3, sum3, 0);
  }

  /** The master's time at the arrival of the Sync of t2, which took d1. */
  function Arrival(w: Seen, sent: seq<int>, d1: int): int
    requires SentAt(w, sent)
  {
    sent[w.t2] + d1
  }

  /** Over every run, whatever answers the pending Delay_Req next, with a master whose time goes on
      by 10 ms with each of the client's timer interrupts: the error left is half of the difference
      of the delays, and half of what the clock was moved otherwise since t2 (corrections, less the
      interrupts they lost, and settings) and since t3 (settings only), less the gap between the
      Syncs of t1 and t2. So, when the last packet about a Sync completed the latest, the delays
      alone decide exactly if those moves cancel; and, when they do and the Syncs were sent at
      different times, exactly if it did. */
  lemma MovesDecideError(cfg: Config, clock: Time, events: seq<Event>, e: Event, sent: seq<int>, d1: int, d2: int)
    requires ValidConfig(cfg) && ClockOk(clock) && GoodStamps(cfg, clock, events)
    requires var c, w := After(cfg, clock, events).client, Watched(cfg, clock, events);
             var m := MovesSince(cfg, clock, events);
             AnswersRequest(c, e) && c.sync.sec != 0 && SentAt(w, sent) && SumsFit(c, m) &&
             var t4 := ParseTimestamp(ParseHeader(e.packet, cfg.domain).body);
             ModerateTimes(c, t4)
             && Nanos(t4) == Arrival(w, sent, d1) + 10_000_000 * (m.fired2 - m.fired3) + d2
    ensures var c, w := After(cfg, clock, events).client, Watched(cfg, clock, events);
            var m := MovesSince(cfg, clock, events);
            var left := Nanos(Step(c, e).client.clock) - (Arrival(w, sent, d1) + 10_000_000 * m.fired2);
            var extra := m.moved2 + m.set3 - Gap(w, sent);
            && -1 <= 2 * left - (d2 - d1 + extra) <= 1
            && (LatestCompletes(w) ==> (extra == 0 <==> m.moved2 + m.set3 == 0))
            && (m.moved2 + m.set3 == 0 && AllApart(sent) ==> (extra == 0 <==> LatestCompletes(w)))
  {
    hide After, Watched, MovesSince, GoodStamps, Step, ParseTimestamp, ParseHeader, ModerateTimes, SumsFit, BooksRight,
         Tracks, Numbered, AllApart, LatestCompletes;
    BooksAlwaysRight(cfg, clock, events);
    AlwaysTracked(cfg, clock, events);
    var c, w := After(cfg, clock, events).client, Watched(cfg, clock, events);
    var m := MovesSince(cfg, clock, events);
    T2IsTracked(c, w);
    BooksExact(c, w, m);
    var now := Arrival(w, sent, d1) + 10_000_000 * m.fired2;
    var theta2 := Nanos(c.syncTs) - Arrival(w, sent, d1);
    var theta3 := Nanos(c.delayTs) - (now - 10_000_000 * m.fired3);
    PairingDecidesError(cfg, clock, events, e, sent, theta2, theta3, Nanos(c.clock) - now, d1, d2);
  }

  lemma T2IsTracked(c: Client, w: Seen)
    requires Tracks(c, w)
    ensures 0 < w.t2 ==> w.t2 <= |w.syncs| && c.syncTs == w.syncs[w.t2 - 1].at
  {
  }
}
