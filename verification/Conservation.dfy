/** The clock changes only by timer interrupts and by the corrections it reports. */
module Conservation {
  import opened Words
  import opened PtpTime
  import opened SoftClock
  import opened Wire
  import opened Client
  import opened ClientRuns
  import opened StampWindow
  import opened OffsetTheorem

  /** If the client takes a timestamp from the packet, it is in the window for its kind; that of a
      Sync or Follow_Up with its correction field added. IEEE 1588-2008 section 5.3.3 asks for
      less than a second. A clock is set to a well-formed time. The client checks none of this. */
  predicate GoodStamp(c: Client, e: Event)
    requires ValidConfig(c.cfg)
  {
    && (CarriesSync(c, e) ==>
          var p := ParseHeader(e.packet, c.cfg.domain);
          SyncNs(CorrectedSync(p.hdr, p.body).ns))
    && (AnswersRequest(c, e) ==> ResponseNs(ParseTimestamp(ParseHeader(e.packet, c.cfg.domain).body).ns))
    && (SetsClock(e) ==> ClockOk(e.setting.time))
  }

  /** So it is for each packet of a run, as it comes. */
  predicate GoodStamps(cfg: Config, clock: Time, events: seq<Event>)
    requires ValidConfig(cfg)
  {
    forall k :: 0 <= k < |events| ==> GoodStamp(After(cfg, clock, events[..k]).client, events[k])
  }

  /** Of the times only the Sync and Delay_Req records change, and they stay well formed. */
  predicate ClockKept(c: Client, n: Next) {
    TimesOk(n.client) && n.client.clock == c.clock && OffsetOf(n.out) == 0
  }

  lemma SyncTimes(c: Client, hdr: Header, body: seq<Byte>, net: Net)
    requires ValidConfig(c.cfg) && |body| >= 10 && TimesOk(c) && SyncNs(CorrectedSync(hdr, body).ns)
    ensures ClockKept(c, SyncTaken(c, hdr, body, net))
    ensures ClockKept(c, SyncTaken(c.(syncTs := c.clock), hdr, body, net))
  {
    SyncSeconds(hdr, body);
    hide CorrectedSync, DelayReqBytes;
  }

  lemma SyncSeconds(hdr: Header, body: seq<Byte>)
    requires |body| >= 10
    ensures IsInt64(CorrectedSync(hdr, body).sec)
  {
    var t, ns := ParseTimestamp(body), CorrectionNs(hdr);
    hide ParseTimestamp, CorrectionNs;
    if ns != 0 {
      NormalisedSeconds(t.sec + ns / 1_000_000_000, t.ns + ns % 1_000_000_000);
    }
    StampSeconds(body);
  }

  lemma NormalisedSeconds(sec: int, ns: int)
    ensures IsInt64(Normalised(sec, ns).sec)
  {
    hide ToInt64, ToLong;
  }

  /** A correction adds its offset to the clock. */
  predicate ClockCorrected(c: Client, n: Next) {
    TimesOk(n.client) && Nanos(n.client.clock) == ToClock(Nanos(c.clock) + OffsetOf(n.out))
  }

  lemma PacketTimes(c: Client, e: Event)
    requires ValidConfig(c.cfg) && e.Receive? && TimesOk(c) && GoodStamp(c, e)
    ensures ClockKept(c, Step(c, e)) || ClockCorrected(c, Step(c, e))
  {
    hide PacketTaken, ParseHeader, ParseTimestamp, ParseAnnounce, SyncTaken, DelayRespTaken, ToClock, Bit,
         CorrectedSync;
    PacketCases(c, e);
    var p := ParseHeader(e.packet, c.cfg.domain);
    if AnswersRequest(c, e) {
      ResponseKeepsClock(c, e);
    } else if CarriesSync(c, e) {
      SyncTimes(c, p.hdr, p.body, e.net);
    }
  }

  /** The client's clock, less what an observer has seen added to it, is where it started. */
  predicate Conserved(c: Client, h: History, start: int) {
    Nanos(c.clock) == ToClock(start + 10_000_000 * h.interrupts + h.offsets)
  }

  predicate ClockBooked(h: History, c: Client, e: Event, n: Next, h': History) {
    && h'.interrupts == (if SetsClock(e) then 0 else h.interrupts + (if e.TimerInterrupt? then 1 else 0))
    && h'.offsets == (if SetsClock(e) then 0 else h.offsets + OffsetOf(n.out))
  }

  function SetFrom(start: Time, e: Event): Time {
    if SetsClock(e) then e.setting.time else start
  }

  /** What the clock was last set to, or created with. */
  function LastSet(clock: Time, events: seq<Event>): Time {
    if events == [] then clock else SetFrom(LastSet(clock, events[..|events| - 1]), events[|events| - 1])
  }

  lemma ClockBookkeeping(h: History, c: Client, e: Event)
    requires ValidConfig(c.cfg)
    ensures ClockBooked(h, c, e, Step(c, e), Observed(h, c, e))
  {
    hide Step, Follows, Count;
  }

  lemma ConservedStep(c: Client, h: History, e: Event, start: Time)
    requires ValidConfig(c.cfg) && TimesOk(c) && Conserved(c, h, Nanos(start)) && GoodStamp(c, e)
    ensures TimesOk(Step(c, e).client) && Conserved(Step(c, e).client, Observed(h, c, e), Nanos(SetFrom(start, e)))
  {
    hide Observed, PacketTaken, Ticking, ToClock, Ticked;
    ClockBookkeeping(h, c, e);
    var total := Nanos(start) + 10_000_000 * h.interrupts + h.offsets;
    match e
    case Receive(_, _, _) =>
      PacketTimes(c, e);
      ToClockTwice(total, OffsetOf(Step(c, e).out));
    case Tick(a, s) =>
      TickEffect(c, a, s);
      TickOutputs(c, a, s);
    case TimerInterrupt =>
      TickedAdds(c.clock);
      ToClockTwice(total, 10_000_000);
    case ThreadStart(setting) =>
      if setting.SetClock? {
        ClockNanosFit(setting.time);
      }
    case TimestampNotify(_, _) =>
  }

  lemma StampsBefore(cfg: Config, clock: Time, events: seq<Event>)
    requires ValidConfig(cfg) && events != [] && GoodStamps(cfg, clock, events)
    ensures GoodStamps(cfg, clock, events[..|events| - 1])
    ensures GoodStamp(After(cfg, clock, events[..|events| - 1]).client, events[|events| - 1])
  {
    hide GoodStamp, After;
    var before := events[..|events| - 1];
    assert forall k :: 0 <= k < |before| ==> before[..k] == events[..k] && before[k] == events[k];
  }

  lemma {:induction false} AlwaysConserved(cfg: Config, clock: Time, events: seq<Event>)
    requires ValidConfig(cfg) && ClockOk(clock)
    requires GoodStamps(cfg, clock, events)
    ensures var r := After(cfg, clock, events);
            TimesOk(r.client) && Conserved(r.client, r.history, Nanos(LastSet(clock, events)))
  {
    hide GoodStamp;
    if events == [] {
      ClockNanosFit(clock);
    } else {
      var before, e := events[..|events| - 1], events[|events| - 1];
      StampsBefore(cfg, clock, events);
      AlwaysConserved(cfg, clock, before);
      var r := After(cfg, clock, before);
      ConservedStep(r.client, r.history, e, LastSet(clock, before));
    }
  }

  lemma WrappedIsExact(c: Time, total: int)
    requires ClockOk(c) && Nanos(c) == ToClock(total)
    ensures Nanos(c) == total <==> Representable(total)
  {
    hide ToClock;
    if Representable(total) {
      ToClockUnique(total, total, 0);
    }
  }

  /** Timer interrupts lost to an event: those that come while it sets the clock anew. A step of
      the clock is made with interrupts disabled. */
  function LostIn(c: Client, e: Event): nat
    requires ValidConfig(c.cfg)
  {
    var out := Step(c, e).out;
    if e.Receive? && out != [] && out[0].Corrected? && out[0].offset.sec != 0 then e.net.inside else 0
  }

  /** All timer interrupts since the clock was set or created, those inside corrections included. */
  function Fired(cfg: Config, clock: Time, events: seq<Event>): nat
    requires ValidConfig(cfg)
  {
    if events == [] then 0
    else
      var before, e := events[..|events| - 1], events[|events| - 1];
      var now := if e.TimerInterrupt? then 1 else LostIn(After(cfg, clock, before).client, e);
      if SetsClock(e) then 0 else Fired(cfg, clock, before) + now
  }

  function Lost(cfg: Config, clock: Time, events: seq<Event>): nat
    requires ValidConfig(cfg)
  {
    if events == [] then 0
    else
      var before, e := events[..|events| - 1], events[|events| - 1];
      if SetsClock(e) then 0 else Lost(cfg, clock, before) + LostIn(After(cfg, clock, before).client, e)
  }

  lemma {:induction false} FiredCounts(cfg: Config, clock: Time, events: seq<Event>)
    requires ValidConfig(cfg)
    ensures After(cfg, clock, events).history.interrupts == Fired(cfg, clock, events) - Lost(cfg, clock, events)
  {
    hide Step, Observed;
    if events == [] {
      ClockBookkeeping(NO_HISTORY, Created(cfg, clock), ThreadStart(KeepClock));
    } else {
      var before := events[..|events| - 1];
      FiredCounts(cfg, clock, before);
      var r := After(cfg, clock, before);
      ClockBookkeeping(r.history, r.client, events[|events| - 1]);
    }
  }

  /** Over every run of packets with timestamps in their windows, of any length: the nanosecond
      field is always the part below a second, and the clock is what it was last set to, or created
      with, plus every correction it reported since plus 10 ms for each timer interrupt since, but
      for those that came while it was being set anew, exactly, whenever that sum can be held in
      64-bit seconds at all, whatever happened on the way. */
  lemma ClockIsConserved(cfg: Config, clock: Time, events: seq<Event>)
    requires ValidConfig(cfg) && ClockOk(clock)
    requires GoodStamps(cfg, clock, events)
    ensures var r := After(cfg, clock, events);
            var counted := Fired(cfg, clock, events) - Lost(cfg, clock, events);
            var total := Nanos(LastSet(clock, events)) + 10_000_000 * counted + r.history.offsets;
            && ClockOk(r.client.clock)
            && (Nanos(r.client.clock) == total <==> Representable(total))
  {
    hide After, ToClock, Representable, Nanos, GoodStamps, Fired, Lost, LastSet;
    AlwaysConserved(cfg, clock, events);
    FiredCounts(cfg, clock, events);
    var r := After(cfg, clock, events);
    WrappedIsExact(r.client.clock,
                   Nanos(LastSet(clock, events)) + 10_000_000 * r.history.interrupts + r.history.offsets);
  }
}
