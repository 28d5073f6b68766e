/** The client as the code has it: one object whose fields the packet and timer handlers update
    in place. Every handler is proved to do what the step function says. */
module ClientMachine {
  import opened Words
  import opened PtpTime
  import opened SoftClock
  import opened ClockOrder
  import opened Wire
  import opened Client
  import opened ClientRuns

  class PtpClient {
    const cfg: Config
    var phase: Phase
    var delayPhase: DelayPhase
    var delayReqTimer: int
    var delayReqFlag: bool
    var announceTimeout: int
    var announceTimer: int
    var syncTimer: int
    var sequenceId: UShort
    var syncFlags: SyncFlags
    var utcOffset: int
    var masterPortIdentity: seq<Byte>
    const sync: PtpTime
    const syncTs: PtpTime
    const delayTs: PtpTime
    const softClock: PtpTime
    var syncId: UShort
    var delayReqId: UShort
    var delayReqPacket: int
    var log: seq<Output>  // packets handed to the network and calls made to the application

    ghost predicate Valid() {
      && ValidConfig(cfg)
      && sync != syncTs && sync != delayTs && sync != softClock
      && syncTs != delayTs && syncTs != softClock && delayTs != softClock
    }

    ghost function State(): Client
      reads this, sync, syncTs, delayTs, softClock
    {
      Client(cfg, phase, delayPhase, delayReqTimer, delayReqFlag, announceTimeout, announceTimer, syncTimer,
             sequenceId, syncFlags, utcOffset, masterPortIdentity, sync.Value(), syncTs.Value(),
             delayTs.Value(), softClock.Value(), syncId, delayReqId, delayReqPacket)
    }

    /** All fields null, the clock as the application set it. */
    constructor (cfg: Config, high: Long, low: ULong, nano: Long)
      requires ValidConfig(cfg)
      ensures Valid() && log == [] && this.cfg == cfg
      ensures State() == Created(cfg, Time(Join(high, low), nano))
      ensures fresh(sync) && fresh(syncTs) && fresh(delayTs) && fresh(softClock)
    {
      this.cfg := cfg;
      phase, delayPhase, delayReqTimer, delayReqFlag := Listening, DelayIdle, 0, false;
      announceTimeout, announceTimer, syncTimer, sequenceId := 0, 0, 0, 0;
      syncFlags, utcOffset, masterPortIdentity := NO_FLAGS, 0, Zeros(10);
      syncId, delayReqId, delayReqPacket, log := 0, 0, 0, [];
      sync := new PtpTime(0, 0, 0);
      syncTs := new PtpTime(0, 0, 0);
      delayTs := new PtpTime(0, 0, 0);
      softClock := new PtpTime(high, low, nano);
    }

    // ----- thread start -----

    method ThreadEntry()
      requires Valid()
      modifies this
      ensures State() == Started(old(State())).client
      ensures log == old(log) + Started(old(State())).out
    {
      hide Valid;
      if cfg.role == MasterOnly {
        BecomeMaster();
      } else {
        StopSending();
        delayReqTimer := -1;
        announceTimeout := ANNOUNCE_EXPIRATION;
        phase := Listening;
      }
    }

    /** Both send timers run, and the application hears that the local clock is master. */
    method BecomeMaster()
      requires Valid()
      modifies this
      ensures State() == Promoted(old(State()))
      ensures log == old(log) + [MasterEvent(cfg.clock)]
    {
      announceTimer := ANNOUNCE_INTERVAL;
      syncTimer := SYNC_INTERVAL;
      phase := Master;
      log := log + [MasterEvent(cfg.clock)];
    }

    method StopSending()
      requires Valid()
      modifies this`announceTimer, this`syncTimer
      ensures announceTimer == -1 && syncTimer == -1
    {
      announceTimer := -1;
      syncTimer := -1;
    }

    /** Allowed while the client is stopped. The time is not checked. */
    method TimeSet(time: PtpTime)
      requires Valid()
      modifies softClock
      ensures State() == ClockSet(old(State()), SetClock(old(time.Value())))
    {
      softClock.Assign(time);
    }

    method TimerHandler()
      requires Valid()
      modifies softClock
      ensures State() == old(State()).(clock := Ticked(old(State()).clock))
    {
      SoftTimerUpdate(softClock);
    }

    // ----- delay request -----

    method PacketTimestampNotify(packet: int, timestamp: PtpTime)
      requires Valid() && timestamp != delayTs
      modifies this`delayPhase, delayTs
      ensures State() == Notified(old(State()), packet, old(timestamp.Value()))
    {
      if delayPhase == WaitReqTs && delayReqPacket == packet {
        delayTs.Assign(timestamp);
        delayPhase := WaitResp;
      }
    }

    method SendDelayReq(net: Net)
      requires Valid()
      modifies this, delayTs
      ensures State() == DelayReqTried(old(State()), net).client
      ensures log == old(log) + DelayReqTried(old(State()), net).out
    {
      hide DelayReqBytes, DelayReqPrepared;
      if !net.granted {
        return;
      }
      PrepareDelayReq(net.packet);
      var packet := NewDelayReq(cfg.transport, cfg.domain, cfg.portId, delayReqId);
      if !net.sent {
        delayPhase := DelayIdle;
        delayReqPacket := 0;
      } else {
        DelayReqGone(packet);
      }
    }

    /** The request is with the network; the next is due an interval from now. */
    method DelayReqGone(packet: seq<Byte>)
      requires Valid()
      modifies this`log, this`delayReqTimer, this`delayReqFlag
      ensures delayReqTimer == DELAY_REQ_INTERVAL && !delayReqFlag
      ensures log == old(log) + [DelayReqSent(packet, delayReqId, delayTs.Value())]
    {
      log := log + [DelayReqSent(packet, delayReqId, delayTs.Value())];
      delayReqTimer := DELAY_REQ_INTERVAL;
      delayReqFlag := false;
    }

    method PrepareDelayReq(packet: int)
      requires Valid()
      modifies this`delayReqId, this`delayPhase, this`delayReqPacket, delayTs
      ensures State() == DelayReqPrepared(old(State()), packet)
    {
      delayReqId := (delayReqId + 1) % 0x1_0000;
      delayPhase := WaitReqTs;
      delayReqPacket := packet;
      PacketTimestampNotify(packet, softClock);
    }

    // ----- Sync and Delay_Resp -----

    method SyncReceived(hdr: Header, body: seq<Byte>, net: Net)
      requires Valid() && |body| >= 10
      modifies this, sync, delayTs
      ensures State() == SyncTaken(old(State()), hdr, body, net).client
      ensures log == old(log) + SyncTaken(old(State()), hdr, body, net).out
    {
      hide DelayReqTried, ParseTimestamp, Sum;
      var correctionNs := CorrectionNs(hdr);
      ReadTimestamp(body, sync);
      if correctionNs != 0 {
        var correction := new PtpTime(0, correctionNs / 1_000_000_000, correctionNs % 1_000_000_000);
        TimeSum(sync, correction, sync);
      }
      if delayReqFlag {
        SendDelayReq(net);
      }
    }

    /** offset = ((t4 - t3) - (t2 - t1)) / 2, the last difference into its own operand. */
    method ComputeOffset(body: seq<Byte>) returns (a: PtpTime)
      requires Valid() && |body| >= 10
      ensures fresh(a)
      ensures a.Value() == Offset(sync.Value(), syncTs.Value(), delayTs.Value(), ParseTimestamp(body))
    {
      hide ParseTimestamp, Diff, Half;
      var t4 := new PtpTime(0, 0, 0);
      a := new PtpTime(0, 0, 0);
      var b := new PtpTime(0, 0, 0);
      ReadTimestamp(body, t4);
      TimeDiff(syncTs, sync, a);
      TimeDiff(t4, delayTs, b);
      TimeDiff(b, a, a);
      TimeDivBy2(a);
    }

    method DelayRespReceived(body: seq<Byte>, inside: nat)
      requires Valid() && |body| >= 10
      modifies this, softClock
      ensures State() == DelayRespTaken(old(State()), body).client
      ensures log == old(log) + DelayRespTaken(old(State()), body).out
    {
      hide ParseTimestamp, Offset, Adjusted;
      if sync.low == 0 && sync.high == 0 {
        return;
      }
      CorrectClock(body, inside);
      FinishMeasurement();
    }

    /** After the correction: the Sync timer has a value, the client is calibrated, and no response
        is awaited. */
    method FinishMeasurement()
      modifies this`syncTimer, this`syncFlags, this`delayPhase, this`log
      ensures syncTimer == (if old(syncTimer) == 0 then SYNC_INTERVAL else old(syncTimer))
      ensures syncFlags == old(syncFlags).(calibrated := true) && delayPhase == DelayIdle
      ensures log == old(log) + if old(syncFlags).calibrated then [] else [SyncEvent(syncFlags, utcOffset)]
    {
      if syncTimer == 0 {
        syncTimer := SYNC_INTERVAL;
      }
      MarkCalibrated();
      delayPhase := DelayIdle;
    }

    /** With the timer interrupts that come while the clock is read, added to and set. */
    method CorrectClock(body: seq<Byte>, inside: nat)
      requires Valid() && |body| >= 10
      modifies this`log, softClock
      ensures var offset := Offset(sync.Value(), syncTs.Value(), delayTs.Value(), ParseTimestamp(body));
              && softClock.Value() == Adjusted(old(softClock.Value()), offset)
              && log == old(log) + [Corrected(offset)]
    {
      hide ParseTimestamp, Offset, Adjusted;
      var a := ComputeOffset(body);
      ClockAdjust(softClock, a, inside);
      log := log + [Corrected(a.Value())];
    }

    method MarkCalibrated()
      modifies this`syncFlags, this`log
      ensures syncFlags == old(syncFlags).(calibrated := true)
      ensures log == old(log) + if old(syncFlags).calibrated then [] else [SyncEvent(syncFlags, utcOffset)]
    {
      if !syncFlags.calibrated {
        syncFlags := syncFlags.(calibrated := true);
        log := log + [SyncEvent(syncFlags, utcOffset)];
      }
    }

    // ----- Announce -----

    method InitPacketReceived(hdr: Header, body: seq<Byte>)
      requires Valid() && |body| >= ANNOUNCE_LEN
      modifies this, sync, syncTs
      ensures State() == AnnounceTaken(old(State()), hdr, body).client
      ensures log == old(log) + AnnounceTaken(old(State()), hdr, body).out
    {
      hide ParseAnnounce, ClockCompare, Followed;
      if cfg.role == MasterOnly {
        return;
      }
      var announce := ParseAnnounce(body);
      if cfg.role == SlaveAndMaster {
        var order := ClockCompare(cfg.clock, announce.clock);
        if order == 0 {
          return;
        } else if order > 0 {
          if phase != Master {
            BecomeMaster();
          }
          return;
        } else if phase == Master {
          StopSending();
          phase := Listening;
        }
      }
      FollowAnnounce(hdr, announce);
    }

    /** The rest of InitPacketReceived: the announced clock is to be followed. */
    method FollowAnnounce(hdr: Header, announce: Announce)
      requires Valid()
      modifies this, sync, syncTs
      ensures State() == Followed(old(State()), hdr, announce).client
      ensures log == old(log) + Followed(old(State()), hdr, announce).out
    {
      hide Bit, Valid;
      var flags := AnnouncedFlags(hdr);
      if phase == Listening {
        BecomeSlave(hdr.source, flags, announce);
      } else {
        UpdateAnnounced(flags, announce.utcOffset);
      }
      announceTimeout := ANNOUNCE_EXPIRATION;
    }

    /** The application hears of news from its master, once calibrated. */
    method UpdateAnnounced(flags: SyncFlags, offset: int)
      requires !flags.calibrated
      modifies this`syncFlags, this`utcOffset, this`log
      ensures syncFlags == flags.(calibrated := old(syncFlags).calibrated) && utcOffset == offset
      ensures log == old(log) + if syncFlags.calibrated && (old(syncFlags) != syncFlags || old(utcOffset) != offset)
                                then [SyncEvent(flags, offset)] else []
    {
      if syncFlags.(calibrated := false) != flags || utcOffset != offset {
        syncFlags := flags.(calibrated := syncFlags.calibrated);
        utcOffset := offset;
        if syncFlags.calibrated {
          log := log + [SyncEvent(flags, offset)];
        }
      }
    }

    /** First Announce: its clock is the master, and no Sync has been heard from it. */
    method BecomeSlave(source: seq<Byte>, flags: SyncFlags, announce: Announce)
      requires Valid()
      modifies this, sync, syncTs
      ensures State() == old(State()).(flags := flags, utcOffset := announce.utcOffset, masterId := source,
                                       phase := Slave, delayPhase := DelayIdle, delayTimer := -1,
                                       delayFlag := true, sync := ZERO, syncTs := ZERO)
      ensures log == old(log) + [MasterEvent(announce.clock)]
    {
      NoteMaster(source, flags, announce);
      StartMeasuring();
    }

    method NoteMaster(source: seq<Byte>, flags: SyncFlags, announce: Announce)
      modifies this`syncFlags, this`utcOffset, this`masterPortIdentity, this`log
      ensures syncFlags == flags && utcOffset == announce.utcOffset && masterPortIdentity == source
      ensures log == old(log) + [MasterEvent(announce.clock)]
    {
      syncFlags := flags;
      utcOffset := announce.utcOffset;
      masterPortIdentity := source;
      log := log + [MasterEvent(announce.clock)];
    }

    /** No Sync is known and a Delay_Req is wanted at the next one. */
    method StartMeasuring()
      requires Valid()
      modifies this`phase, this`delayPhase, this`delayReqTimer, this`delayReqFlag, sync, syncTs
      ensures phase == Slave && delayPhase == DelayIdle && delayReqTimer == -1 && delayReqFlag
      ensures sync.Value() == ZERO && syncTs.Value() == ZERO
    {
      phase := Slave;
      delayPhase := DelayIdle;
      delayReqTimer := -1;
      delayReqFlag := true;
      sync.Reset();
      syncTs.Reset();
    }

    // ----- dispatch -----

    method ProcessEventPacket(hdr: Header, body: seq<Byte>, net: Net)
      requires Valid()
      modifies this, sync, syncTs, delayTs
      ensures State() == EventPacketTaken(old(State()), hdr, body, net).client
      ensures log == old(log) + EventPacketTaken(old(State()), hdr, body, net).out
    {
      hide SyncTaken, Bit;
      if phase != Slave || |body| < 10 {
        return;
      }
      syncTs.Assign(softClock);
      if Bit(hdr.flags, 9) {
        syncId := hdr.sequenceId;
      } else {
        SyncReceived(hdr, body, net);
      }
    }

    method ProcessGeneralPacket(hdr: Header, body: seq<Byte>, net: Net)
      requires Valid()
      modifies this, sync, syncTs, delayTs, softClock
      ensures State() == GeneralPacketTaken(old(State()), hdr, body, net).client
      ensures log == old(log) + GeneralPacketTaken(old(State()), hdr, body, net).out
    {
      hide SyncTaken, AnnounceTaken, DelayRespTaken;
      if hdr.messageType == TYPE_ANNOUNCE {
        if |body| < ANNOUNCE_LEN {
          return;
        }
        InitPacketReceived(hdr, body);
      } else if hdr.messageType == TYPE_FOLLOW_UP {
        if phase != Slave || syncId != hdr.sequenceId || |body| < 10 {
          return;
        }
        SyncReceived(hdr, body, net);
      } else if hdr.messageType == TYPE_DELAY_RESP {
        if delayPhase != WaitResp || delayReqId != hdr.sequenceId || |body| < 20
           || cfg.portId != body[10..20] {
          return;
        }
        DelayRespReceived(body, net.inside);
      }
    }

    /** One round of the receive loop; `usable` is false for a chained packet, one from another
        interface, or one whose sender cannot be told. */
    method ReceivePacket(packet: seq<Byte>, usable: bool, net: Net)
      requires Valid()
      modifies this, sync, syncTs, delayTs, softClock
      ensures State() == PacketTaken(old(State()), packet, usable, net).client
      ensures log == old(log) + PacketTaken(old(State()), packet, usable, net).out
    {
      hide ParseHeader, EventPacketTaken, GeneralPacketTaken;
      var p := ReadHeader(packet, cfg.domain);
      if !usable || p.Dropped? {
        return;
      }
      if phase == Slave && masterPortIdentity != p.hdr.source {
        return;
      }
      if p.hdr.messageType == TYPE_SYNC {
        ProcessEventPacket(p.hdr, p.body, net);
      } else {
        ProcessGeneralPacket(p.hdr, p.body, net);
      }
    }

    // ----- timer event -----

    method SendAnnounce(net: Net)
      requires Valid()
      modifies this
      ensures State() == old(State()).(
                seqId := if net.granted then (old(sequenceId) + 1) % 0x1_0000 else old(sequenceId))
      ensures log == old(log) + if net.granted && net.sent then
                [AnnounceSent(AnnounceBytes(cfg.transport, cfg.domain, cfg.portId, sequenceId, cfg.clock))] else []
    {
      hide AnnounceBytes;
      if !net.granted {
        return;
      }
      sequenceId := (sequenceId + 1) % 0x1_0000;
      var packet := NewAnnounce(cfg.transport, cfg.domain, cfg.portId, sequenceId, cfg.clock);
      if net.sent {
        log := log + [AnnounceSent(packet)];
      }
    }

    method SendSync(net: Net)
      requires Valid()
      modifies this
      ensures State() == old(State()).(
                seqId := if net.granted then (old(sequenceId) + 1) % 0x1_0000 else old(sequenceId))
      ensures log == old(log) + if net.granted && net.sent then [SyncSent(sequenceId)] else []
    {
      if net.granted {
        sequenceId := (sequenceId + 1) % 0x1_0000;
        if net.sent {
          log := log + [SyncSent(sequenceId)];
        }
      }
    }

    method TimerEvent(announce: Net, syncNet: Net)
      requires Valid()
      modifies this
      ensures State() == Ticking(old(State()), announce, syncNet).client
      ensures log == old(log) + Ticking(old(State()), announce, syncNet).out
    {
      hide AnnounceTick, SyncTick, TimeoutTick;
      AnnounceCountdown(announce);
      SyncCountdown(syncNet);
      TimeoutCountdown();
      if delayReqTimer > 0 {
        delayReqTimer := delayReqTimer - 1;
        if delayReqTimer == 0 {
          delayReqFlag := true;
        }
      }
    }

    method AnnounceCountdown(net: Net)
      requires Valid()
      modifies this
      ensures State() == AnnounceTick(old(State()), net).client
      ensures log == old(log) + AnnounceTick(old(State()), net).out
    {
      hide AnnounceBytes;
      if announceTimer > 0 {
        announceTimer := announceTimer - 1;
        if announceTimer == 0 {
          SendAnnounce(net);
          announceTimer := ANNOUNCE_INTERVAL;
        }
      }
    }

    method SyncCountdown(net: Net)
      requires Valid()
      modifies this
      ensures State() == SyncTick(old(State()), net).client
      ensures log == old(log) + SyncTick(old(State()), net).out
    {
      if syncTimer > 0 {
        syncTimer := syncTimer - 1;
        if syncTimer == 0 {
          SendSync(net);
          syncTimer := SYNC_INTERVAL;
        }
      }
    }

    method TimeoutCountdown()
      requires Valid()
      modifies this
      ensures State() == TimeoutTick(old(State())).client
      ensures log == old(log) + TimeoutTick(old(State())).out
    {
      if announceTimeout > 0 {
        announceTimeout := announceTimeout - 1;
        if announceTimeout == 0 {
          if cfg.role == SlaveOnly {
            phase := Listening;
            delayReqTimer := -1;
            announceTimeout := -1;
            log := log + [TimeoutEvent];
          } else {
            BecomeMaster();
          }
        }
      }
    }

    // ----- any event -----

    method Handle(e: Event)
      requires Valid() && EventFits(e)
      modifies this, sync, syncTs, delayTs, softClock
      ensures State() == Step(old(State()), e).client
      ensures log == old(log) + Step(old(State()), e).out
    {
      hide Started, Ticked, Ticking, PacketTaken, Notified;
      match e
      case ThreadStart(setting) =>
        if setting.SetClock? {
          var time := NewTime(setting.time);
          TimeSet(time);
        }
        ThreadEntry();
      case TimerInterrupt => TimerHandler();
      case Tick(announce, syncNet) => TimerEvent(announce, syncNet);
      case Receive(packet, usable, net) => ReceivePacket(packet, usable, net);
      case TimestampNotify(packet, timestamp) =>
        var time := NewTime(timestamp);
        PacketTimestampNotify(packet, time);
    }
  }

  predicate FitsLimbs(t: Time) {
    IsInt64(t.sec) && -0x8000_0000 <= t.ns < 0x8000_0000
  }

  predicate EventFits(e: Event) {
    match e
    case ThreadStart(SetClock(time)) => FitsLimbs(time)
    case TimestampNotify(_, timestamp) => FitsLimbs(timestamp)
    case _ => true
  }

  method NewTime(t: Time) returns (time: PtpTime)
    requires FitsLimbs(t)
    ensures fresh(time) && time.Value() == t
  {
    time := new PtpTime(t.sec / 0x1_0000_0000, t.sec % 0x1_0000_0000, t.ns);
  }

  /** A created client whose thread starts and then meets the events is where a run of the step
      function ends: what holds of every run holds of this object. */
  method RunClient(cfg: Config, high: Long, low: ULong, nano: Long, events: seq<Event>) returns (p: PtpClient)
    requires ValidConfig(cfg)
    requires forall e :: e in events ==> EventFits(e)
    ensures p.Valid() && p.State() == After(cfg, Time(Join(high, low), nano), events).client
    ensures p.log == Outputs(cfg, Time(Join(high, low), nano), events)
  {
    hide Step, Observed, EventFits, Started;
    ghost var clock := Time(Join(high, low), nano);
    p := new PtpClient(cfg, high, low, nano);
    p.ThreadEntry();
    StartIsStep(cfg, clock);
    for i := 0 to |events|
      invariant p.Valid() && p.State() == After(cfg, clock, events[..i]).client
      invariant p.log == Outputs(cfg, clock, events[..i])
      invariant fresh(p) && fresh(p.sync) && fresh(p.syncTs) && fresh(p.delayTs) && fresh(p.softClock)
    {
      assert events[..i + 1][..i] == events[..i] && events[i] in events;
      p.Handle(events[i]);
    }
    assert events[..|events|] == events;
  }

  lemma StartIsStep(cfg: Config, clock: Time)
    requires ValidConfig(cfg)
    ensures After(cfg, clock, []).client == Started(Created(cfg, clock)).client
    ensures Outputs(cfg, clock, []) == Started(Created(cfg, clock)).out
  {
  }
}
