/** The PTP client as a step function: each event takes a client to the next client and to
    what it sends, corrects and reports. A SlaveOnly role is the slave-only build. */
module Client {
  import opened Words
  import opened PtpTime
  import opened SoftClock
  import opened ClockOrder
  import opened Wire

  const ANNOUNCE_EXPIRATION := 600
  const DELAY_REQ_INTERVAL := 200
  const ANNOUNCE_INTERVAL := 200
  const SYNC_INTERVAL := 12

  datatype Role = SlaveOnly | MasterOnly | SlaveAndMaster
  datatype Phase = Listening | Slave | Master
  datatype DelayPhase = DelayIdle | WaitReqTs | WaitResp
  datatype SyncFlags = SyncFlags(calibrated: bool, utcReasonable: bool, leap59: bool, leap61: bool)

  /** What start and master_enable fix for the life of a client. */
  datatype Config = Config(role: Role, domain: Byte, transport: Byte, portId: seq<Byte>, clock: ClockInfo)

  predicate ValidConfig(cfg: Config) {
    |cfg.portId| == 10 && cfg.clock.identity == cfg.portId[..8]
  }

  datatype Client = Client(
    cfg: Config,
    phase: Phase,
    delayPhase: DelayPhase,
    delayTimer: int,
    delayFlag: bool,
    announceTimeout: int,
    announceTimer: int,
    syncTimer: int,
    seqId: UShort,
    flags: SyncFlags,
    utcOffset: int,
    masterId: seq<Byte>,
    sync: Time,         // t1, the master's timestamp of the last Sync
    syncTs: Time,       // t2, our timestamp of the last Sync
    delayTs: Time,      // t3, our timestamp of the last Delay_Req
    clock: Time,
    syncId: UShort,
    delayReqId: UShort,
    delayPacket: int)

  /** What the surroundings do while a message is handled: how one packet allocation and
      transmission turn out (packet names the allocated one), and how many timer interrupts come
      between reading the clock and setting it anew. */
  datatype Net = Net(granted: bool, packet: int, sent: bool, inside: nat)

  /** The application may set the clock, but only of a client that is stopped. */
  datatype ClockSetting = KeepClock | SetClock(time: Time)

  /** A thread start is the first one or one after a stop; the clock may have been set before it. */
  datatype Event =
    | ThreadStart(setting: ClockSetting)
    | TimerInterrupt
    | Tick(announce: Net, sync: Net)
    | Receive(packet: seq<Byte>, usable: bool, net: Net)
    | TimestampNotify(handle: int, timestamp: Time)

  datatype Output =
    | DelayReqSent(bytes: seq<Byte>, id: UShort, t3: Time)
    | AnnounceSent(announce: seq<Byte>)
    | SyncSent(syncId: UShort)
    | Corrected(offset: Time)
    | MasterEvent(master: ClockInfo)
    | SyncEvent(flags: SyncFlags, utcOffset: int)
    | TimeoutEvent

  datatype Next = Next(client: Client, out: seq<Output>)

  const NO_FLAGS := SyncFlags(false, false, false, false)

  /** A client just created: all fields zero, the clock as it was set. */
  function Created(cfg: Config, clock: Time): Client {
    Client(cfg, Listening, DelayIdle, 0, false, 0, 0, 0, 0, NO_FLAGS, 0, Zeros(10),
           ZERO, ZERO, ZERO, clock, 0, 0, 0)
  }

  function Started(c: Client): (n: Next)
    ensures n.client.cfg == c.cfg
  {
    if c.cfg.role == MasterOnly then
      Next(c.(announceTimer := ANNOUNCE_INTERVAL, syncTimer := SYNC_INTERVAL, phase := Master),
           [MasterEvent(c.cfg.clock)])
    else
      Next(c.(announceTimer := -1, syncTimer := -1, delayTimer := -1,
              announceTimeout := ANNOUNCE_EXPIRATION, phase := Listening), [])
  }

  function ClockSet(c: Client, setting: ClockSetting): Client {
    match setting
    case KeepClock => c
    case SetClock(time) => c.(clock := time)
  }

  /** A transmit timestamp is taken only from the packet it is awaited for. */
  function Notified(c: Client, packet: int, timestamp: Time): Client {
    if c.delayPhase == WaitReqTs && c.delayPacket == packet then
      c.(delayTs := timestamp, delayPhase := WaitResp)
    else c
  }

  /** The next request is numbered and announced to the clock, which stamps it at once. */
  function DelayReqPrepared(c: Client, packet: int): (p: Client)
    ensures p.cfg == c.cfg
  {
    var id := (c.delayReqId + 1) % 0x1_0000;
    Notified(c.(delayReqId := id, delayPhase := WaitReqTs, delayPacket := packet), packet, c.clock)
  }

  function DelayReqTried(c: Client, net: Net): (n: Next)
    requires ValidConfig(c.cfg)
    ensures n.client.cfg == c.cfg
  {
    if !net.granted then Next(c, [])
    else
      var p := DelayReqPrepared(c, net.packet);
      if !net.sent then Next(p.(delayPhase := DelayIdle, delayPacket := 0), [])
      else
        var bytes := DelayReqBytes(c.cfg.transport, c.cfg.domain, c.cfg.portId, p.delayReqId);
        Next(p.(delayTimer := DELAY_REQ_INTERVAL, delayFlag := false),
             [DelayReqSent(bytes, p.delayReqId, p.delayTs)])
  }

  /** The master's timestamp with the correction field added. */
  function CorrectedSync(hdr: Header, body: seq<Byte>): Time
    requires |body| >= 10
  {
    var ns := CorrectionNs(hdr);
    if ns == 0 then ParseTimestamp(body)
    else Sum(ParseTimestamp(body), Time(ns / 1_000_000_000, ns % 1_000_000_000))
  }

  function SyncTaken(c: Client, hdr: Header, body: seq<Byte>, net: Net): (n: Next)
    requires ValidConfig(c.cfg) && |body| >= 10
    ensures n.client.cfg == c.cfg
  {
    var c1 := c.(sync := CorrectedSync(hdr, body));
    if c.delayFlag then DelayReqTried(c1, net) else Next(c1, [])
  }

  /** offset = ((t4 - t3) - (t2 - t1)) / 2 */
  function Offset(t1: Time, t2: Time, t3: Time, t4: Time): Time {
    Half(Diff(Diff(t4, t3), Diff(t2, t1)))
  }

  function DelayRespTaken(c: Client, body: seq<Byte>): (n: Next)
    requires |body| >= 10
    ensures n.client.cfg == c.cfg
  {
    if c.sync.sec == 0 then Next(c, [])
    else
      var offset := Offset(c.sync, c.syncTs, c.delayTs, ParseTimestamp(body));
      var flags := c.flags.(calibrated := true);
      Next(c.(clock := Adjusted(c.clock, offset), flags := flags, delayPhase := DelayIdle,
              syncTimer := if c.syncTimer == 0 then SYNC_INTERVAL else c.syncTimer),
           [Corrected(offset)] + if c.flags.calibrated then [] else [SyncEvent(flags, c.utcOffset)])
  }

  function AnnouncedFlags(hdr: Header): SyncFlags {
    SyncFlags(false, Bit(hdr.flags, 2), Bit(hdr.flags, 1), Bit(hdr.flags, 0))
  }

  /** The announced clock is followed: newly when listening, again when already a slave. */
  function Followed(c: Client, hdr: Header, a: Announce): (n: Next)
    ensures n.client.cfg == c.cfg
  {
    var flags := AnnouncedFlags(hdr);
    if c.phase == Listening then
      Next(c.(flags := flags, utcOffset := a.utcOffset, masterId := hdr.source,
              phase := Slave, delayPhase := DelayIdle, delayTimer := -1, delayFlag := true,
              sync := ZERO, syncTs := ZERO, announceTimeout := ANNOUNCE_EXPIRATION),
           [MasterEvent(a.clock)])
    else if c.flags.(calibrated := false) != flags || c.utcOffset != a.utcOffset then
      Next(c.(flags := flags.(calibrated := c.flags.calibrated), utcOffset := a.utcOffset,
              announceTimeout := ANNOUNCE_EXPIRATION),
           if c.flags.calibrated then [SyncEvent(flags, a.utcOffset)] else [])
    else
      Next(c.(announceTimeout := ANNOUNCE_EXPIRATION), [])
  }

  function Promoted(c: Client): Client {
    c.(phase := Master, announceTimer := ANNOUNCE_INTERVAL, syncTimer := SYNC_INTERVAL)
  }

  function Demoted(c: Client): Client {
    if c.phase == Master then c.(phase := Listening, announceTimer := -1, syncTimer := -1) else c
  }

  function AnnounceTaken(c: Client, hdr: Header, body: seq<Byte>): (n: Next)
    requires ValidConfig(c.cfg) && |body| >= ANNOUNCE_LEN
    ensures n.client.cfg == c.cfg
  {
    var a := ParseAnnounce(body);
    if c.cfg.role == MasterOnly then Next(c, [])
    else if c.cfg.role == SlaveOnly then Followed(c, hdr, a)
    else
      var order := ClockCompare(c.cfg.clock, a.clock);
      if order == 0 then Next(c, [])
      else if order > 0 then
        if c.phase != Master then Next(Promoted(c), [MasterEvent(c.cfg.clock)]) else Next(c, [])
      else Followed(Demoted(c), hdr, a)
  }

  function EventPacketTaken(c: Client, hdr: Header, body: seq<Byte>, net: Net): (n: Next)
    requires ValidConfig(c.cfg)
    ensures n.client.cfg == c.cfg
  {
    if c.phase != Slave || |body| < 10 then Next(c, [])
    else
      var c1 := c.(syncTs := c.clock);
      if Bit(hdr.flags, 9) then Next(c1.(syncId := hdr.sequenceId), [])
      else SyncTaken(c1, hdr, body, net)
  }

  predicate RespMatches(c: Client, hdr: Header, body: seq<Byte>) {
    && c.delayPhase == WaitResp
    && c.delayReqId == hdr.sequenceId
    && |body| >= 20
    && c.cfg.portId == body[10..20]
  }

  function GeneralPacketTaken(c: Client, hdr: Header, body: seq<Byte>, net: Net): (n: Next)
    requires ValidConfig(c.cfg)
    ensures n.client.cfg == c.cfg
  {
    if hdr.messageType == TYPE_ANNOUNCE then
      if |body| < ANNOUNCE_LEN then Next(c, []) else AnnounceTaken(c, hdr, body)
    else if hdr.messageType == TYPE_FOLLOW_UP then
      if c.phase != Slave || c.syncId != hdr.sequenceId || |body| < 10 then Next(c, [])
      else SyncTaken(c, hdr, body, net)
    else if hdr.messageType == TYPE_DELAY_RESP && RespMatches(c, hdr, body) then DelayRespTaken(c, body)
    else Next(c, [])
  }

  /** A slave hears only its master. */
  predicate Heard(c: Client, hdr: Header) {
    c.phase == Slave ==> hdr.source == c.masterId
  }

  function PacketTaken(c: Client, packet: seq<Byte>, usable: bool, net: Net): (n: Next)
    requires ValidConfig(c.cfg)
    ensures n.client.cfg == c.cfg
  {
    var p := ParseHeader(packet, c.cfg.domain);
    if !usable || p.Dropped? || !Heard(c, p.hdr) then Next(c, [])
    else if p.hdr.messageType == TYPE_SYNC then EventPacketTaken(c, p.hdr, p.body, net)
    else GeneralPacketTaken(c, p.hdr, p.body, net)
  }

  // ----- the four countdowns of a timer event -----

  function AnnounceTick(c: Client, net: Net): (n: Next)
    requires ValidConfig(c.cfg)
    ensures n.client.cfg == c.cfg
  {
    if c.announceTimer <= 0 then Next(c, [])
    else if c.announceTimer > 1 then Next(c.(announceTimer := c.announceTimer - 1), [])
    else
      var c1 := c.(announceTimer := ANNOUNCE_INTERVAL);
      if !net.granted then Next(c1, [])
      else
        var id := (c.seqId + 1) % 0x1_0000;
        Next(c1.(seqId := id),
             if net.sent then
               [AnnounceSent(AnnounceBytes(c.cfg.transport, c.cfg.domain, c.cfg.portId, id, c.cfg.clock))]
             else [])
  }

  function SyncTick(c: Client, net: Net): (n: Next)
    ensures n.client.cfg == c.cfg
  {
    if c.syncTimer <= 0 then Next(c, [])
    else if c.syncTimer > 1 then Next(c.(syncTimer := c.syncTimer - 1), [])
    else
      var c1 := c.(syncTimer := SYNC_INTERVAL);
      if !net.granted then Next(c1, [])
      else
        var id := (c.seqId + 1) % 0x1_0000;
        Next(c1.(seqId := id), if net.sent then [SyncSent(id)] else [])
  }

  function TimeoutTick(c: Client): (n: Next)
    ensures n.client.cfg == c.cfg
  {
    if c.announceTimeout <= 0 then Next(c, [])
    else if c.announceTimeout > 1 then Next(c.(announceTimeout := c.announceTimeout - 1), [])
    else if c.cfg.role == SlaveOnly then
      Next(c.(phase := Listening, delayTimer := -1, announceTimeout := -1), [TimeoutEvent])
    else
      Next(Promoted(c.(announceTimeout := 0)), [MasterEvent(c.cfg.clock)])
  }

  function DelayTick(c: Client): Client {
    if c.delayTimer <= 0 then c
    else c.(delayTimer := c.delayTimer - 1, delayFlag := c.delayFlag || c.delayTimer == 1)
  }

  function Ticking(c: Client, announce: Net, sync: Net): (n: Next)
    requires ValidConfig(c.cfg)
    ensures n.client.cfg == c.cfg
  {
    var a := AnnounceTick(c, announce);
    var s := SyncTick(a.client, sync);
    var t := TimeoutTick(s.client);
    Next(DelayTick(t.client), a.out + s.out + t.out)
  }

  function Step(c: Client, e: Event): (n: Next)
    requires ValidConfig(c.cfg)
    ensures n.client.cfg == c.cfg
  {
    match e
    case ThreadStart(setting) => Started(ClockSet(c, setting))
    case TimerInterrupt => Next(c.(clock := Ticked(c.clock)), [])
    case Tick(announce, sync) => Ticking(c, announce, sync)
    case Receive(packet, usable, net) => PacketTaken(c, packet, usable, net)
    case TimestampNotify(handle, timestamp) => Next(Notified(c, handle, timestamp), [])
  }
}
