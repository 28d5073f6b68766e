/** Master election among any number of nodes over a network that loses, repeats, delays and
    reorders Announces. */
module Election {
  import opened Words
  import opened PtpTime
  import opened ClockOrder
  import opened Wire
  import opened Client
  import opened ClientRuns
  import opened Freshness

  datatype Sent = Sent(from: nat, bytes: seq<Byte>)

  /** The nodes, and every Announce ever handed to the network: it may be delivered at any time
      to any node, any number of times or never. */
  datatype Network = Network(nodes: seq<Client>, sent: set<Sent>)

  datatype Action = At(node: nat, event: Event)

  predicate ValidNodes(cfgs: seq<Config>) {
    && (forall i :: 0 <= i < |cfgs| ==> ValidConfig(cfgs[i]))
    && (forall i, j :: 0 <= i < |cfgs| && 0 <= j < |cfgs| && i != j ==>
          cfgs[i].clock.identity != cfgs[j].clock.identity)
  }

  predicate LooksLikeAnnounce(packet: seq<Byte>) {
    |packet| > 0 && packet[0] % 16 == TYPE_ANNOUNCE
  }

  /** Packets of other types are arbitrary; an Announce is one that was sent. */
  predicate Allowed(s: Network, a: Action) {
    && a.node < |s.nodes|
    && (a.event.Receive? && LooksLikeAnnounce(a.event.packet) ==>
          exists m :: m in s.sent && m.bytes == a.event.packet)
  }

  function Announced(node: nat, out: seq<Output>): set<Sent> {
    set o | o in out && o.AnnounceSent? :: Sent(node, o.announce)
  }

  predicate Configured(s: Network) {
    forall i :: 0 <= i < |s.nodes| ==> ValidConfig(s.nodes[i].cfg)
  }

  function Act(s: Network, a: Action): (t: Network)
    requires Configured(s) && a.node < |s.nodes|
    ensures Configured(t) && |t.nodes| == |s.nodes|
  {
    var n := Step(s.nodes[a.node], a.event);
    Network(s.nodes[a.node := n.client], s.sent + Announced(a.node, n.out))
  }

  /** Every node has started its thread; nothing has been sent. */
  function Boot(cfgs: seq<Config>, clocks: seq<Time>): (s: Network)
    requires ValidNodes(cfgs) && |clocks| == |cfgs|
    ensures Configured(s)
  {
    Network(seq(|cfgs|, i requires 0 <= i < |cfgs| => Started(Created(cfgs[i], clocks[i])).client), {})
  }

  predicate Possible(s: Network, actions: seq<Action>)
    requires Configured(s)
    decreases |actions|
  {
    actions == [] || (Allowed(s, actions[0]) && Possible(Act(s, actions[0]), actions[1..]))
  }

  function Reached(s: Network, actions: seq<Action>): (t: Network)
    requires Configured(s) && Possible(s, actions)
    ensures Configured(t)
    decreases |actions|
  {
    if actions == [] then s else Reached(Act(s, actions[0]), actions[1..])
  }

  // ----- what every run keeps -----

  function AnnounceOf(cfg: Config, id: UShort): (packet: seq<Byte>)
    requires ValidConfig(cfg)
    ensures |packet| == 76
  {
    AnnounceBytes(cfg.transport, cfg.domain, cfg.portId, id, cfg.clock)
  }

  ghost predicate AnnounceFrom(cfg: Config, packet: seq<Byte>)
    requires ValidConfig(cfg)
  {
    cfg.role != SlaveOnly && exists id: UShort :: packet == AnnounceOf(cfg, id)
  }

  /** A node so configured may follow the other. */
  predicate MayFollow(cfg: Config, other: Config) {
    && other.role != SlaveOnly
    && other.domain == cfg.domain
    && (cfg.role == SlaveAndMaster ==> Better(other.clock, cfg.clock))
  }

  predicate HasMaster(cfgs: seq<Config>, c: Client, j: nat) {
    j < |cfgs| && c.masterId == cfgs[j].portId && MayFollow(c.cfg, cfgs[j])
  }

  predicate TimersAgree(c: Client) {
    && (if c.phase == Master then 1 <= c.announceTimer <= 200 && 1 <= c.syncTimer <= 12
        else c.announceTimer == -1 == c.syncTimer)
    && (c.phase == Slave || (c.phase == Listening && c.cfg.role == SlaveAndMaster) ==> 1 <= c.announceTimeout <= 600)
    && (c.cfg.role == SlaveOnly ==> c.phase != Master)
    && (c.cfg.role == MasterOnly ==> c.phase == Master)
  }

  ghost predicate NodeSafe(cfgs: seq<Config>, c: Client) {
    TimersAgree(c) && (c.phase == Slave ==> exists j :: HasMaster(cfgs, c, j))
  }

  ghost predicate Safe(cfgs: seq<Config>, s: Network)
    requires ValidNodes(cfgs)
  {
    && |s.nodes| == |cfgs|
    && (forall i :: 0 <= i < |cfgs| ==> s.nodes[i].cfg == cfgs[i] && NodeSafe(cfgs, s.nodes[i]))
    && (forall m :: m in s.sent ==> m.from < |cfgs| && AnnounceFrom(cfgs[m.from], m.bytes))
  }

  /** What a printed Announce means to a node. */
  lemma PrintedAnnounce(c: Client, from: Config, id: UShort, e: Event)
    requires ValidConfig(c.cfg) && ValidConfig(from) && e.Receive? && e.packet == AnnounceOf(from, id)
    ensures Follows(c, e) <==>
              && e.usable && from.domain == c.cfg.domain
              && (c.phase == Slave ==> c.masterId == from.portId)
              && (match c.cfg.role
                  case MasterOnly => false
                  case SlaveOnly => true
                  case SlaveAndMaster => from.clock.identity != c.cfg.clock.identity && Better(from.clock, c.cfg.clock))
    ensures Follows(c, e) ==> ParseHeader(e.packet, c.cfg.domain).hdr.source == from.portId
    ensures c.phase == Slave && c.masterId != from.portId ==> Step(c, e) == Next(c, [])
    ensures e.packet[20..30] == from.portId
  {
    hide ParseHeader, AnnounceBytes, ParseAnnounce, Number, ClockCompare;
    AnnounceForeignDomain(from.transport, from.domain, from.portId, id, from.clock, c.cfg.domain);
    AnnounceRoundTrip(from.transport, from.domain, from.portId, id, from.clock);
    SourceBytes(from, id);
  }

  lemma SourceBytes(from: Config, id: UShort)
    requires ValidConfig(from)
    ensures AnnounceOf(from, id)[20..30] == from.portId
    ensures LooksLikeAnnounce(AnnounceOf(from, id))
  {
    var h := HeaderBytes(from.transport % 16 * 16 + TYPE_ANNOUNCE, 76, from.domain, 8, from.portId, id, 5);
    assert h[20..30] == from.portId;
    assert AnnounceOf(from, id)[20..30] == h[20..30];
  }

  // ----- one step of one node -----

  /** Following an announced clock: entered from Listening or Master, renewed as a slave. */
  lemma FollowEffect(c: Client, e: Event)
    requires ValidConfig(c.cfg) && e.Receive? && TimersAgree(c) && Follows(c, e)
    ensures var n := Step(c, e);
            && n.client.phase == Slave && n.client.announceTimeout == 600
            && n.client.announceTimer == -1 == n.client.syncTimer
            && n.client.masterId == ParseHeader(e.packet, c.cfg.domain).hdr.source
            && (forall o :: o in n.out ==> !o.AnnounceSent?)
  {
    hide ParseHeader, ParseAnnounce, Follows, Bit, PacketTaken;
    PacketCases(c, e);
    FollowsHeard(c, e);
  }

  lemma FollowsHeard(c: Client, e: Event)
    requires ValidConfig(c.cfg) && e.Receive? && Follows(c, e)
    ensures c.phase == Slave ==> ParseHeader(e.packet, c.cfg.domain).hdr.source == c.masterId
    ensures LooksLikeAnnounce(e.packet) && c.cfg.role != MasterOnly
  {
    hide ParseAnnounce, Better, Be16, Be32;
  }

  /** A countdown that starts again at its interval; one that is not running stays. */
  function Countdown(timer: int, interval: int): int {
    if timer == 1 then interval else if timer > 1 then timer - 1 else timer
  }

  lemma AnnounceTickEffect(c: Client, net: Net)
    requires ValidConfig(c.cfg)
    ensures var n := AnnounceTick(c, net);
            && n.client.announceTimer == Countdown(c.announceTimer, ANNOUNCE_INTERVAL)
            && n.client.syncTimer == c.syncTimer && n.client.announceTimeout == c.announceTimeout
            && (forall o :: o in n.out && o.AnnounceSent? ==>
                  c.announceTimer == 1 && exists id: UShort :: o.announce == AnnounceOf(c.cfg, id))
  {
    hide AnnounceBytes;
    var a := AnnounceTick(c, net);
    if a.out != [] {
      assert a.out[0].announce == AnnounceOf(c.cfg, a.client.seqId);
    }
  }

  lemma SyncTickEffect(c: Client, net: Net)
    requires ValidConfig(c.cfg)
    ensures var n := SyncTick(c, net);
            && n.client.announceTimer == c.announceTimer && n.client.announceTimeout == c.announceTimeout
            && n.client.syncTimer == Countdown(c.syncTimer, SYNC_INTERVAL)
            && (forall o :: o in n.out ==> !o.AnnounceSent?)
  {
  }

  lemma TimeoutTickEffect(c: Client)
    ensures var n := TimeoutTick(c);
            && (if c.announceTimeout == 1 && c.cfg.role != SlaveOnly then
                  n.client.announceTimer == ANNOUNCE_INTERVAL && n.client.syncTimer == SYNC_INTERVAL
                else n.client.announceTimer == c.announceTimer && n.client.syncTimer == c.syncTimer)
            && (forall o :: o in n.out ==> !o.AnnounceSent?)
  {
  }

  /** The sending half of a timer event. */
  lemma SendTimersEffect(c: Client, announce: Net, sync: Net)
    requires ValidConfig(c.cfg)
    ensures var n := Ticking(c, announce, sync);
            && (c.announceTimeout == 1 && c.cfg.role != SlaveOnly ==>
                  n.client.announceTimer == ANNOUNCE_INTERVAL && n.client.syncTimer == SYNC_INTERVAL)
            && (!(c.announceTimeout == 1 && c.cfg.role != SlaveOnly) ==>
                  && n.client.announceTimer == Countdown(c.announceTimer, ANNOUNCE_INTERVAL)
                  && n.client.syncTimer == Countdown(c.syncTimer, SYNC_INTERVAL))
            && (forall o :: o in n.out && o.AnnounceSent? ==>
                  c.announceTimer == 1 && exists id: UShort :: o.announce == AnnounceOf(c.cfg, id))
  {
    hide AnnounceOf, AnnounceTick, SyncTick, TimeoutTick, Countdown;
    var a := AnnounceTick(c, announce);
    var s := SyncTick(a.client, sync);
    AnnounceTickEffect(c, announce);
    SyncTickEffect(a.client, sync);
    TimeoutTickEffect(s.client);
  }

  lemma TickSafe(cfgs: seq<Config>, c: Client, e: Event)
    requires ValidConfig(c.cfg) && e.Tick? && NodeSafe(cfgs, c)
    ensures NodeSafe(cfgs, Step(c, e).client)
    ensures forall o :: o in Step(c, e).out && o.AnnounceSent? ==> AnnounceFrom(c.cfg, o.announce)
  {
    hide Ticking, AnnounceOf, MayFollow;
    TickEffect(c, e.announce, e.sync);
    SendTimersEffect(c, e.announce, e.sync);
    if c.phase == Slave && c.announceTimeout > 1 {
      var j :| HasMaster(cfgs, c, j);
      assert HasMaster(cfgs, Step(c, e).client, j);
    }
  }

  lemma PacketSafe(cfgs: seq<Config>, c: Client, e: Event)
    requires ValidNodes(cfgs) && ValidConfig(c.cfg) && e.Receive? && NodeSafe(cfgs, c)
    requires LooksLikeAnnounce(e.packet) ==> exists j :: 0 <= j < |cfgs| && AnnounceFrom(cfgs[j], e.packet)
    ensures NodeSafe(cfgs, Step(c, e).client)
    ensures forall o :: o in Step(c, e).out ==> !o.AnnounceSent?
  {
    hide PacketTaken, Follows, ParseHeader, AnnounceOf, Rank;
    if Follows(c, e) {
      FollowEffect(c, e);
      FollowsHeard(c, e);
      var j :| 0 <= j < |cfgs| && AnnounceFrom(cfgs[j], e.packet);
      var id: UShort :| e.packet == AnnounceOf(cfgs[j], id);
      PrintedAnnounce(c, cfgs[j], id, e);
      assert HasMaster(cfgs, Step(c, e).client, j);
    } else {
      UnfollowedStep(c, e);
      if c.phase == Slave && SameAnnounceSide(c, Step(c, e)) {
        var j :| HasMaster(cfgs, c, j);
        assert HasMaster(cfgs, Step(c, e).client, j);
      }
    }
  }

  lemma QuietSafe(cfgs: seq<Config>, c: Client, e: Event)
    requires ValidConfig(c.cfg) && NodeSafe(cfgs, c) && !e.Tick? && !e.Receive?
    ensures NodeSafe(cfgs, Step(c, e).client)
    ensures forall o :: o in Step(c, e).out ==> !o.AnnounceSent?
  {
    hide MayFollow;
    if c.phase == Slave && !e.ThreadStart? {
      var j :| HasMaster(cfgs, c, j);
      assert HasMaster(cfgs, Step(c, e).client, j);
    }
  }

  lemma NodeStep(cfgs: seq<Config>, s: Network, a: Action)
    requires ValidNodes(cfgs) && Safe(cfgs, s) && Allowed(s, a)
    ensures var n := Step(s.nodes[a.node], a.event);
            && NodeSafe(cfgs, n.client)
            && (forall o :: o in n.out && o.AnnounceSent? ==> AnnounceFrom(cfgs[a.node], o.announce))
  {
    hide NodeSafe, AnnounceFrom, Step;
    var c := s.nodes[a.node];
    if a.event.Receive? {
      PacketSafe(cfgs, c, a.event);
    } else if a.event.Tick? {
      TickSafe(cfgs, c, a.event);
    } else {
      QuietSafe(cfgs, c, a.event);
    }
  }

  lemma ActSafe(cfgs: seq<Config>, s: Network, a: Action)
    requires ValidNodes(cfgs) && Safe(cfgs, s) && Allowed(s, a)
    ensures Safe(cfgs, Act(s, a))
  {
    hide NodeSafe, AnnounceFrom;
    NodeStep(cfgs, s, a);
    hide Step;
  }

  // ----- safety of every run -----

  lemma BootSafe(cfgs: seq<Config>, clocks: seq<Time>)
    requires ValidNodes(cfgs) && |clocks| == |cfgs|
    ensures Safe(cfgs, Boot(cfgs, clocks))
  {
    hide HasMaster;
  }

  lemma {:induction false} RunSafe(cfgs: seq<Config>, s: Network, actions: seq<Action>)
    requires ValidNodes(cfgs) && Safe(cfgs, s) && Possible(s, actions)
    ensures Safe(cfgs, Reached(s, actions))
    decreases |actions|
  {
    hide NodeSafe, AnnounceFrom;
    if actions != [] {
      ActSafe(cfgs, s, actions[0]);
      hide Act;
      RunSafe(cfgs, Act(s, actions[0]), actions[1..]);
    }
  }

  /** No node of i's domain that may be followed outranks i. */
  predicate Best(cfgs: seq<Config>, i: nat)
    requires i < |cfgs|
  {
    && cfgs[i].role != SlaveOnly
    && forall j :: 0 <= j < |cfgs| && j != i && cfgs[j].role != SlaveOnly && cfgs[j].domain == cfgs[i].domain ==>
         Better(cfgs[i].clock, cfgs[j].clock)
  }

  /** Election safety, in every state that any run reaches: each slave follows a node that may be
      master, strictly better than itself if it has a clock of its own; the best clock is never a
      slave; a node's announce and Sync timers run exactly while it is master. */
  lemma ElectionIsSafe(cfgs: seq<Config>, clocks: seq<Time>, actions: seq<Action>)
    requires ValidNodes(cfgs) && |clocks| == |cfgs| && Possible(Boot(cfgs, clocks), actions)
    ensures var s := Reached(Boot(cfgs, clocks), actions);
            && |s.nodes| == |cfgs|
            && forall i :: 0 <= i < |cfgs| ==>
                 && s.nodes[i].cfg == cfgs[i]
                 && (s.nodes[i].phase == Slave ==> exists j :: HasMaster(cfgs, s.nodes[i], j))
                 && (Best(cfgs, i) ==> s.nodes[i].phase != Slave)
                 && (s.nodes[i].announceTimer > 0 <==> s.nodes[i].phase == Master)
                 && (s.nodes[i].syncTimer > 0 <==> s.nodes[i].phase == Master)
  {
    BootSafe(cfgs, clocks);
    RunSafe(cfgs, Boot(cfgs, clocks), actions);
    hide Boot, Reached, Possible, Rank, AnnounceFrom;
    var s := Reached(Boot(cfgs, clocks), actions);
    forall i | 0 <= i < |cfgs| && s.nodes[i].phase == Slave
      ensures !Best(cfgs, i)
    {
      var j :| HasMaster(cfgs, s.nodes[i], j);
    }
  }

  /** A sequence of nodes in which each is a slave of the next. */
  predicate Chain(cfgs: seq<Config>, s: Network, path: seq<nat>) {
    && |s.nodes| == |cfgs|
    && (forall k :: 0 <= k < |path| ==> path[k] < |cfgs|)
    && forall k :: 0 <= k < |path| - 1 ==>
         s.nodes[path[k]].phase == Slave && HasMaster(cfgs, s.nodes[path[k]], path[k + 1])
  }

  lemma {:induction false} ChainClimbs(cfgs: seq<Config>, s: Network, path: seq<nat>)
    requires ValidNodes(cfgs) && Safe(cfgs, s) && Chain(cfgs, s, path) && |path| >= 2
    ensures var first, last := cfgs[path[0]], cfgs[path[|path| - 1]];
            && last.role != SlaveOnly
            && (first.role == SlaveAndMaster ==> Better(last.clock, first.clock))
            && first.role != MasterOnly
    decreases |path|
  {
    hide AnnounceFrom, Rank;
    assert HasMaster(cfgs, s.nodes[path[0]], path[1]);
    if |path| > 2 {
      var rest := path[1..];
      forall k | 0 <= k < |rest| - 1
        ensures s.nodes[rest[k]].phase == Slave && HasMaster(cfgs, s.nodes[rest[k]], rest[k + 1])
      {
        assert rest[k] == path[k + 1] && rest[k + 1] == path[k + 2];
      }
      ChainClimbs(cfgs, s, rest);
    }
  }

  /** The graph of who follows whom has no cycle: no chain of slaves returns to a node. */
  lemma FollowingIsAcyclic(cfgs: seq<Config>, clocks: seq<Time>, actions: seq<Action>, path: seq<nat>)
    requires ValidNodes(cfgs) && |clocks| == |cfgs| && Possible(Boot(cfgs, clocks), actions)
    requires Chain(cfgs, Reached(Boot(cfgs, clocks), actions), path) && |path| >= 2
    ensures path[0] != path[|path| - 1]
  {
    BootSafe(cfgs, clocks);
    RunSafe(cfgs, Boot(cfgs, clocks), actions);
    ChainClimbs(cfgs, Reached(Boot(cfgs, clocks), actions), path);
  }

  ghost function MasterOf(cfgs: seq<Config>, s: Network, i: nat): (j: nat)
    requires ValidNodes(cfgs) && Safe(cfgs, s) && i < |cfgs| && s.nodes[i].phase == Slave
    ensures HasMaster(cfgs, s.nodes[i], j)
  {
    assert NodeSafe(cfgs, s.nodes[i]);
    var j :| HasMaster(cfgs, s.nodes[i], j);
    j
  }

  /** Where following masters ends. */
  ghost function Leader(cfgs: seq<Config>, s: Network, i: nat): (l: nat)
    requires ValidNodes(cfgs) && Safe(cfgs, s) && i < |cfgs|
    ensures l < |cfgs| && s.nodes[l].phase != Slave && cfgs[l].domain == cfgs[i].domain
    ensures l != i ==>
              cfgs[l].role != SlaveOnly && (cfgs[i].role == SlaveAndMaster ==> Better(cfgs[l].clock, cfgs[i].clock))
    decreases cfgs[i].role == SlaveOnly, Rank(cfgs[i].clock)
  {
    if s.nodes[i].phase != Slave then i
    else
      assert NodeSafe(cfgs, s.nodes[i]);
      Leader(cfgs, s, MasterOf(cfgs, s, i))
  }

  // ----- a duel -----

  /** Of two masters that hear each other's Announces, exactly the worse becomes the other's slave. */
  lemma ExactlyTheWorseDemotes(a: Client, b: Client, idA: UShort, idB: UShort, netA: Net, netB: Net)
    requires ValidConfig(a.cfg) && ValidConfig(b.cfg) && TimersAgree(a) && TimersAgree(b)
    requires a.phase == Master && b.phase == Master && a.cfg.domain == b.cfg.domain
    requires a.cfg.role == SlaveAndMaster && b.cfg.role == SlaveAndMaster
    requires a.cfg.clock.identity != b.cfg.clock.identity
    ensures var a' := Step(a, Receive(AnnounceOf(b.cfg, idB), true, netA)).client;
            var b' := Step(b, Receive(AnnounceOf(a.cfg, idA), true, netB)).client;
            if Better(a.cfg.clock, b.cfg.clock) then
              && a'.phase == Master && a'.announceTimer > 0 && a'.syncTimer > 0
              && b'.phase == Slave && b'.masterId == a.cfg.portId && b'.announceTimer == -1 == b'.syncTimer
            else
              && b'.phase == Master && b'.announceTimer > 0 && b'.syncTimer > 0
              && a'.phase == Slave && a'.masterId == b.cfg.portId && a'.announceTimer == -1 == a'.syncTimer
  {
    CompareIsRankOrder(a.cfg.clock, b.cfg.clock);
    MasterHears(a, b.cfg, idB, netA);
    MasterHears(b, a.cfg, idA, netB);
    hide Step, AnnounceOf, ClockCompare;
  }

  lemma MasterHears(c: Client, from: Config, id: UShort, net: Net)
    requires ValidConfig(c.cfg) && ValidConfig(from) && TimersAgree(c) && c.phase == Master
    requires from.domain == c.cfg.domain && c.cfg.role == SlaveAndMaster
    requires from.clock.identity != c.cfg.clock.identity
    ensures var c' := Step(c, Receive(AnnounceOf(from, id), true, net)).client;
            if Better(from.clock, c.cfg.clock) then
              c'.phase == Slave && c'.masterId == from.portId && c'.announceTimer == -1 == c'.syncTimer
            else
              c'.phase == Master && c'.announceTimer == c.announceTimer && c'.syncTimer == c.syncTimer
  {
    hide PacketTaken, Follows, ParseHeader, AnnounceBytes, Rank;
    var e := Receive(AnnounceOf(from, id), true, net);
    PrintedAnnounce(c, from, id, e);
    if Follows(c, e) {
      FollowEffect(c, e);
    } else {
      UnfollowedStep(c, e);
    }
  }
}
