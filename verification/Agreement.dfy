/** Once all nodes of a domain follow the best clock they keep doing so: no Announce ever sent
    disturbs them, and only silence or a restart can. */
module Agreement {
  import opened Words
  import opened ClockOrder
  import opened Wire
  import opened Client
  import opened ClientRuns
  import opened Freshness
  import opened Election

  predicate Follower(cfgs: seq<Config>, b: nat, i: nat) {
    b < |cfgs| && i < |cfgs| && i != b && cfgs[i].domain == cfgs[b].domain
  }

  predicate FollowsPort(c: Client, port: seq<Byte>) {
    c.phase == Slave && c.masterId == port
  }

  /** Node b is master, and every other node of its domain is its slave. */
  predicate Agreed(cfgs: seq<Config>, s: Network, b: nat) {
    && |s.nodes| == |cfgs| && b < |cfgs|
    && s.nodes[b].phase == Master
    && forall i :: 0 <= i < |cfgs| && Follower(cfgs, b, i) ==> FollowsPort(s.nodes[i], cfgs[b].portId)
  }

  /** The action brings an Announce of the given port to the node. */
  predicate Hears(e: Event, port: seq<Byte>) {
    && e.Receive? && e.usable && LooksLikeAnnounce(e.packet)
    && |e.packet| >= 30 && e.packet[20..30] == port
  }

  /** How many more timer events the node lasts without an Announce of the port. */
  function Left(left: int, e: Event, port: seq<Byte>): int {
    if e.ThreadStart? then 0
    else if Hears(e, port) then 600
    else if e.Tick? then left - 1
    else left
  }

  /** Never 600 timer events of node i without an Announce of the port, `left` remaining at
      first, and no restart of it. */
  predicate KeptAlive(left: int, i: nat, port: seq<Byte>, actions: seq<Action>)
    decreases |actions|
  {
    && left > 0
    && (actions == [] ||
        KeptAlive(if actions[0].node == i then Left(left, actions[0].event, port) else left, i, port, actions[1..]))
  }

  predicate AgreedThroughout(cfgs: seq<Config>, s: Network, b: nat, actions: seq<Action>)
    requires Configured(s) && Possible(s, actions)
    decreases |actions|
  {
    Agreed(cfgs, s, b) && (actions == [] || AgreedThroughout(cfgs, Act(s, actions[0]), b, actions[1..]))
  }

  predicate NeverRestarts(b: nat, actions: seq<Action>) {
    forall k :: 0 <= k < |actions| ==> !(actions[k].node == b && actions[k].event.ThreadStart?)
  }

  // ----- a follower -----

  /** A follower stays exactly while its time has not run out. */
  lemma FollowerStep(cfgs: seq<Config>, b: nat, c: Client, e: Event)
    requires ValidNodes(cfgs) && ValidConfig(c.cfg) && b < |cfgs|
    requires NodeSafe(cfgs, c) && FollowsPort(c, cfgs[b].portId) && c.cfg.domain == cfgs[b].domain
    requires c.cfg.clock.identity != cfgs[b].clock.identity
    requires e.Receive? && LooksLikeAnnounce(e.packet) ==>
               exists j :: 0 <= j < |cfgs| && AnnounceFrom(cfgs[j], e.packet)
    ensures var c' := Step(c, e).client;
            var left := Left(c.announceTimeout, e, cfgs[b].portId);
            && (FollowsPort(c', cfgs[b].portId) <==> left > 0)
            && (left > 0 ==> c'.announceTimeout == left)
  {
    if e.Receive? {
      FollowerHears(cfgs, b, c, e);
    } else if e.Tick? {
      TickEffect(c, e.announce, e.sync);
      hide Ticking, HasMaster;
    }
  }

  /** Two nodes with one port identity are one node. */
  lemma PortsDiffer(cfgs: seq<Config>, i: nat, j: nat)
    requires ValidNodes(cfgs) && i < |cfgs| && j < |cfgs| && cfgs[i].portId == cfgs[j].portId
    ensures i == j
  {
    assert ValidConfig(cfgs[i]) && ValidConfig(cfgs[j]);
  }

  /** Only a usable Announce makes a listening node or a slave master. */
  lemma PromotedByAnnounce(c: Client, e: Event)
    requires ValidConfig(c.cfg) && e.Receive? && !(e.usable && LooksLikeAnnounce(e.packet))
    ensures !Promotes(c, Step(c, e))
  {
    hide AnnounceTaken, SyncTaken, ParseTimestamp, Offset;
    var p := ParseHeader(e.packet, c.cfg.domain);
    if p.Accepted? && |p.body| >= 10 {
      SyncSide(c, p.hdr, p.body, e.net);
    }
  }

  lemma FollowerHears(cfgs: seq<Config>, b: nat, c: Client, e: Event)
    requires ValidNodes(cfgs) && ValidConfig(c.cfg) && b < |cfgs| && e.Receive?
    requires NodeSafe(cfgs, c) && FollowsPort(c, cfgs[b].portId) && c.cfg.domain == cfgs[b].domain
    requires c.cfg.clock.identity != cfgs[b].clock.identity
    requires LooksLikeAnnounce(e.packet) ==> exists j :: 0 <= j < |cfgs| && AnnounceFrom(cfgs[j], e.packet)
    ensures var c' := Step(c, e).client;
            && FollowsPort(c', cfgs[b].portId)
            && c'.announceTimeout == if Hears(e, cfgs[b].portId) then 600 else c.announceTimeout
  {
    hide PacketTaken, Follows, ParseHeader, AnnounceOf, Rank;
    var m :| HasMaster(cfgs, c, m);
    PortsDiffer(cfgs, b, m);
    if LooksLikeAnnounce(e.packet) {
      var j :| 0 <= j < |cfgs| && AnnounceFrom(cfgs[j], e.packet);
      var id: UShort :| e.packet == AnnounceOf(cfgs[j], id);
      PrintedAnnounce(c, cfgs[j], id, e);
      if cfgs[j].portId == cfgs[b].portId {
        PortsDiffer(cfgs, b, j);
      }
    }
    if Follows(c, e) {
      FollowsHeard(c, e);
      FollowEffect(c, e);
    } else {
      UnfollowedStep(c, e);
      if !(e.usable && LooksLikeAnnounce(e.packet)) {
        PromotedByAnnounce(c, e);
      }
    }
  }

  // ----- the best clock -----

  /** Nothing but a restart moves the agreed master: what it hears comes from itself or from its
      slaves, which it outranks. */
  lemma MasterStays(cfgs: seq<Config>, s: Network, b: nat, a: Action)
    requires ValidNodes(cfgs) && Safe(cfgs, s) && Agreed(cfgs, s, b) && Allowed(s, a) && a.node == b
    ensures Step(s.nodes[b], a.event).client.phase == Master
            <==> !(a.event.ThreadStart? && cfgs[b].role == SlaveAndMaster)
  {
    var c, e := s.nodes[b], a.event;
    if e.Receive? {
      MasterHearsSlaves(cfgs, s, b, a);
    } else if e.Tick? {
      TickEffect(c, e.announce, e.sync);
      hide Ticking;
    }
  }

  lemma FollowerOutranked(cfgs: seq<Config>, s: Network, b: nat, j: nat)
    requires ValidNodes(cfgs) && Safe(cfgs, s) && Agreed(cfgs, s, b)
    requires Follower(cfgs, b, j) && cfgs[j].role != SlaveOnly
    ensures Better(cfgs[b].clock, cfgs[j].clock)
  {
    hide AnnounceFrom, Rank;
    var k :| HasMaster(cfgs, s.nodes[j], k);
    PortsDiffer(cfgs, b, k);
  }

  lemma MasterHearsSlaves(cfgs: seq<Config>, s: Network, b: nat, a: Action)
    requires ValidNodes(cfgs) && Safe(cfgs, s) && Agreed(cfgs, s, b) && Allowed(s, a) && a.node == b
    requires a.event.Receive?
    ensures Step(s.nodes[b], a.event).client.phase == Master
  {
    hide PacketTaken, Follows, ParseHeader, AnnounceOf, Rank;
    var c, e := s.nodes[b], a.event;
    if Follows(c, e) {
      FollowsHeard(c, e);
      var m :| m in s.sent && m.bytes == e.packet;
      var j := m.from;
      var id: UShort :| e.packet == AnnounceOf(cfgs[j], id);
      PrintedAnnounce(c, cfgs[j], id, e);
      FollowerOutranked(cfgs, s, b, j);
      assert false;
    } else {
      UnfollowedStep(c, e);
    }
  }

  // ----- all nodes -----

  /** One action keeps the agreement exactly when it leaves its node time (a follower) or does
      not restart it (the master); the followers' timeouts are then what is left. */
  lemma AgreedStep(cfgs: seq<Config>, s: Network, b: nat, a: Action)
    requires ValidNodes(cfgs) && Safe(cfgs, s) && Agreed(cfgs, s, b) && Allowed(s, a) && Configured(s)
    ensures var port := cfgs[b].portId;
            var c := s.nodes[a.node];
            && (Agreed(cfgs, Act(s, a), b) <==>
                  && (a.node == b ==> !(a.event.ThreadStart? && cfgs[b].role == SlaveAndMaster))
                  && (Follower(cfgs, b, a.node) ==> Left(c.announceTimeout, a.event, port) > 0))
            && (Follower(cfgs, b, a.node) && Left(c.announceTimeout, a.event, port) > 0 ==>
                  Act(s, a).nodes[a.node].announceTimeout == Left(c.announceTimeout, a.event, port))
  {
    var n := Step(s.nodes[a.node], a.event);
    hide Step, Left, NodeSafe, AnnounceFrom, Announced;
    if a.node == b {
      MasterStays(cfgs, s, b, a);
    } else if Follower(cfgs, b, a.node) {
      FollowerStep(cfgs, b, s.nodes[a.node], a.event);
      assert FollowsPort(Act(s, a).nodes[a.node], cfgs[b].portId) <==> FollowsPort(n.client, cfgs[b].portId);
    }
  }

  /** Delivering any Announce ever sent, by any node to any node, keeps the agreement; so does
      any other packet. */
  lemma DeliveryKeepsAgreement(cfgs: seq<Config>, s: Network, b: nat, a: Action)
    requires ValidNodes(cfgs) && Safe(cfgs, s) && Agreed(cfgs, s, b) && Allowed(s, a) && Configured(s)
    requires a.event.Receive?
    ensures Agreed(cfgs, Act(s, a), b)
  {
    AgreedStep(cfgs, s, b, a);
    hide Act;
  }

  predicate AllKeptAlive(cfgs: seq<Config>, s: Network, b: nat, actions: seq<Action>)
    requires |s.nodes| == |cfgs| && b < |cfgs|
  {
    forall i :: 0 <= i < |cfgs| && Follower(cfgs, b, i) ==>
      KeptAlive(s.nodes[i].announceTimeout, i, cfgs[b].portId, actions)
  }

  lemma TimeLeft(cfgs: seq<Config>, s: Network, b: nat)
    requires ValidNodes(cfgs) && Safe(cfgs, s) && Agreed(cfgs, s, b)
    ensures forall i :: 0 <= i < |cfgs| && Follower(cfgs, b, i) ==> s.nodes[i].announceTimeout > 0
  {
    hide HasMaster, AnnounceFrom;
  }

  /** What keeps all followers over a run keeps them over its rest after the first action. */
  lemma RestKeptAlive(cfgs: seq<Config>, s: Network, b: nat, actions: seq<Action>)
    requires ValidNodes(cfgs) && Safe(cfgs, s) && Configured(s) && Agreed(cfgs, s, b)
    requires actions != [] && Allowed(s, actions[0]) && Agreed(cfgs, Act(s, actions[0]), b)
    ensures AllKeptAlive(cfgs, s, b, actions) <==> AllKeptAlive(cfgs, Act(s, actions[0]), b, actions[1..])
  {
    AgreedStep(cfgs, s, b, actions[0]);
    TimeLeft(cfgs, s, b);
    hide Safe, Agreed, Follower, Step, Left, Announced;
    var t, port := Act(s, actions[0]), cfgs[b].portId;
    forall i | 0 <= i < |cfgs| && Follower(cfgs, b, i)
      ensures KeptAlive(s.nodes[i].announceTimeout, i, port, actions)
              <==> KeptAlive(t.nodes[i].announceTimeout, i, port, actions[1..])
    {
    }
    hide Act, KeptAlive;
  }

  lemma LostAlive(cfgs: seq<Config>, s: Network, b: nat, actions: seq<Action>)
    requires |s.nodes| == |cfgs| && actions != [] && Follower(cfgs, b, actions[0].node)
    requires Left(s.nodes[actions[0].node].announceTimeout, actions[0].event, cfgs[b].portId) <= 0
    ensures !AllKeptAlive(cfgs, s, b, actions)
  {
    var i := actions[0].node;
    assert !KeptAlive(s.nodes[i].announceTimeout, i, cfgs[b].portId, actions);
  }

  lemma RestNeverRestarts(b: nat, actions: seq<Action>)
    requires actions != []
    ensures NeverRestarts(b, actions)
            <==> !(actions[0].node == b && actions[0].event.ThreadStart?) && NeverRestarts(b, actions[1..])
  {
    if NeverRestarts(b, actions[1..]) {
      forall k | 1 <= k < |actions|
        ensures !(actions[k].node == b && actions[k].event.ThreadStart?)
      {
        assert actions[k] == actions[1..][k - 1];
      }
    }
  }

  /** Agreement outlasts a run exactly when every follower hears the master before 600 of its
      timer events have passed, each time, and nobody who could lose it restarts. */
  lemma {:induction false} AgreementLastsWhileHeard(cfgs: seq<Config>, s: Network, b: nat, actions: seq<Action>)
    requires ValidNodes(cfgs) && Safe(cfgs, s) && Configured(s) && Possible(s, actions) && Agreed(cfgs, s, b)
    ensures AgreedThroughout(cfgs, s, b, actions)
            <==> AllKeptAlive(cfgs, s, b, actions) && (cfgs[b].role == SlaveAndMaster ==> NeverRestarts(b, actions))
    decreases |actions|
  {
    hide Left, NodeSafe, AnnounceFrom, Act, FollowsPort;
    TimeLeft(cfgs, s, b);
    if actions != [] {
      hide KeptAlive, NeverRestarts;
      var t := Act(s, actions[0]);
      AgreedStep(cfgs, s, b, actions[0]);
      RestNeverRestarts(b, actions);
      if Agreed(cfgs, t, b) {
        RestKeptAlive(cfgs, s, b, actions);
        ActSafe(cfgs, s, actions[0]);
        AgreementLastsWhileHeard(cfgs, t, b, actions[1..]);
      } else if Follower(cfgs, b, actions[0].node) {
        LostAlive(cfgs, s, b, actions);
      }
    }
  }
}
