/** From any reachable state: when only the best clock's Announces get through, every node of the
    domain ends up its slave. */
module Convergence {
  import opened Words
  import opened PtpTime
  import opened ClockOrder
  import opened Wire
  import opened Client
  import opened ClientRuns
  import opened Freshness
  import opened Election
  import opened Agreement

  /** A node seen from one port: following it or another for so many more timer events, or free. */
  datatype Status = Free | Elsewhere(left: int) | Following(left: int)

  function StatusOf(c: Client, port: seq<Byte>): Status {
    if c.phase != Slave then Free
    else if c.masterId == port then Following(c.announceTimeout)
    else Elsewhere(c.announceTimeout)
  }

  function Advance(st: Status, e: Event, port: seq<Byte>): Status {
    if st.Elsewhere? then
      if !e.Tick? then st else if st.left == 1 then Free else Elsewhere(st.left - 1)
    else if Hears(e, port) then Following(600)
    else if st.Following? && e.Tick? then
      if st.left == 1 then Free else Following(st.left - 1)
    else st
  }

  function Fate(st: Status, i: nat, port: seq<Byte>, actions: seq<Action>): Status
    decreases |actions|
  {
    if actions == [] then st
    else Fate(if actions[0].node == i then Advance(st, actions[0].event, port) else st, i, port, actions[1..])
  }

  function TicksAt(i: nat, actions: seq<Action>): nat
    decreases |actions|
  {
    if actions == [] then 0
    else (if actions[0].node == i && actions[0].event.Tick? then 1 else 0) + TicksAt(i, actions[1..])
  }

  // ----- where a status leads -----

  lemma {:induction false} FateConcat(st: Status, i: nat, port: seq<Byte>, a: seq<Action>, b: seq<Action>)
    ensures Fate(st, i, port, a + b) == Fate(Fate(st, i, port, a), i, port, b)
    decreases |a|
  {
    if a == [] {
      assert a + b == b;
    } else {
      assert (a + b)[0] == a[0] && (a + b)[1..] == a[1..] + b;
      FateConcat(if a[0].node == i then Advance(st, a[0].event, port) else st, i, port, a[1..], b);
    }
  }

  lemma {:induction false} LetGo(st: Status, i: nat, port: seq<Byte>, actions: seq<Action>)
    requires st.Elsewhere? ==> 1 <= st.left <= TicksAt(i, actions)
    ensures !Fate(st, i, port, actions).Elsewhere?
    decreases |actions|
  {
    if actions != [] {
      LetGo(if actions[0].node == i then Advance(st, actions[0].event, port) else st, i, port, actions[1..]);
    }
  }

  lemma {:induction false} HoldsOn(st: Status, i: nat, port: seq<Byte>, actions: seq<Action>)
    requires st.Following? && TicksAt(i, actions) < st.left <= 600
    ensures Fate(st, i, port, actions).Following?
    decreases |actions|
  {
    if actions != [] {
      HoldsOn(if actions[0].node == i then Advance(st, actions[0].event, port) else st, i, port, actions[1..]);
    }
  }

  /** The node has 600 timer events, hears the port, and has fewer than 600 after that. */
  predicate Settles(i: nat, port: seq<Byte>, actions: seq<Action>) {
    exists k :: 0 <= k < |actions| && actions[k].node == i && Hears(actions[k].event, port)
                && TicksAt(i, actions[..k]) >= 600 && TicksAt(i, actions[k + 1..]) < 600
  }

  lemma SettledFollows(st: Status, i: nat, port: seq<Byte>, actions: seq<Action>)
    requires Settles(i, port, actions) && (st.Elsewhere? ==> 1 <= st.left <= 600)
    ensures Fate(st, i, port, actions).Following?
  {
    var k :| 0 <= k < |actions| && actions[k].node == i && Hears(actions[k].event, port)
             && TicksAt(i, actions[..k]) >= 600 && TicksAt(i, actions[k + 1..]) < 600;
    var rest := actions[k..];
    assert actions == actions[..k] + rest && rest[1..] == actions[k + 1..];
    FateConcat(st, i, port, actions[..k], rest);
    LetGo(st, i, port, actions[..k]);
    HoldsOn(Following(600), i, port, actions[k + 1..]);
  }

  // ----- what a node does when only node b is heard -----

  predicate OnlyFrom(port: seq<Byte>, e: Event) {
    && !e.ThreadStart?
    && (e.Receive? && LooksLikeAnnounce(e.packet) ==> |e.packet| >= 30 && e.packet[20..30] == port)
  }

  /** Node i follows b when it is free to. */
  predicate Inferior(cfgs: seq<Config>, b: nat, i: nat) {
    && Follower(cfgs, b, i)
    && cfgs[i].role != MasterOnly
    && MayFollow(cfgs[i], cfgs[b])
  }

  lemma StatusStep(cfgs: seq<Config>, s: Network, b: nat, a: Action)
    requires ValidNodes(cfgs) && Safe(cfgs, s) && Allowed(s, a) && Configured(s) && Inferior(cfgs, b, a.node)
    requires OnlyFrom(cfgs[b].portId, a.event)
    ensures var c, port := s.nodes[a.node], cfgs[b].portId;
            StatusOf(Step(c, a.event).client, port) == Advance(StatusOf(c, port), a.event, port)
  {
    var c, e := s.nodes[a.node], a.event;
    if e.Receive? {
      if LooksLikeAnnounce(e.packet) {
        StatusHearing(cfgs, s, b, a);
      } else {
        StatusOther(c, e, cfgs[b].portId);
      }
    } else if e.Tick? {
      hide Ticking, HasMaster;
      TickEffect(c, e.announce, e.sync);
    }
  }

  lemma StatusOther(c: Client, e: Event, port: seq<Byte>)
    requires ValidConfig(c.cfg) && e.Receive? && !LooksLikeAnnounce(e.packet)
    ensures StatusOf(Step(c, e).client, port) == StatusOf(c, port)
  {
    hide PacketTaken, Follows, ParseHeader;
    if Follows(c, e) {
      FollowsHeard(c, e);
    }
    UnfollowedStep(c, e);
    PromotedByAnnounce(c, e);
  }

  lemma StatusHearing(cfgs: seq<Config>, s: Network, b: nat, a: Action)
    requires ValidNodes(cfgs) && Safe(cfgs, s) && Allowed(s, a) && Configured(s) && Inferior(cfgs, b, a.node)
    requires OnlyFrom(cfgs[b].portId, a.event) && a.event.Receive? && LooksLikeAnnounce(a.event.packet)
    ensures var c, port := s.nodes[a.node], cfgs[b].portId;
            StatusOf(Step(c, a.event).client, port) == Advance(StatusOf(c, port), a.event, port)
  {
    hide PacketTaken, Follows, ParseHeader, AnnounceOf, Rank;
    var c, e := s.nodes[a.node], a.event;
    var m :| m in s.sent && m.bytes == e.packet;
    var id: UShort :| e.packet == AnnounceOf(cfgs[m.from], id);
    PrintedAnnounce(c, cfgs[m.from], id, e);
    PortsDiffer(cfgs, m.from, b);
    if Follows(c, e) {
      FollowEffect(c, e);
    } else {
      UnfollowedStep(c, e);
      if !e.usable {
        PromotedByAnnounce(c, e);
      }
    }
  }

  // ----- the best clock becomes master -----

  /** Timer events until the node is master, at most. */
  function Rise(c: Client): int {
    if c.phase == Master then 0 else c.announceTimeout
  }

  lemma BestIsFree(cfgs: seq<Config>, s: Network, b: nat)
    requires ValidNodes(cfgs) && Safe(cfgs, s) && b < |cfgs| && Best(cfgs, b)
    ensures |s.nodes| == |cfgs|
    ensures s.nodes[b].phase != Slave && 0 <= Rise(s.nodes[b]) <= 600
    ensures s.nodes[b].phase == Master <==> Rise(s.nodes[b]) == 0
  {
    hide AnnounceFrom, Rank;
    assert NodeSafe(cfgs, s.nodes[b]);
    if cfgs[b].role == SlaveAndMaster {
      assert forall j :: !HasMaster(cfgs, s.nodes[b], j);
    }
  }

  lemma RiseStep(cfgs: seq<Config>, s: Network, b: nat, a: Action)
    requires ValidNodes(cfgs) && Safe(cfgs, s) && Allowed(s, a) && Configured(s) && a.node == b
    requires Best(cfgs, b) && OnlyFrom(cfgs[b].portId, a.event)
    ensures var left := Rise(s.nodes[b]) - if a.event.Tick? then 1 else 0;
            Rise(Step(s.nodes[b], a.event).client) <= if left > 0 then left else 0
  {
    BestIsFree(cfgs, s, b);
    var c, e := s.nodes[b], a.event;
    if e.Receive? {
      BestHears(cfgs, s, b, a);
    } else if e.Tick? {
      hide Ticking, HasMaster;
      TickEffect(c, e.announce, e.sync);
    }
  }

  /** The best clock hears only itself: at most that makes it master. */
  lemma BestHears(cfgs: seq<Config>, s: Network, b: nat, a: Action)
    requires ValidNodes(cfgs) && Safe(cfgs, s) && Allowed(s, a) && Configured(s) && a.node == b < |cfgs|
    requires OnlyFrom(cfgs[b].portId, a.event) && a.event.Receive? && cfgs[b].role != SlaveOnly
    ensures Step(s.nodes[b], a.event).client.phase == Master || SameAnnounceSide(s.nodes[b], Step(s.nodes[b], a.event))
  {
    hide PacketTaken, Follows, ParseHeader, AnnounceOf, Rank, SameAnnounceSide;
    var c, e := s.nodes[b], a.event;
    if LooksLikeAnnounce(e.packet) {
      var m :| m in s.sent && m.bytes == e.packet;
      var id: UShort :| e.packet == AnnounceOf(cfgs[m.from], id);
      PrintedAnnounce(c, cfgs[m.from], id, e);
      PortsDiffer(cfgs, m.from, b);
    } else if Follows(c, e) {
      FollowsHeard(c, e);
    }
    UnfollowedStep(c, e);
  }

  // ----- whole runs -----

  /** In b's domain nobody restarts and no Announce but b's arrives. */
  predicate OnlyHeard(cfgs: seq<Config>, b: nat, actions: seq<Action>)
    requires b < |cfgs|
  {
    forall k :: 0 <= k < |actions| && actions[k].node < |cfgs| && cfgs[actions[k].node].domain == cfgs[b].domain ==>
      OnlyFrom(cfgs[b].portId, actions[k].event)
  }

  /** The best clock b could win its domain: every other node may be its slave. */
  predicate Winner(cfgs: seq<Config>, b: nat) {
    b < |cfgs| && Best(cfgs, b) && forall i :: 0 <= i < |cfgs| && Follower(cfgs, b, i) ==> cfgs[i].role != MasterOnly
  }

  lemma {:induction false} RunStatus(cfgs: seq<Config>, s: Network, b: nat, actions: seq<Action>, i: nat)
    requires ValidNodes(cfgs) && Safe(cfgs, s) && Configured(s) && Possible(s, actions)
    requires Winner(cfgs, b) && OnlyHeard(cfgs, b, actions) && Follower(cfgs, b, i)
    ensures var port := cfgs[b].portId;
            && |Reached(s, actions).nodes| == |cfgs|
            && StatusOf(Reached(s, actions).nodes[i], port) == Fate(StatusOf(s.nodes[i], port), i, port, actions)
    decreases |actions|
  {
    hide NodeSafe, AnnounceFrom, StatusOf, Rank, Hears, Announced;
    if actions != [] {
      var a := actions[0];
      if a.node == i {
        StatusStep(cfgs, s, b, a);
      }
      hide Step, OnlyFrom;
      ActSafe(cfgs, s, a);
      RunStatus(cfgs, Act(s, a), b, actions[1..], i);
    }
  }

  lemma {:induction false} RunRise(cfgs: seq<Config>, s: Network, b: nat, actions: seq<Action>)
    requires ValidNodes(cfgs) && Safe(cfgs, s) && Configured(s) && Possible(s, actions)
    requires Winner(cfgs, b) && OnlyHeard(cfgs, b, actions)
    requires TicksAt(b, actions) >= Rise(s.nodes[b])
    ensures |Reached(s, actions).nodes| == |cfgs| && Reached(s, actions).nodes[b].phase == Master
    decreases |actions|
  {
    hide NodeSafe, AnnounceFrom, Rank, Hears, Announced;
    if actions == [] {
      BestIsFree(cfgs, s, b);
    } else {
      var a := actions[0];
      if a.node == b {
        RiseStep(cfgs, s, b, a);
      }
      hide Step, OnlyFrom;
      ActSafe(cfgs, s, a);
      RunRise(cfgs, Act(s, a), b, actions[1..]);
    }
  }

  lemma FollowerSettles(cfgs: seq<Config>, s: Network, b: nat, actions: seq<Action>, i: nat)
    requires ValidNodes(cfgs) && Safe(cfgs, s) && Configured(s) && Possible(s, actions)
    requires Winner(cfgs, b) && OnlyHeard(cfgs, b, actions) && Follower(cfgs, b, i)
    requires Settles(i, cfgs[b].portId, actions)
    ensures |Reached(s, actions).nodes| == |cfgs| && FollowsPort(Reached(s, actions).nodes[i], cfgs[b].portId)
  {
    hide Possible, Reached, OnlyHeard, Settles, AnnounceFrom, HasMaster, Winner, Fate;
    RunStatus(cfgs, s, b, actions, i);
    assert NodeSafe(cfgs, s.nodes[i]);
    SettledFollows(StatusOf(s.nodes[i], cfgs[b].portId), i, cfgs[b].portId, actions);
  }

  /** Self-stabilisation. Take any state any run reaches, and any continuation in which, within
      the domain of the best clock, nobody restarts and no Announce but its own arrives. Once it
      has had 600 timer events, and every other node has had 600, heard it, and had fewer than
      600 since, all of them are its slaves. */
  lemma DomainStabilises(cfgs: seq<Config>, clocks: seq<Time>, before: seq<Action>, actions: seq<Action>, b: nat)
    requires ValidNodes(cfgs) && |clocks| == |cfgs| && Possible(Boot(cfgs, clocks), before)
    requires var s := Reached(Boot(cfgs, clocks), before); Possible(s, actions)
    requires Winner(cfgs, b) && OnlyHeard(cfgs, b, actions)
    requires TicksAt(b, actions) >= 600
    requires forall i :: 0 <= i < |cfgs| && Follower(cfgs, b, i) ==> Settles(i, cfgs[b].portId, actions)
    ensures Agreed(cfgs, Reached(Reached(Boot(cfgs, clocks), before), actions), b)
  {
    BootSafe(cfgs, clocks);
    RunSafe(cfgs, Boot(cfgs, clocks), before);
    hide Boot, Possible, Reached, OnlyHeard, Settles, Safe, FollowsPort, Rise, Best;
    var s := Reached(Boot(cfgs, clocks), before);
    BestIsFree(cfgs, s, b);
    RunRise(cfgs, s, b, actions);
    forall i | 0 <= i < |cfgs| && Follower(cfgs, b, i)
      ensures FollowsPort(Reached(s, actions).nodes[i], cfgs[b].portId)
    {
      FollowerSettles(cfgs, s, b, actions, i);
    }
  }
}
