/** The sequence ids of what a master sends: which numbers its Announces and Syncs bear over any run. */
module Numbering {
  import opened ClockOrder
  import opened Wire
  import opened Client
  import opened ClientRuns
  import opened Layout
  import opened Freshness
  import opened Exchange
  import opened Sending

  /** The number an output bears on the network, if it is an Announce or a Sync. */
  function Id(o: Output): seq<nat> {
    if o.AnnounceSent? && |o.announce| >= 32 then [Number(o.announce[30..32])]
    else if o.SyncSent? then [o.syncId]
    else []
  }

  function Ids(out: seq<Output>): seq<nat> {
    if out == [] then [] else Id(out[0]) + Ids(out[1..])
  }

  lemma {:induction false} IdsConcat(a: seq<Output>, b: seq<Output>)
    ensures Ids(a + b) == Ids(a) + Ids(b)
  {
    if a == [] {
      assert a + b == b;
    } else {
      assert (a + b)[1..] == a[1..] + b;
      IdsConcat(a[1..], b);
    }
  }

  lemma {:induction false} NoIds(out: seq<Output>)
    requires forall o :: o in out ==> !o.AnnounceSent? && !o.SyncSent?
    ensures Ids(out) == []
  {
    if out != [] {
      NoIds(out[1..]);
    }
  }

  // ----- numbers drawn -----

  /** A timer that runs out draws a number if a packet is granted; the message is put out if the packet
      can be sent. */
  function Draw(timer: int, net: Net): seq<bool> {
    if timer == 1 && net.granted then [net.sent] else []
  }

  function Draws(c: Client, e: Event): seq<bool> {
    if e.Tick? then Draw(c.announceTimer, e.announce) + Draw(c.syncTimer, e.sync) else []
  }

  /** All draws of a run, in order. */
  function DrawsFrom(c: Client, events: seq<Event>): seq<bool>
    requires ValidConfig(c.cfg)
    decreases |events|
  {
    if events == [] then [] else Draws(c, events[0]) + DrawsFrom(Step(c, events[0]).client, events[1..])
  }

  /** The numbers of the draws that were put out, counting on from k and wrapping at 16 bits. */
  function Numbers(draws: seq<bool>, k: nat): seq<nat> {
    if draws == [] then []
    else (if draws[0] then [(k + 1) % 0x1_0000] else []) + Numbers(draws[1..], k + 1)
  }

  function Sent(draws: seq<bool>): nat {
    if draws == [] then 0 else (if draws[0] then 1 else 0) + Sent(draws[1..])
  }

  lemma {:induction false} NumbersCount(draws: seq<bool>, k: nat)
    ensures |Numbers(draws, k)| == Sent(draws)
  {
    if draws != [] {
      NumbersCount(draws[1..], k + 1);
    }
  }

  lemma {:induction false} NumbersConcat(a: seq<bool>, b: seq<bool>, k: nat)
    ensures Numbers(a + b, k) == Numbers(a, k) + Numbers(b, k + |a|)
  {
    if a == [] {
      assert a + b == b;
    } else {
      assert (a + b)[1..] == a[1..] + b;
      NumbersConcat(a[1..], b, k + 1);
    }
  }

  lemma {:induction false} NumberOfDraw(draws: seq<bool>, k: nat, i: nat)
    requires i < |draws| && draws[i]
    ensures var at := |Numbers(draws[..i], k)|;
            at < |Numbers(draws, k)| && Numbers(draws, k)[at] == (k + i + 1) % 0x1_0000
  {
    NumbersConcat(draws[..i], draws[i..], k);
    assert draws[..i] + draws[i..] == draws;
  }

  // ----- a step -----

  lemma TickNumbers(c: Client, k: nat, e: Event)
    requires ValidConfig(c.cfg) && c.seqId == k % 0x1_0000 && e.Tick?
    ensures Ids(Step(c, e).out) == Numbers(Draws(c, e), k)
    ensures Step(c, e).client.seqId == (k + |Draws(c, e)|) % 0x1_0000
  {
    TickParts(c, e);
    hide Step, Ids, Numbers, Draws, AnnounceTick, SyncTick, TimeoutTick;
    var a := AnnounceTick(c, e.announce);
    var s := SyncTick(a.client, e.sync);
    var t := TimeoutTick(s.client);
    var drawA := Draw(c.announceTimer, e.announce);
    AnnounceNumber(c, k, e.announce);
    SyncNumber(a.client, k + |drawA|, e.sync);
    NoIds(t.out);
    IdsConcat(a.out, s.out);
    IdsConcat(a.out + s.out, t.out);
    NumbersConcat(drawA, Draw(c.syncTimer, e.sync), k);
  }

  lemma TickParts(c: Client, e: Event)
    requires ValidConfig(c.cfg) && e.Tick?
    ensures var a := AnnounceTick(c, e.announce);
            var s := SyncTick(a.client, e.sync);
            var t := TimeoutTick(s.client);
            && Step(c, e).out == a.out + s.out + t.out && Step(c, e).client.seqId == s.client.seqId
            && (forall o :: o in t.out ==> !o.AnnounceSent? && !o.SyncSent?)
  {
    hide AnnounceTick, SyncTick;
  }

  lemma AnnounceNumber(c: Client, k: nat, net: Net)
    requires ValidConfig(c.cfg) && c.seqId == k % 0x1_0000
    ensures var draw := Draw(c.announceTimer, net);
            Ids(AnnounceTick(c, net).out) == Numbers(draw, k)
            && AnnounceTick(c, net).client.seqId == (k + |draw|) % 0x1_0000
            && AnnounceTick(c, net).client.syncTimer == c.syncTimer
  {
    PrintedAnnounceBytes(c.cfg.transport, c.cfg.domain, c.cfg.portId, (k + 1) % 0x1_0000, c.cfg.clock);
    hide AnnounceBytes, Number;
    NextNumber(c.seqId, k);
  }

  lemma SyncNumber(c: Client, k: nat, net: Net)
    requires c.seqId == k % 0x1_0000
    ensures var draw := Draw(c.syncTimer, net);
            Ids(SyncTick(c, net).out) == Numbers(draw, k)
            && SyncTick(c, net).client.seqId == (k + |draw|) % 0x1_0000
  {
    NextNumber(c.seqId, k);
  }

  lemma NextNumber(id: nat, k: nat)
    requires id == k % 0x1_0000
    ensures (id + 1) % 0x1_0000 == (k + 1) % 0x1_0000
  {
  }

  /** Nothing but a timer event draws a number. */
  lemma OthersDrawNone(c: Client, e: Event)
    requires ValidConfig(c.cfg) && !e.Tick?
    ensures Ids(Step(c, e).out) == [] && Step(c, e).client.seqId == c.seqId
  {
    hide PacketTaken, Follows, ParseHeader, ParseAnnounce, Ids;
    if e.Receive? {
      if Follows(c, e) {
        PacketCases(c, e);
      } else {
        UnfollowedStep(c, e);
      }
    }
    NoIds(Step(c, e).out);
  }

  // ----- runs -----

  /** Over any run: the Announces and Syncs put out bear, in order, the numbers of the draws whose
      packets were sent, so that a number missing is a message that could not be sent. */
  lemma {:induction false} MessagesAreNumbered(c: Client, events: seq<Event>, k: nat)
    requires ValidConfig(c.cfg) && c.seqId == k % 0x1_0000
    ensures Ids(OutputsFrom(c, events)) == Numbers(DrawsFrom(c, events), k)
    ensures Steps(c, events).seqId == (k + |DrawsFrom(c, events)|) % 0x1_0000
    decreases |events|
  {
    hide Step, Ids, Numbers, Draws;
    if events == [] {
      NoIds([]);
      NoNumbers(k);
    } else {
      var e := events[0];
      var n := Step(c, e);
      StepNumbers(c, k, e);
      var k' := k + |Draws(c, e)|;
      MessagesAreNumbered(n.client, events[1..], k');
      IdsConcat(n.out, OutputsFrom(n.client, events[1..]));
      NumbersConcat(Draws(c, e), DrawsFrom(n.client, events[1..]), k);
    }
  }

  /** Draw i of a run, if it is sent, bears i + 1 more than the number counted from, whatever failed
      before it, and comes after as many messages as were sent before it. */
  lemma DrawIsNumbered(c: Client, events: seq<Event>, k: nat, i: nat)
    requires ValidConfig(c.cfg) && c.seqId == k % 0x1_0000
    requires i < |DrawsFrom(c, events)| && DrawsFrom(c, events)[i]
    ensures var ids, at := Ids(OutputsFrom(c, events)), Sent(DrawsFrom(c, events)[..i]);
            at < |ids| && ids[at] == (k + i + 1) % 0x1_0000
  {
    hide Ids, OutputsFrom, DrawsFrom, Numbers;
    MessagesAreNumbered(c, events, k);
    NumberOfDraw(DrawsFrom(c, events), k, i);
    NumbersCount(DrawsFrom(c, events)[..i], k);
  }

  lemma NoNumbers(k: nat)
    ensures Numbers([], k) == []
  {
  }

  lemma StepNumbers(c: Client, k: nat, e: Event)
    requires ValidConfig(c.cfg) && c.seqId == k % 0x1_0000
    ensures Ids(Step(c, e).out) == Numbers(Draws(c, e), k)
    ensures Step(c, e).client.seqId == (k + |Draws(c, e)|) % 0x1_0000
  {
    hide Step;
    if e.Tick? {
      TickNumbers(c, k, e);
    } else {
      OthersDrawNone(c, e);
    }
  }
}
