/**
 Any number of gossip nodes over any schedule and any changing topology: the flood dies out.

 A run interleaves arbitrary announcements queued by the applications, deliveries in any order, losses,
 and flushes. Each delivery and flush sees its own list of connected peers, so links come and go freely.
 */
module GossipNetwork {
  import opened Gossip
  import NumberTheory

  datatype Node = Node(self: string, config: Config, users: set<string>, queue: seq<Announcement>)

  /** A copy in transit, with the TTL it was queued with and the number of links it has been sent over. */
  datatype Packet = Packet(to: string, ann: Announcement, born: int, hops: nat)

  datatype Net = Net(nodes: seq<Node>, flight: seq<Packet>)

  datatype Event =
    | Queue(node: nat, ann: Announcement)
    | Flush(node: nat, peers: seq<string>, out: seq<Envelope>)
    | Deliver(node: nat, packet: nat, peers: seq<string>, check: Check, out: seq<Envelope>, queued: seq<Announcement>)
    | Lose(packet: nat)

  function Without(flight: seq<Packet>, k: nat): seq<Packet>
    requires k < |flight|
  {
    flight[..k] + flight[k + 1..]
  }

  function Fresh(out: seq<Envelope>): (r: seq<Packet>) {
    seq(|out|, i requires 0 <= i < |out| => Packet(out[i].to, out[i].ann, out[i].ann.ttl, 1))
  }

  function Passed(p: Packet, out: seq<Envelope>): (r: seq<Packet>) {
    seq(|out|, i requires 0 <= i < |out| => Packet(out[i].to, out[i].ann, p.born, p.hops + 1))
  }

  /** One event, with what the node sends and queues constrained as the engine's methods promise. */
  ghost predicate Step(s: Net, e: Event, t: Net) {
    match e
    case Queue(i, a) =>
      i < |s.nodes| && t == s.(nodes := s.nodes[i := s.nodes[i].(queue := s.nodes[i].queue + [a])])
    case Flush(i, peers, out) =>
      && i < |s.nodes|
      && (if peers == [] then out == [] else SpreadAll(s.nodes[i].config, peers, s.nodes[i].queue, out))
      && t == Net(s.nodes[i := s.nodes[i].(queue := [])], s.flight + Fresh(out))
    case Deliver(i, k, peers, check, out, queued) =>
      && i < |s.nodes| && k < |s.flight| && s.flight[k].to == s.nodes[i].self
      && var n := s.nodes[i];
         Reaction(n.config, n.self, n.users, peers, check, s.flight[k].ann, out, queued)
         && t == Net(s.nodes[i := n.(queue := n.queue + queued)], Without(s.flight, k) + Passed(s.flight[k], out))
    case Lose(k) =>
      k < |s.flight| && t == s.(flight := Without(s.flight, k))
  }

  ghost predicate Run(states: seq<Net>, events: seq<Event>) {
    |states| == |events| + 1 && forall i :: 0 <= i < |events| ==> Step(states[i], events[i], states[i + 1])
  }

  /** Every node's fanouts are at most f, and its acknowledgements get a TTL of at most d. */
  predicate Bounded(s: Net, f: nat, d: nat) {
    forall i :: 0 <= i < |s.nodes| ==> BoundedConfig(s.nodes[i].config, f, d)
  }

  predicate BoundedConfig(c: Config, f: nat, d: nat) {
    0 <= c.fanout <= f && 0 <= c.normal.fanout <= f && 0 <= c.high.fanout <= f && c.defaultTtl <= d
  }

  // ----- the potential

  /** The most copies one copy of TTL t can lead to, itself included. */
  function Copies(f: nat, t: int): (r: nat)
    ensures r >= 1
    decreases t
  {
    if t <= 0 then 1 else 1 + f * Copies(f, t - 1)
  }

  /** A copy of a message can also cause an acknowledgement, which is queued, sent and passed on in turn. */
  function Weight(f: nat, d: nat, a: Announcement): (r: nat)
    ensures r >= 1
  {
    if a.messageDelivery.Some? then (2 + f * Copies(f, d)) * Copies(f, a.ttl) else Copies(f, a.ttl)
  }

  function QueueWeight(f: nat, d: nat, queue: seq<Announcement>): nat {
    if queue == [] then 0 else
      QueueWeight(f, d, queue[..|queue| - 1]) + 1 + f * Weight(f, d, queue[|queue| - 1])
  }

  function FlightWeight(f: nat, d: nat, flight: seq<Packet>): nat {
    if flight == [] then 0 else
      FlightWeight(f, d, flight[..|flight| - 1]) + Weight(f, d, flight[|flight| - 1].ann)
  }

  function NodesWeight(f: nat, d: nat, nodes: seq<Node>): nat {
    if nodes == [] then 0 else
      NodesWeight(f, d, nodes[..|nodes| - 1]) + QueueWeight(f, d, nodes[|nodes| - 1].queue)
  }

  function Potential(f: nat, d: nat, s: Net): nat {
    NodesWeight(f, d, s.nodes) + FlightWeight(f, d, s.flight)
  }

  predicate Silent(s: Net) {
    s.flight == [] && forall i :: 0 <= i < |s.nodes| ==> s.nodes[i].queue == []
  }

  /** Deliveries, losses, and flushes that have something to flush. */
  predicate Active(s: Net, e: Event) {
    match e
    case Queue(_, _) => false
    case Flush(i, _, _) => i < |s.nodes| && s.nodes[i].queue != []
    case Deliver(_, _, _, _, _, _) => true
    case Lose(_) => true
  }

  function Work(states: seq<Net>, events: seq<Event>): nat
    requires |states| == |events| + 1
  {
    if events == [] then 0 else
      var n := |events| - 1;
      Work(states[..n + 1], events[..n]) + if Active(states[n], events[n]) then 1 else 0
  }

  /** What the applications put in. */
  function Injected(f: nat, d: nat, events: seq<Event>): nat {
    if events == [] then 0 else
      var e := events[|events| - 1];
      Injected(f, d, events[..|events| - 1]) + if e.Queue? then 1 + f * Weight(f, d, e.ann) else 0
  }

  // ----- arithmetic of the potential

  lemma {:induction false} CopiesMono(f: nat, t: int, u: int)
    requires t <= u
    ensures Copies(f, t) <= Copies(f, u)
    decreases u
  {
    if t > 0 {
      CopiesMono(f, t - 1, u - 1);
      NumberTheory.MulMono(Copies(f, t - 1), Copies(f, u - 1), f);
    }
  }

  lemma {:induction false} FlightAppend(f: nat, d: nat, p: seq<Packet>, q: seq<Packet>)
    ensures FlightWeight(f, d, p + q) == FlightWeight(f, d, p) + FlightWeight(f, d, q)
    decreases |q|
  {
    if q == [] {
      assert p + q == p;
    } else {
      FlightAppend(f, d, p, q[..|q| - 1]);
      assert (p + q)[..|p + q| - 1] == p + q[..|q| - 1];
    }
  }

  lemma FlightWithout(f: nat, d: nat, p: seq<Packet>, k: nat)
    requires k < |p|
    ensures FlightWeight(f, d, p) == FlightWeight(f, d, Without(p, k)) + Weight(f, d, p[k].ann)
  {
    hide Weight;
    assert p == p[..k] + [p[k]] + p[k + 1..];
    FlightAppend(f, d, p[..k] + [p[k]], p[k + 1..]);
    FlightAppend(f, d, p[..k], [p[k]]);
    FlightAppend(f, d, p[..k], p[k + 1..]);
    assert [p[k]][..0] == [];
  }

  lemma {:induction false} QueueAppend(f: nat, d: nat, p: seq<Announcement>, q: seq<Announcement>)
    ensures QueueWeight(f, d, p + q) == QueueWeight(f, d, p) + QueueWeight(f, d, q)
    decreases |q|
  {
    hide Weight;
    if q == [] {
      assert p + q == p;
    } else {
      QueueAppend(f, d, p, q[..|q| - 1]);
      assert (p + q)[..|p + q| - 1] == p + q[..|q| - 1];
    }
  }

  lemma {:induction false} NodesUpdate(f: nat, d: nat, nodes: seq<Node>, i: nat, n: Node)
    requires i < |nodes|
    ensures NodesWeight(f, d, nodes[i := n]) + QueueWeight(f, d, nodes[i].queue)
         == NodesWeight(f, d, nodes) + QueueWeight(f, d, n.queue)
    decreases |nodes|
  {
    hide QueueWeight;
    var last := |nodes| - 1;
    if i == last {
      assert nodes[i := n][..last] == nodes[..last];
    } else {
      NodesUpdate(f, d, nodes[..last], i, n);
      assert nodes[i := n][..last] == nodes[..last][i := n];
    }
  }

  /** Copies of one announcement weigh that many times its weight. */
  lemma {:induction false} SameWeight(f: nat, d: nat, flight: seq<Packet>, a: Announcement)
    requires forall i :: 0 <= i < |flight| ==> flight[i].ann == a
    ensures FlightWeight(f, d, flight) == |flight| * Weight(f, d, a)
  {
    hide Weight;
    if flight != [] {
      SameWeight(f, d, flight[..|flight| - 1], a);
    }
  }

  /** Spreading one announcement costs at most f times its weight. */
  lemma SpreadWeight(f: nat, d: nat, c: Config, peers: seq<string>, a: Announcement, out: seq<Envelope>, q: seq<Packet>)
    requires BoundedConfig(c, f, d) && Spread(c, peers, a, out)
    requires |q| == |out| && forall i :: 0 <= i < |q| ==> q[i].ann == out[i].ann
    ensures FlightWeight(f, d, q) <= f * Weight(f, d, a)
  {
    hide Weight;
    SameWeight(f, d, q, a);
    NumberTheory.MulMono(|q|, f, Weight(f, d, a));
  }

  /** Flushing a queue into flight costs nothing, and pays one for each announcement flushed. */
  lemma {:induction false} FlushWeight(
    f: nat, d: nat, c: Config, peers: seq<string>, queue: seq<Announcement>, out: seq<Envelope>)
    requires BoundedConfig(c, f, d) && SpreadAll(c, peers, queue, out)
    ensures FlightWeight(f, d, Fresh(out)) + |queue| <= QueueWeight(f, d, queue)
    decreases |queue|
  {
    hide Weight, Spread;
    if queue != [] {
      var last := |queue| - 1;
      var n := Reach(Fanout(c, queue[last]), |peers|);
      var before, more := out[..|out| - n], out[|out| - n..];
      FlushWeight(f, d, c, peers, queue[..last], before);
      SpreadWeight(f, d, c, peers, queue[last], more, Fresh(more));
      assert Fresh(out) == Fresh(before) + Fresh(more);
      FlightAppend(f, d, Fresh(before), Fresh(more));
    }
  }

  /** A copy about to be forwarded weighs more than everything its forwarding puts in flight. */
  lemma ForwardWeight(f: nat, d: nat, a: Announcement)
    requires a.ttl > 0
    ensures f * Weight(f, d, a.(ttl := a.ttl - 1)) < Weight(f, d, a)
  {
    var k, c := 2 + f * Copies(f, d), Copies(f, a.ttl - 1);
    assert k >= 1;
    assert f * (k * c) == k * (f * c);
    assert k * (1 + f * c) == k + k * (f * c);
  }

  /** A message weighs more than the acknowledgement it may cause. */
  lemma AckWeight(f: nat, d: nat, c: Config, self: string, users: set<string>, a: Announcement, ack: Announcement)
    requires BoundedConfig(c, f, d) && a.messageDelivery.Some? && Acknowledges(c, self, users, a, ack)
    ensures QueueWeight(f, d, [ack]) < Weight(f, d, a)
  {
    assert [ack][..0] == [];
    CopiesMono(f, ack.ttl, d);
    Outweighs(f, Copies(f, ack.ttl), Copies(f, d), Copies(f, a.ttl));
  }

  lemma Outweighs(f: nat, x: nat, y: nat, z: nat)
    requires x <= y && z >= 1
    ensures 1 + f * x < (2 + f * y) * z
  {
    NumberTheory.MulMono(x, y, f);
    assert f * x == x * f && f * y == y * f;
    NumberTheory.MulMono(1, z, 2 + f * y);
  }

  /** What one delivered copy leads to weighs less than the copy. */
  lemma ReactionWeight(
    f: nat, d: nat, n: Node, peers: seq<string>, check: Check, p: Packet, out: seq<Envelope>, queued: seq<Announcement>)
    requires BoundedConfig(n.config, f, d)
    requires Reaction(n.config, n.self, n.users, peers, check, p.ann, out, queued)
    ensures FlightWeight(f, d, Passed(p, out)) + QueueWeight(f, d, queued) < Weight(f, d, p.ann)
  {
    hide Weight, Spread, Acknowledges, WellFormed, Throws, BoundedConfig;
    var a := p.ann;
    if WellFormed(a) && ForLocal(n.users, a) && a.messageDelivery.value.ackRequired {
      AckWeight(f, d, n.config, n.self, n.users, a, queued[0]);
      assert queued == [queued[0]];
    } else if WellFormed(a) && a.ttl > 0 && !ForLocal(n.users, a) && !Throws(check, a) {
      SpreadWeight(f, d, n.config, peers, a.(ttl := a.ttl - 1), out, Passed(p, out));
      ForwardWeight(f, d, a);
    }
  }

  // ----- the main results

  /** Every active event lowers the potential; queueing raises it by exactly what is put in. */
  lemma StepPays(f: nat, d: nat, s: Net, e: Event, t: Net)
    requires Bounded(s, f, d) && Step(s, e, t)
    ensures Bounded(t, f, d)
    ensures e.Queue? ==> Potential(f, d, t) == Potential(f, d, s) + 1 + f * Weight(f, d, e.ann)
    ensures !e.Queue? && !Active(s, e) ==> Potential(f, d, t) <= Potential(f, d, s)
    ensures Active(s, e) ==> Potential(f, d, t) < Potential(f, d, s)
  {
    hide Weight, Reaction, SpreadAll, BoundedConfig;
    match e {
      case Queue(i, a) =>
        NodesUpdate(f, d, s.nodes, i, t.nodes[i]);
        QueueAppend(f, d, s.nodes[i].queue, [a]);
        assert [a][..0] == [];
      case Flush(i, peers, out) =>
        NodesUpdate(f, d, s.nodes, i, t.nodes[i]);
        FlightAppend(f, d, s.flight, Fresh(out));
        if peers != [] {
          FlushWeight(f, d, s.nodes[i].config, peers, s.nodes[i].queue, out);
        }
      case Deliver(i, k, peers, check, out, queued) =>
        var p := s.flight[k];
        NodesUpdate(f, d, s.nodes, i, t.nodes[i]);
        QueueAppend(f, d, s.nodes[i].queue, queued);
        FlightWithout(f, d, s.flight, k);
        FlightAppend(f, d, Without(s.flight, k), Passed(p, out));
        ReactionWeight(f, d, s.nodes[i], peers, check, p, out, queued);
      case Lose(k) =>
        FlightWithout(f, d, s.flight, k);
    }
  }

  /** In any run, the deliveries, losses and flushes together are no more than the potential ever put in. */
  lemma {:induction false} Quiesces(f: nat, d: nat, states: seq<Net>, events: seq<Event>)
    requires Run(states, events) && Bounded(states[0], f, d)
    ensures Bounded(states[|events|], f, d)
    ensures Work(states, events) + Potential(f, d, states[|events|])
         <= Potential(f, d, states[0]) + Injected(f, d, events)
    decreases |events|
  {
    hide Step, Bounded, Potential, Weight;
    if events != [] {
      var n := |events| - 1;
      Quiesces(f, d, states[..n + 1], events[..n]);
      StepPays(f, d, states[n], events[n], states[n + 1]);
    }
  }

  /** The potential is spent exactly when nothing is in flight and nothing is queued. */
  lemma SilentIffSpent(f: nat, d: nat, s: Net)
    ensures Potential(f, d, s) == 0 <==> Silent(s)
  {
    hide Weight;
    NodesSpent(f, d, s.nodes);
  }

  lemma {:induction false} NodesSpent(f: nat, d: nat, nodes: seq<Node>)
    ensures NodesWeight(f, d, nodes) == 0 <==> forall i :: 0 <= i < |nodes| ==> nodes[i].queue == []
  {
    hide Weight;
    if nodes != [] {
      var last := |nodes| - 1;
      NodesSpent(f, d, nodes[..last]);
      assert forall i :: 0 <= i < last ==> nodes[..last][i] == nodes[i];
    }
  }

  // ----- hops

  /** Each link after the first cost one unit of the TTL the announcement was queued with. */
  predicate Travelled(p: Packet) {
    p.hops == 1 + p.born - p.ann.ttl && (p.hops == 1 || p.ann.ttl >= 0)
  }

  predicate AllTravelled(flight: seq<Packet>) {
    forall k :: 0 <= k < |flight| ==> Travelled(flight[k])
  }

  lemma PassedTravelled(s: Net, e: Event, t: Net)
    requires e.Deliver? && Step(s, e, t) && AllTravelled(s.flight)
    ensures AllTravelled(Passed(s.flight[e.packet], e.out))
  {
    hide WellFormed, Acknowledges, Throws, ForLocal;
  }

  /** An announcement queued with TTL t is never sent over more than t + 1 links. */
  lemma {:induction false} HopBound(states: seq<Net>, events: seq<Event>)
    requires Run(states, events) && AllTravelled(states[0].flight)
    ensures AllTravelled(states[|events|].flight)
    ensures forall k :: 0 <= k < |states[|events|].flight| ==>
      states[|events|].flight[k].hops <= 1 + Positive(states[|events|].flight[k].born)
    decreases |events|
  {
    hide Reaction, SpreadAll;
    if events != [] {
      var n := |events| - 1;
      HopBound(states[..n + 1], events[..n]);
      var s, e, t := states[n], events[n], states[n + 1];
      assert Step(s, e, t);
      if e.Deliver? {
        PassedTravelled(s, e, t);
      }
    }
  }

  function Positive(t: int): int {
    if t < 0 then 0 else t
  }

  // ----- acknowledgements

  ghost predicate Held(s: Net, a: Announcement) {
    || (exists k :: 0 <= k < |s.flight| && s.flight[k].ann == a)
    || (exists i :: 0 <= i < |s.nodes| && a in s.nodes[i].queue)
  }

  /** The event delivers the message that receipt r confirms, to a node of the recipient it names. */
  ghost predicate Confirms(s: Net, e: Event, r: Receipt) {
    && e.Deliver? && e.node < |s.nodes| && e.packet < |s.flight|
    && var a := s.flight[e.packet].ann;
       a.messageDelivery.Some? && a.messageDelivery.value.ackRequired
       && r == Receipt(a.messageDelivery.value.messageId, r.recipientId, "delivered", a.nodeId)
       && FirstLocal(s.nodes[e.node].users, a.messageDelivery.value.recipientIds, r.recipientId)
  }

  lemma {:induction false} SpreadFromBatch(c: Config, peers: seq<string>, batch: seq<Announcement>, out: seq<Envelope>)
    requires SpreadAll(c, peers, batch, out)
    ensures forall k :: 0 <= k < |out| ==> out[k].ann in batch
    decreases |batch|
  {
    if batch != [] {
      var last := |batch| - 1;
      var n := Reach(Fanout(c, batch[last]), |peers|);
      SpreadFromBatch(c, peers, batch[..last], out[..|out| - n]);
      forall k | 0 <= k < |out| ensures out[k].ann in batch {
        if k < |out| - n {
          assert out[k] == out[..|out| - n][k];
        } else {
          assert out[k] == out[|out| - n..][k - (|out| - n)];
        }
      }
    }
  }

  /** Whatever carries a receipt after an event carried it before, was just queued, or is confirmed by the event. */
  lemma WhereFrom(s: Net, e: Event, t: Net, a: Announcement)
    requires Step(s, e, t) && Held(t, a) && a.deliveryAck.Some?
    ensures || (exists b :: Held(s, b) && b.deliveryAck == a.deliveryAck)
            || (e.Queue? && e.ann == a)
            || Confirms(s, e, a.deliveryAck.value)
  {
    hide FirstLocal, Reaction, SpreadAll;
    if Held(s, a) {
    } else if e.Flush? && e.peers != [] {
      SpreadFromBatch(s.nodes[e.node].config, e.peers, s.nodes[e.node].queue, e.out);
    } else if e.Deliver? {
      DeliveredFrom(s, e, t, a);
    }
  }

  lemma DeliveredFrom(s: Net, e: Event, t: Net, a: Announcement)
    requires e.Deliver? && Step(s, e, t) && Held(t, a) && !Held(s, a) && a.deliveryAck.Some?
    ensures s.flight[e.packet].ann.deliveryAck == a.deliveryAck || Confirms(s, e, a.deliveryAck.value)
    ensures Held(s, s.flight[e.packet].ann)
  {
    hide FirstLocal, WellFormed, Throws;
    if a !in e.queued {
      var k :| 0 <= k < |t.flight| && t.flight[k].ann == a;
      var kept := |s.flight| - 1;
      assert forall i :: 0 <= i < kept ==> Held(s, Without(s.flight, e.packet)[i].ann);
      assert k >= kept;
      assert t.flight[k] == Passed(s.flight[e.packet], e.out)[k - kept];
    }
  }

  /**
   If nobody queues acknowledgements by hand, every one in the network confirms a message that was delivered,
   earlier in the run, to a node where the recipient it names is a local user.
   */
  lemma {:induction false} AcksConfirmDeliveries(states: seq<Net>, events: seq<Event>)
    requires Run(states, events)
    requires forall a :: Held(states[0], a) ==> a.deliveryAck.None?
    requires forall i :: 0 <= i < |events| && events[i].Queue? ==> events[i].ann.deliveryAck.None?
    ensures forall a :: Held(states[|events|], a) && a.deliveryAck.Some? ==>
      exists j :: 0 <= j < |events| && Confirms(states[j], events[j], a.deliveryAck.value)
    decreases |events|
  {
    hide Step, Held, Confirms;
    if events != [] {
      var n := |events| - 1;
      AcksConfirmDeliveries(states[..n + 1], events[..n]);
      forall a | Held(states[n + 1], a) && a.deliveryAck.Some?
        ensures exists j :: 0 <= j < |events| && Confirms(states[j], events[j], a.deliveryAck.value)
      {
        assert Step(states[n], events[n], states[n + 1]);
        WhereFrom(states[n], events[n], states[n + 1], a);
        if b :| Held(states[n], b) && b.deliveryAck == a.deliveryAck {
          assert Held(states[..n + 1][n], b);
          var j :| 0 <= j < n && Confirms(states[..n + 1][j], events[..n][j], b.deliveryAck.value);
          assert Confirms(states[j], events[j], a.deliveryAck.value);
        } else {
          assert Confirms(states[n], events[n], a.deliveryAck.value);
        }
      }
    }
  }
}
