/** Whole runs of the retry service: any interleaving of tracked messages, acknowledgements and timer checks. */
module RetryRuns {
  import opened NumberTheory
  import opened Retry
  import opened SetFacts
  import Gossip

  datatype Service = Service(deliveries: Deliveries, failures: seq<Failure>)

  datatype Event =
    | Track(id: string, blockIds: seq<string>, metadata: Gossip.Delivery, now: int)
    | Ack(receipt: Gossip.Receipt)
    | Check(now: int, calls: seq<Failure>)

  ghost predicate Step(c: Config, s: Service, e: Event, t: Service) {
    match e
    case Track(id, blockIds, metadata, now) =>
      t == s.(deliveries := AfterTrack(c, s.deliveries, id, blockIds, metadata, now))
    case Ack(receipt) =>
      t == s.(deliveries := AfterAck(s.deliveries, receipt))
    case Check(now, calls) =>
      && Reports(c, s.deliveries, now, calls)
      && t == Service(AfterCheck(c, s.deliveries, now), s.failures + calls)
  }

  ghost predicate Run(c: Config, states: seq<Service>, events: seq<Event>) {
    |states| == |events| + 1 && forall i :: 0 <= i < |events| ==> Step(c, states[i], events[i], states[i + 1])
  }

  // ----- what every reachable state keeps

  predicate AllAnnounced(d: Tracked) {
    forall r :: r in d.statuses ==> d.statuses[r].Announced?
  }

  predicate NoneAnnounced(d: Tracked) {
    forall r :: r in d.statuses ==> !d.statuses[r].Announced?
  }

  /** Announced until the first retry, never after; and someone has yet to answer. */
  predicate Healthy(c: Config, d: Tracked) {
    && 0 <= d.retryCount <= c.maxRetries
    && (if d.retryCount == 0 then AllAnnounced(d) else NoneAnnounced(d))
    && (d.statuses != map[] ==> !Settled(d))
  }

  predicate AllHealthy(c: Config, p: Deliveries) {
    forall id :: id in p ==> Healthy(c, p[id])
  }

  lemma NewHealthy(c: Config, blockIds: seq<string>, metadata: Gossip.Delivery, now: int)
    requires c.maxRetries >= 0
    ensures Healthy(c, NewDelivery(c, blockIds, metadata, now))
  {
    var d := NewDelivery(c, blockIds, metadata, now);
    if d.statuses != map[] {
      var r :| r in d.statuses;
      assert d.statuses[r].Announced?;
    }
  }

  lemma AckHealthy(c: Config, p: Deliveries, ack: Gossip.Receipt)
    requires AllHealthy(c, p) && Applies(p, ack)
    ensures Settled(Acked(p[ack.messageId], ack)) || Healthy(c, Acked(p[ack.messageId], ack))
  {
    var d := p[ack.messageId];
    assert !d.statuses[ack.recipientId].Announced?;
  }

  lemma RetriedHealthy(c: Config, d: Tracked, now: int)
    requires Healthy(c, d) && !Exhausted(c, d, now)
    ensures Healthy(c, Retried(c, d, now))
  {
    var e := Retried(c, d, now);
    if d.statuses != map[] {
      var r :| r in d.statuses && !d.statuses[r].Delivered? && !d.statuses[r].Read?;
      assert r in e.statuses && !e.statuses[r].Delivered? && !e.statuses[r].Read?;
    }
  }

  lemma StepHealthy(c: Config, s: Service, e: Event, t: Service)
    requires c.maxRetries >= 0 && Step(c, s, e, t) && AllHealthy(c, s.deliveries)
    ensures AllHealthy(c, t.deliveries)
  {
    hide Healthy, Retried, Exhausted, NewDelivery, Settled, Reports, Applies, Acked;
    match e {
      case Track(id, blockIds, metadata, now) => NewHealthy(c, blockIds, metadata, now);
      case Ack(receipt) =>
        if Applies(s.deliveries, receipt) {
          AckHealthy(c, s.deliveries, receipt);
        }
      case Check(now, _) =>
        forall id | id in s.deliveries && !Exhausted(c, s.deliveries[id], now)
          ensures Healthy(c, Retried(c, s.deliveries[id], now))
        {
          RetriedHealthy(c, s.deliveries[id], now);
        }
    }
  }

  /**
   In every state reached from an empty service: a delivery to somebody has retryCount zero exactly while all its
   recipients are announced, and is never one whose recipients have all been delivered to.
   */
  lemma Reachable(c: Config, states: seq<Service>, events: seq<Event>, id: string)
    requires c.maxRetries >= 0 && Run(c, states, events) && states[0].deliveries == map[]
    requires id in states[|events|].deliveries
    ensures AllHealthy(c, states[|events|].deliveries)
    ensures var d := states[|events|].deliveries[id];
      d.statuses != map[] ==> (d.retryCount == 0 <==> AllAnnounced(d)) && !Settled(d)
  {
    RunHealthy(c, states, events);
    var d := states[|events|].deliveries[id];
    assert Healthy(c, d);
    if d.statuses != map[] {
      var r :| r in d.statuses;
    }
  }

  lemma {:induction false} RunHealthy(c: Config, states: seq<Service>, events: seq<Event>)
    requires c.maxRetries >= 0 && Run(c, states, events) && AllHealthy(c, states[0].deliveries)
    ensures AllHealthy(c, states[|events|].deliveries)
    decreases |events|
  {
    hide Step, Healthy;
    if events != [] {
      var n := |events| - 1;
      RunHealthy(c, states[..n + 1], events[..n]);
      StepHealthy(c, states[n], events[n], states[n + 1]);
    }
  }

  // ----- statuses move along the state machine

  predicate Moves(from: Tracked, to: Tracked) {
    && to.statuses.Keys == from.statuses.Keys
    && forall r :: r in from.statuses ==>
      to.statuses[r] == from.statuses[r] || ValidTransition(from.statuses[r], to.statuses[r])
  }

  /** Whatever happens, a delivery that stays tracked moves along the edges of the state machine. */
  lemma StepMoves(c: Config, s: Service, e: Event, t: Service, id: string)
    requires Step(c, s, e, t) && id in s.deliveries && id in t.deliveries
    ensures Moves(s.deliveries[id], t.deliveries[id])
  {
    hide Reports, Settled;
  }

  /** Giving up moves recipients along the edges exactly when at least one retry is configured. */
  lemma GivingUpMoves(c: Config, d: Tracked, now: int)
    requires Healthy(c, d) && Exhausted(c, d, now) && d.statuses != map[]
    ensures (forall r :: r in Unanswered(d) ==> ValidTransition(d.statuses[r], Failed)) <==> c.maxRetries >= 1
    ensures c.maxRetries >= 1 ==> Unanswered(d) == set r | r in d.statuses && d.statuses[r].Pending?
  {
    if c.maxRetries == 0 {
      var r :| r in d.statuses;
      assert r in Unanswered(d) && d.statuses[r].Announced?;
    }
  }

  predicate Kept(states: seq<Service>, id: string) {
    forall i :: 0 <= i < |states| ==> id in states[i].deliveries
  }

  /** A recipient that has answered is never reported as failed, nor asked again, while its delivery is tracked. */
  lemma {:induction false} OnceAnswered(c: Config, states: seq<Service>, events: seq<Event>, id: string, r: string)
    requires Run(c, states, events) && Kept(states, id)
    requires r in states[0].deliveries[id].statuses && r !in Unanswered(states[0].deliveries[id])
    ensures r in states[|events|].deliveries[id].statuses && r !in Unanswered(states[|events|].deliveries[id])
    decreases |events|
  {
    hide Step;
    if events != [] {
      var n := |events| - 1;
      OnceAnswered(c, states[..n + 1], events[..n], id, r);
      assert id in states[n].deliveries && id in states[n + 1].deliveries;
      StepMoves(c, states[n], events[n], states[n + 1], id);
    }
  }

  // ----- how long a delivery stays

  predicate DueCheck(s: Service, e: Event, id: string) {
    e.Check? && id in s.deliveries && Due(s.deliveries[id], e.now)
  }

  function DueChecks(states: seq<Service>, events: seq<Event>, id: string): nat
    requires |states| == |events| + 1
  {
    if events == [] then 0 else
      var n := |events| - 1;
      DueChecks(states[..n + 1], events[..n], id) + if DueCheck(states[n], events[n], id) then 1 else 0
  }

  lemma RetryCounts(c: Config, s: Service, e: Event, t: Service, id: string)
    requires Step(c, s, e, t) && id in s.deliveries && id in t.deliveries
    ensures t.deliveries[id].retryCount == s.deliveries[id].retryCount + if DueCheck(s, e, id) then 1 else 0
    ensures t.deliveries[id].createdAt == s.deliveries[id].createdAt
  {
    hide Reports, Settled;
  }

  /** While a delivery stays, its retry count is its number of due checks; so it leaves by number maxRetries + 1. */
  lemma {:induction false} StaysAtMost(c: Config, states: seq<Service>, events: seq<Event>, id: string)
    requires c.maxRetries >= 0 && Run(c, states, events) && Kept(states, id) && AllHealthy(c, states[0].deliveries)
    ensures states[|events|].deliveries[id].retryCount
         == states[0].deliveries[id].retryCount + DueChecks(states, events, id)
    ensures DueChecks(states, events, id) <= c.maxRetries
    decreases |events|
  {
    hide Step;
    assert id in states[0].deliveries && id in states[|events|].deliveries;
    RunHealthy(c, states, events);
    assert Healthy(c, states[0].deliveries[id]) && Healthy(c, states[|events|].deliveries[id]);
    if events != [] {
      var n := |events| - 1;
      StaysAtMost(c, states[..n + 1], events[..n], id);
      assert id in states[n].deliveries && id in states[n + 1].deliveries;
      RetryCounts(c, states[n], events[n], states[n + 1], id);
    }
  }

  /** No check comes more than `late` after it is due. */
  predicate Punctual(s: Service, e: Event, late: nat) {
    e.Check? ==> forall id :: id in s.deliveries ==> e.now <= s.deliveries[id].nextRetryAt + late
  }

  /** The latest that the next check of a delivery can be due. */
  predicate OnTime(c: Config, d: Tracked, late: nat) {
    d.nextRetryAt <= d.createdAt + c.initialTimeoutMs + d.retryCount * (late + c.maxBackoffMs)
  }

  predicate AllOnTime(c: Config, p: Deliveries, late: nat) {
    forall id :: id in p ==> OnTime(c, p[id], late)
  }

  lemma BackoffBounded(c: Config, k: int)
    requires k >= 1
    ensures Backoff(c, k) <= c.maxBackoffMs
  {
  }

  lemma RetriedOnTime(c: Config, d: Tracked, now: int, late: nat)
    requires OnTime(c, d, late) && d.retryCount >= 0 && now <= d.nextRetryAt + late
    ensures OnTime(c, Retried(c, d, now), late)
  {
    hide Backoff;
    BackoffBounded(c, d.retryCount + 1);
    var m := late + c.maxBackoffMs;
    assert (d.retryCount + 1) * m == d.retryCount * m + m;
  }

  lemma StepOnTime(c: Config, s: Service, e: Event, t: Service, late: nat)
    requires Step(c, s, e, t) && AllHealthy(c, s.deliveries) && AllOnTime(c, s.deliveries, late) && Punctual(s, e, late)
    ensures AllOnTime(c, t.deliveries, late)
  {
    hide Retried, Exhausted, Reports, Settled;
    match e {
      case Track(_, _, _, _) =>
      case Ack(_) =>
      case Check(now, _) =>
        forall id | id in t.deliveries ensures OnTime(c, t.deliveries[id], late) {
          assert Healthy(c, s.deliveries[id]);
          RetriedOnTime(c, s.deliveries[id], now, late);
        }
    }
  }

  /**
   With punctual checks, a delivery is given up no later than maxRetries full backoffs after its first timeout.
   */
  lemma {:induction false} GivenUpBy(
    c: Config, states: seq<Service>, events: seq<Event>, late: nat, id: string)
    requires c.maxRetries >= 0 && Run(c, states, events) && states[0].deliveries == map[]
    requires forall i :: 0 <= i < |events| ==> Punctual(states[i], events[i], late)
    ensures AllOnTime(c, states[|events|].deliveries, late)
    ensures events != [] && events[|events| - 1].Check? && id in Ids(events[|events| - 1].calls) ==>
      && id in states[|events| - 1].deliveries
      && var d := states[|events| - 1].deliveries[id];
         events[|events| - 1].now <= d.createdAt + c.initialTimeoutMs + c.maxRetries * (late + c.maxBackoffMs) + late
    decreases |events|
  {
    hide AfterTrack, AfterAck, AfterCheck;
    if events != [] {
      var n := |events| - 1;
      GivenUpBy(c, states[..n + 1], events[..n], late, id);
      RunHealthy(c, states[..n + 1], events[..n]);
      var s, e := states[n], events[n];
      assert Step(c, s, e, states[n + 1]) && Punctual(s, e, late);
      StepOnTime(c, s, e, states[n + 1], late);
      if e.Check? && id in Ids(e.calls) {
        var d := s.deliveries[id];
        assert Healthy(c, d) && OnTime(c, d, late);
        assert d.retryCount == c.maxRetries;
      }
    }
  }

  /** Delays grow with each retry, up to the cap. */
  lemma {:induction false} BackoffGrows(c: Config, k: int, l: int)
    requires 1 <= k <= l && c.initialTimeoutMs >= 0 && c.backoffMultiplier >= 1
    ensures Backoff(c, k) <= Backoff(c, l)
    decreases l
  {
    if k < l {
      BackoffGrows(c, k, l - 1);
      PowerPositive(c.backoffMultiplier, l - 2);
      var p := Pow(c.backoffMultiplier, l - 2);
      assert p <= c.backoffMultiplier * p by {
        assert (c.backoffMultiplier - 1) * p >= 0;
      }
      assert c.initialTimeoutMs * p <= c.initialTimeoutMs * (c.backoffMultiplier * p);
    }
  }

  lemma {:induction false} PowerPositive(b: int, e: nat)
    requires b >= 1
    ensures Pow(b, e) >= 1
  {
    if e > 0 {
      PowerPositive(b, e - 1);
    }
  }

  // ----- failures

  function Count(ids: seq<string>, id: string): nat {
    multiset(ids)[id]
  }

  function Tracks(events: seq<Event>, id: string): nat {
    if events == [] then 0 else
      var e := events[|events| - 1];
      Tracks(events[..|events| - 1], id) + if e.Track? && e.id == id then 1 else 0
  }

  function Present(s: Service, id: string): nat {
    if id in s.deliveries then 1 else 0
  }

  /** One event: a failure call for a message takes it out of the service, and only tracking puts it in. */
  lemma StepFails(c: Config, s: Service, e: Event, t: Service, id: string)
    requires Step(c, s, e, t)
    ensures Count(Ids(t.failures), id) + Present(t, id)
         <= Count(Ids(s.failures), id) + Present(s, id) + Tracks([e], id)
  {
    hide Exhausted, Retried, Settled, Unanswered, Acked, NewDelivery;
    assert [e][..0] == [];
    if e.Check? {
      assert Ids(t.failures) == Ids(s.failures) + Ids(e.calls);
      DistinctCount(Ids(e.calls), id);
    }
  }

  lemma TracksAppend(events: seq<Event>, e: Event, id: string)
    ensures Tracks(events + [e], id) == Tracks(events, id) + Tracks([e], id)
  {
    assert (events + [e])[..|events|] == events && [e][..0] == [];
  }

  /** Each failure handler is called for a message at most as often as the message was handed in. */
  lemma {:induction false} FailsOnce(c: Config, states: seq<Service>, events: seq<Event>, id: string)
    requires Run(c, states, events)
    ensures Count(Ids(states[|events|].failures), id) + Present(states[|events|], id)
         <= Count(Ids(states[0].failures), id) + Present(states[0], id) + Tracks(events, id)
    decreases |events|
  {
    hide Step;
    if events != [] {
      var n := |events| - 1;
      FailsOnce(c, states[..n + 1], events[..n], id);
      StepFails(c, states[n], events[n], states[n + 1], id);
      TracksAppend(events[..n], events[n], id);
      assert events == events[..n] + [events[n]];
    }
  }

  /**
   A delivery leaves in exactly two ways: settled by an acknowledgement, with no failure call, or given up by a
   check, with one call that names exactly the recipients still pending.
   */
  lemma HowItLeaves(c: Config, s: Service, e: Event, t: Service, id: string)
    requires c.maxRetries >= 1 && Step(c, s, e, t) && AllHealthy(c, s.deliveries)
    requires id in s.deliveries && id !in t.deliveries
    ensures e.Ack? || e.Check?
    ensures e.Ack? ==> t.failures == s.failures && Settled(Acked(s.deliveries[id], e.receipt))
    ensures e.Check? ==> s.deliveries[id].retryCount == c.maxRetries && exists i ::
      && 0 <= i < |e.calls| && e.calls[i].messageId == id && Distinct(e.calls[i].recipients)
      && Elems(e.calls[i].recipients)
         == set r | r in s.deliveries[id].statuses && s.deliveries[id].statuses[r].Pending?
  {
    hide Retried, Elems, Settled, NewDelivery;
    if e.Check? {
      var d := s.deliveries[id];
      assert Healthy(c, d) && id in Ids(e.calls);
      var i :| 0 <= i < |e.calls| && Ids(e.calls)[i] == id;
      assert e.calls[i].messageId == id;
      if d.statuses != map[] {
        GivingUpMoves(c, d, e.now);
      } else {
        assert Unanswered(d) == {};
      }
    }
  }
}
