/** What receipts, checks and delays do, in terms of the text of a receipt, the clock and the statuses themselves. */
module RetryMeaning {
  import opened NumberTheory
  import opened Retry
  import opened RetryRuns
  import opened SetFacts
  import Gossip

  // ----- receipts

  predicate Reached(s: Status) {
    s.Delivered? || s.Read?
  }

  /** Everybody but r has been reached. */
  predicate OthersReached(d: Tracked, r: string) {
    forall k :: k in d.statuses && k != r ==> Reached(d.statuses[k])
  }

  /** By the text of the receipt and the status of its recipient: what changes, and when the delivery is over. */
  lemma ReceiptMeans(p: Deliveries, ack: Gossip.Receipt)
    ensures var q, id, r := AfterAck(p, ack), ack.messageId, ack.recipientId;
      var over := id in p && forall k :: k in p[id].statuses && k != r ==>
        p[id].statuses[k] == Delivered || p[id].statuses[k] == Read;
      if id in p && r in p[id].statuses && ack.status == "delivered" && p[id].statuses[r] == Pending then
        q == if over then p - {id}
             else p[id := p[id].(statuses := p[id].statuses[r := Delivered])]
      else if id in p && r in p[id].statuses && ack.status == "read" && p[id].statuses[r] == Delivered then
        q == if over then p - {id} else p[id := p[id].(statuses := p[id].statuses[r := Read])]
      else if id in p && r in p[id].statuses && ack.status == "failed" && p[id].statuses[r] == Pending then
        q == p[id := p[id].(statuses := p[id].statuses[r := Failed])]
      else if id in p && r in p[id].statuses && ack.status == "bounced" && p[id].statuses[r] == Pending then
        q == p[id := p[id].(statuses := p[id].statuses[r := Bounced])]
      else q == p
  {
    var id, r := ack.messageId, ack.recipientId;
    if Applies(p, ack) {
      var to := StatusOf(ack.status).value;
      assert Acked(p[id], ack).statuses == p[id].statuses[r := to];
      assert Settled(Acked(p[id], ack)) <==> Reached(to) && OthersReached(p[id], r) by {
        var after := p[id].statuses[r := to];
        assert after[r] == to;
        assert forall k :: k in p[id].statuses && k != r ==> k in after && after[k] == p[id].statuses[k];
      }
    }
  }

  /** A receipt ends a delivery only if it says "delivered" or "read", in a reachable state only "delivered". */
  lemma EndsByReceipt(c: Config, s: Service, receipt: Gossip.Receipt, t: Service, id: string)
    requires Step(c, s, Ack(receipt), t) && id in s.deliveries && id !in t.deliveries
    ensures receipt.messageId == id && (receipt.status == "delivered" || receipt.status == "read")
    ensures t.failures == s.failures
    ensures AllHealthy(c, s.deliveries) ==> receipt.status == "delivered"
  {
    ReceiptMeans(s.deliveries, receipt);
    assert AllHealthy(c, s.deliveries) ==> Healthy(c, s.deliveries[id]);
  }

  /** "failed" and "bounced" end nothing. */
  lemma KeepsByReceipt(p: Deliveries, ack: Gossip.Receipt)
    requires ack.status == "failed" || ack.status == "bounced"
    ensures AfterAck(p, ack).Keys == p.Keys
  {
    ReceiptMeans(p, ack);
  }

  /** The receipts of a delivery, one "delivered" from each recipient listed, in this order. */
  ghost predicate Confirming(events: seq<Event>, id: string, rs: seq<string>) {
    && |events| == |rs|
    && forall i :: 0 <= i < |rs| ==>
      && events[i].Ack? && events[i].receipt.messageId == id && events[i].receipt.recipientId == rs[i]
      && events[i].receipt.status == "delivered"
  }

  /** Those of `left` have not answered yet, all others have been reached. */
  predicate Awaiting(d: Tracked, left: set<string>) {
    && left <= d.statuses.Keys && left != {}
    && (forall r :: r in left ==> d.statuses[r] == Pending)
    && forall r :: r in d.statuses && r !in left ==> Reached(d.statuses[r])
  }

  lemma ConfirmOne(c: Config, s: Service, e: Event, t: Service, id: string, r: string, left: set<string>)
    requires Step(c, s, e, t) && e.Ack? && e.receipt.messageId == id && e.receipt.recipientId == r
    requires e.receipt.status == "delivered" && id in s.deliveries && r in left && Awaiting(s.deliveries[id], left)
    ensures t.failures == s.failures
    ensures left == {r} ==> t.deliveries == s.deliveries - {id}
    ensures left != {r} ==> id in t.deliveries && Awaiting(t.deliveries[id], left - {r})
  {
    ReceiptMeans(s.deliveries, e.receipt);
    var d := s.deliveries[id];
    if left == {r} {
      assert OthersReached(d, r);
    } else {
      var k :| k in left && k != r;
      assert !OthersReached(d, r);
      assert left - {r} != {};
    }
  }

  /** When every recipient is pending and then confirms, in whatever order, the delivery is over and nobody is reported. */
  lemma {:induction false} AllConfirm(
    c: Config, states: seq<Service>, events: seq<Event>, id: string, rs: seq<string>)
    requires Run(c, states, events) && Confirming(events, id, rs) && Distinct(rs) && id in states[0].deliveries
    requires Awaiting(states[0].deliveries[id], Elems(rs))
    ensures states[|events|].deliveries == states[0].deliveries - {id}
    ensures states[|events|].failures == states[0].failures
    decreases |rs|
  {
    hide Step, Awaiting;
    var left := Elems(rs);
    assert rs != [] by {
      AwaitsSome(states[0].deliveries[id], left);
    }
    assert rs[0] in left && Step(c, states[0], events[0], states[1]);
    ConfirmOne(c, states[0], events[0], states[1], id, rs[0], left);
    TailElems(rs);
    if left != {rs[0]} {
      AllConfirm(c, states[1..], events[1..], id, rs[1..]);
      AfterOne(c, states[0], events[0], states[1], id);
    } else {
      DistinctElems(rs);
    }
  }

  lemma TailElems(rs: seq<string>)
    requires rs != [] && Distinct(rs)
    ensures Elems(rs[1..]) == Elems(rs) - {rs[0]}
  {
    assert rs == [rs[0]] + rs[1..];
  }

  lemma AwaitsSome(d: Tracked, left: set<string>)
    requires Awaiting(d, left)
    ensures left != {}
  {
  }

  /** A receipt changes no other delivery. */
  lemma AfterOne(c: Config, s: Service, e: Event, t: Service, id: string)
    requires Step(c, s, e, t) && e.Ack? && e.receipt.messageId == id
    ensures t.deliveries - {id} == s.deliveries - {id}
  {
    ReceiptMeans(s.deliveries, e.receipt);
  }

  // ----- checks

  /** A new message: everybody announced, to be checked after the first timeout. One that is tracked stays. */
  lemma TrackMeans(
    c: Config, p: Deliveries, id: string, blockIds: seq<string>, metadata: Gossip.Delivery, now: int)
    ensures var q := AfterTrack(c, p, id, blockIds, metadata, now);
      && id in q && q - {id} == p - {id} && (id in p ==> q[id] == p[id])
      && (id !in p ==>
        && q[id].blockIds == blockIds && q[id].metadata == metadata && q[id].retryCount == 0 && q[id].createdAt == now
        && q[id].nextRetryAt == now + c.initialTimeoutMs && q[id].statuses.Keys == Elems(metadata.recipientIds)
        && forall r :: r in q[id].statuses ==> q[id].statuses[r] == Announced)
  {
  }

  /**
   Before its time a delivery is left as it is. From then on, a check counts one more retry, turns announced into
   pending and sets the next time by the delay, or, when all retries are used up, removes it.
   */
  lemma CheckMeans(c: Config, p: Deliveries, now: int, id: string)
    requires id in p
    ensures var q, d := AfterCheck(c, p, now), p[id];
      if now < d.nextRetryAt then id in q && q[id] == d
      else if d.retryCount >= c.maxRetries then id !in q
      else
        && id in q && q[id].retryCount == d.retryCount + 1 && q[id].nextRetryAt == now + Backoff(c, d.retryCount + 1)
        && q[id].blockIds == d.blockIds && q[id].metadata == d.metadata && q[id].createdAt == d.createdAt
        && q[id].statuses.Keys == d.statuses.Keys
        && forall r :: r in d.statuses ==>
          q[id].statuses[r] == if d.statuses[r] == Announced then Pending else d.statuses[r]
  {
  }

  // ----- delays

  /** The first delay is the initial timeout, each next one the multiplier times the last, all up to the cap. */
  lemma BackoffMeans(c: Config, k: int)
    requires c.initialTimeoutMs >= 0 && c.backoffMultiplier >= 1 && k >= 1
    ensures Backoff(c, 0) == c.initialTimeoutMs && Backoff(c, 1) == Least(c.initialTimeoutMs, c.maxBackoffMs)
    ensures c.maxBackoffMs >= 0 ==>
      Backoff(c, k + 1) == Least(c.backoffMultiplier * Backoff(c, k), c.maxBackoffMs)
  {
    var p := Pow(c.backoffMultiplier, k - 1);
    PowerPositive(c.backoffMultiplier, k - 1);
    assert Pow(c.backoffMultiplier, k) == c.backoffMultiplier * p;
    assert Pow(c.backoffMultiplier, 0) == 1;
    var x := c.initialTimeoutMs * p;
    assert c.initialTimeoutMs * (c.backoffMultiplier * p) == c.backoffMultiplier * x;
    assert x >= 0;
    AtLeast(c.backoffMultiplier, x);
    if c.maxBackoffMs >= 0 {
      AtLeast(c.backoffMultiplier, c.maxBackoffMs);
      if x > c.maxBackoffMs {
        assert c.backoffMultiplier * x >= x;
      }
    }
  }

  function Least(a: int, b: int): int {
    if a < b then a else b
  }

  lemma AtLeast(m: int, x: int)
    requires m >= 1 && x >= 0
    ensures m * x >= x
  {}

  /** The delays of the first k retries. */
  function Delays(c: Config, k: nat): int {
    if k == 0 then 0 else Delays(c, k - 1) + Backoff(c, k)
  }

  /** The earliest that the next check of a delivery can be due. */
  predicate NotEarly(c: Config, d: Tracked) {
    d.retryCount >= 0 && d.nextRetryAt >= d.createdAt + c.initialTimeoutMs + Delays(c, d.retryCount)
  }

  lemma StepNotEarly(c: Config, s: Service, e: Event, t: Service)
    requires Step(c, s, e, t) && forall id :: id in s.deliveries ==> NotEarly(c, s.deliveries[id])
    ensures forall id :: id in t.deliveries ==> NotEarly(c, t.deliveries[id])
  {
    hide Backoff, Delays, AfterTrack, AfterAck, AfterCheck;
    forall id | id in t.deliveries ensures NotEarly(c, t.deliveries[id]) {
      match e {
        case Track(added, blockIds, metadata, now) =>
          TrackMeans(c, s.deliveries, added, blockIds, metadata, now);
          NoDelay(c);
          assert id != added ==> id in t.deliveries - {added};
        case Ack(receipt) =>
          ReceiptMeans(s.deliveries, receipt);
        case Check(now, _) =>
          CheckedWas(c, s.deliveries, now, id);
          CheckMeans(c, s.deliveries, now, id);
          if s.deliveries[id].retryCount >= 0 {
            OneDelay(c, s.deliveries[id].retryCount + 1);
          }
      }
    }
  }

  lemma NoDelay(c: Config)
    ensures Delays(c, 0) == 0
  {
  }

  lemma OneDelay(c: Config, k: nat)
    requires k > 0
    ensures Delays(c, k) == Delays(c, k - 1) + Backoff(c, k)
  {
  }

  lemma CheckedWas(c: Config, p: Deliveries, now: int, id: string)
    requires id in AfterCheck(c, p, now)
    ensures id in p
  {
  }

  lemma {:induction false} RunNotEarly(c: Config, states: seq<Service>, events: seq<Event>)
    requires Run(c, states, events) && states[0].deliveries == map[]
    ensures forall id :: id in states[|events|].deliveries ==> NotEarly(c, states[|events|].deliveries[id])
    decreases |events|
  {
    hide Step, NotEarly;
    if events != [] {
      var n := |events| - 1;
      RunNotEarly(c, states[..n + 1], events[..n]);
      StepNotEarly(c, states[n], events[n], states[n + 1]);
    }
  }

  /** And no delivery is given up, in any run, before the first timeout and the delays of all its retries have passed. */
  lemma NotGivenUpBefore(c: Config, states: seq<Service>, events: seq<Event>, id: string)
    requires c.maxRetries >= 0 && Run(c, states, events) && states[0].deliveries == map[] && events != []
    requires events[|events| - 1].Check? && id in Ids(events[|events| - 1].calls)
    ensures var d := states[|events| - 1].deliveries;
      id in d && events[|events| - 1].now >= d[id].createdAt + c.initialTimeoutMs + Delays(c, c.maxRetries)
  {
    var n := |events| - 1;
    RunNotEarly(c, states[..n + 1], events[..n]);
    RunHealthy(c, states[..n + 1], events[..n]);
    assert Step(c, states[n], events[n], states[n + 1]);
    var d := states[n].deliveries[id];
    assert Exhausted(c, d, events[n].now) && Healthy(c, d) && NotEarly(c, d);
  }
}
