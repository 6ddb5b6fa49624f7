/**
 Message deliveries awaiting acknowledgement, retried with exponential backoff and finally given up.

 Times are milliseconds of the steady clock, passed in. The calls made to a failure handler are recorded in a list.
 */
module Retry {
  import opened NumberTheory
  import opened SetFacts
  import opened Wrappers
  import Gossip

  datatype Status = Announced | Pending | Delivered | Read | Failed | Bounced

  datatype Config = Config(initialTimeoutMs: int, backoffMultiplier: int, maxRetries: int, maxBackoffMs: int)

  datatype Tracked = Tracked(
    blockIds: seq<string>, metadata: Gossip.Delivery, statuses: map<string, Status>,
    retryCount: int, createdAt: int, nextRetryAt: int)

  datatype Failure = Failure(messageId: string, recipients: seq<string>)

  type Deliveries = map<string, Tracked>

  predicate ValidTransition(from: Status, to: Status) {
    match from
    case Announced => to.Pending?
    case Pending => to.Delivered? || to.Failed? || to.Bounced?
    case Delivered => to.Read?
    case Read | Failed | Bounced => false
  }

  /** The delay before the next check of a delivery checked retryCount times. */
  function Backoff(c: Config, retryCount: int): int {
    if retryCount <= 0 then c.initialTimeoutMs else
      var delay := c.initialTimeoutMs * Pow(c.backoffMultiplier, retryCount - 1);
      if delay > c.maxBackoffMs then c.maxBackoffMs else delay
  }

  function StatusOf(status: string): Option<Status> {
    if status == "delivered" then Some(Delivered)
    else if status == "read" then Some(Read)
    else if status == "failed" then Some(Failed)
    else if status == "bounced" then Some(Bounced)
    else None
  }

  // ----- what each operation makes of the tracked deliveries

  function NewDelivery(c: Config, blockIds: seq<string>, metadata: Gossip.Delivery, now: int): Tracked {
    var statuses := map r | r in metadata.recipientIds :: Announced;
    Tracked(blockIds, metadata, statuses, 0, now, now + c.initialTimeoutMs)
  }

  /** A message that is already tracked is left as it is. */
  function AfterTrack(
    c: Config, p: Deliveries, id: string, blockIds: seq<string>, metadata: Gossip.Delivery, now: int): Deliveries
  {
    if id in p then p else p[id := NewDelivery(c, blockIds, metadata, now)]
  }

  predicate Settled(d: Tracked) {
    forall r :: r in d.statuses ==> d.statuses[r].Delivered? || d.statuses[r].Read?
  }

  /** Whether an acknowledgement is of a tracked delivery, known recipient, known status, and legal. */
  predicate Applies(p: Deliveries, ack: Gossip.Receipt) {
    && ack.messageId in p && ack.recipientId in p[ack.messageId].statuses && StatusOf(ack.status).Some?
    && ValidTransition(p[ack.messageId].statuses[ack.recipientId], StatusOf(ack.status).value)
  }

  function Acked(d: Tracked, ack: Gossip.Receipt): Tracked
    requires StatusOf(ack.status).Some?
  {
    d.(statuses := d.statuses[ack.recipientId := StatusOf(ack.status).value])
  }

  function AfterAck(p: Deliveries, ack: Gossip.Receipt): Deliveries {
    if !Applies(p, ack) then p
    else if Settled(Acked(p[ack.messageId], ack)) then p - {ack.messageId}
    else p[ack.messageId := Acked(p[ack.messageId], ack)]
  }

  predicate Due(d: Tracked, now: int) {
    d.nextRetryAt <= now
  }

  predicate Exhausted(c: Config, d: Tracked, now: int) {
    Due(d, now) && d.retryCount + 1 > c.maxRetries
  }

  function Retried(c: Config, d: Tracked, now: int): Tracked {
    if !Due(d, now) then d else
      var statuses := map r | r in d.statuses :: if d.statuses[r].Announced? then Pending else d.statuses[r];
      Tracked(d.blockIds, d.metadata, statuses, d.retryCount + 1, d.createdAt, now + Backoff(c, d.retryCount + 1))
  }

  function AfterCheck(c: Config, p: Deliveries, now: int): Deliveries {
    map id | id in p && !Exhausted(c, p[id], now) :: Retried(c, p[id], now)
  }

  /** The recipients that a delivery given up now reports. */
  function Unanswered(d: Tracked): set<string> {
    set r | r in d.statuses && (d.statuses[r].Announced? || d.statuses[r].Pending?)
  }

  function Ids(calls: seq<Failure>): (r: seq<string>) {
    seq(|calls|, i requires 0 <= i < |calls| => calls[i].messageId)
  }

  /** One failure call for each exhausted delivery, naming each unanswered recipient once. */
  ghost predicate Reports(c: Config, p: Deliveries, now: int, calls: seq<Failure>) {
    && Distinct(Ids(calls))
    && (forall id :: id in Ids(calls) <==> id in p && Exhausted(c, p[id], now))
    && forall i :: 0 <= i < |calls| && calls[i].messageId in p ==>
      Distinct(calls[i].recipients) && Elems(calls[i].recipients) == Unanswered(p[calls[i].messageId])
  }

  class RetryService {
    const config: Config
    var pendingDeliveries: Deliveries
    var failures: seq<Failure>

    constructor (c: Config)
      ensures config == c && pendingDeliveries == map[] && failures == []
    {
      config, pendingDeliveries, failures := c, map[], [];
    }

    method TrackDelivery(id: string, blockIds: seq<string>, metadata: Gossip.Delivery, now: int)
      modifies this`pendingDeliveries
      ensures pendingDeliveries == AfterTrack(config, old(pendingDeliveries), id, blockIds, metadata, now)
    {
      var recipients := metadata.recipientIds;
      var statuses := map[];
      for i := 0 to |recipients|
        invariant statuses == map r | r in recipients[..i] :: Announced
      {
        statuses := statuses[recipients[i] := Announced];
      }
      assert recipients[..|recipients|] == recipients;
      var pd := Tracked(blockIds, metadata, statuses, 0, now, now + config.initialTimeoutMs);
      if id !in pendingDeliveries {
        pendingDeliveries := pendingDeliveries[id := pd];
      }
    }

    method HandleAck(ack: Gossip.Receipt)
      modifies this`pendingDeliveries
      ensures pendingDeliveries == AfterAck(old(pendingDeliveries), ack)
    {
      if ack.messageId !in pendingDeliveries {
        return;
      }
      var pd := pendingDeliveries[ack.messageId];
      if ack.recipientId !in pd.statuses {
        return;
      }
      var newStatus: Status;
      if ack.status == "delivered" {
        newStatus := Delivered;
      } else if ack.status == "read" {
        newStatus := Read;
      } else if ack.status == "failed" {
        newStatus := Failed;
      } else if ack.status == "bounced" {
        newStatus := Bounced;
      } else {
        return;
      }
      if !ValidTransition(pd.statuses[ack.recipientId], newStatus) {
        return;
      }
      pd := pd.(statuses := pd.statuses[ack.recipientId := newStatus]);
      pendingDeliveries := pendingDeliveries[ack.messageId := pd];
      var allDone := forall r :: r in pd.statuses ==> pd.statuses[r].Delivered? || pd.statuses[r].Read?;
      if allDone {
        pendingDeliveries := pendingDeliveries - {ack.messageId};
      }
    }

    /** Marks the unanswered recipients of a delivery as failed and lists them. */
    method GiveUp(d: Tracked) returns (statuses: map<string, Status>, failed: seq<string>)
      ensures statuses.Keys == d.statuses.Keys
      ensures forall r :: r in statuses ==> statuses[r] == if r in Unanswered(d) then Failed else d.statuses[r]
      ensures Distinct(failed) && Elems(failed) == Unanswered(d)
    {
      statuses, failed := d.statuses, [];
      var todo := d.statuses.Keys;
      while todo != {}
        invariant statuses.Keys == d.statuses.Keys && todo <= d.statuses.Keys && Distinct(failed)
        invariant Elems(failed) == Unanswered(d) - todo
        invariant forall r :: r in statuses ==>
          statuses[r] == if r in Unanswered(d) - todo then Failed else d.statuses[r]
        decreases |todo|
      {
        var r :| r in todo;
        todo := todo - {r};
        if statuses[r].Announced? || statuses[r].Pending? {
          assert r !in Elems(failed);
          statuses := statuses[r := Failed];
          assert Elems(failed + [r]) == Elems(failed) + {r};
          failed := failed + [r];
        }
        assert r in Unanswered(d) <==> d.statuses[r].Announced? || d.statuses[r].Pending?;
      }
    }

    /** Marks the announced recipients of a delivery as pending. */
    method MarkPending(d: Tracked) returns (statuses: map<string, Status>)
      ensures statuses.Keys == d.statuses.Keys
      ensures forall r :: r in statuses ==> statuses[r] == if d.statuses[r].Announced? then Pending else d.statuses[r]
    {
      statuses := d.statuses;
      var todo := d.statuses.Keys;
      while todo != {}
        invariant statuses.Keys == d.statuses.Keys && todo <= d.statuses.Keys
        invariant forall r :: r in statuses ==>
          statuses[r] == if r !in todo && d.statuses[r].Announced? then Pending else d.statuses[r]
        decreases |todo|
      {
        var r :| r in todo;
        todo := todo - {r};
        if statuses[r].Announced? {
          statuses := statuses[r := Pending];
        }
      }
    }

    method CalculateBackoff(retryCount: int) returns (delay: int)
      ensures delay == Backoff(config, retryCount)
    {
      if retryCount <= 0 {
        return config.initialTimeoutMs;
      }
      delay := config.initialTimeoutMs * Pow(config.backoffMultiplier, retryCount - 1);
      if delay > config.maxBackoffMs {
        return config.maxBackoffMs;
      }
    }

    /** The check of one delivery; one that is given up stays in the map until the others have been checked. */
    method CheckDelivery(id: string, now: int) returns (remove: bool)
      requires id in pendingDeliveries
      modifies this
      ensures old(failures) <= failures && remove == (|failures| > |old(failures)|)
      ensures ChecksOne(
        config, old(pendingDeliveries), pendingDeliveries, id, now, failures[|old(failures)|..])
    {
      var pd := pendingDeliveries[id];
      if now < pd.nextRetryAt {
        return false;
      }
      pd := pd.(retryCount := pd.retryCount + 1);
      if pd.retryCount > config.maxRetries {
        var statuses, failed := GiveUp(pd);
        pendingDeliveries := pendingDeliveries[id := pd.(statuses := statuses)];
        failures := failures + [Failure(id, failed)];
        return true;
      }
      var statuses := MarkPending(pd);
      var backoffMs := CalculateBackoff(pd.retryCount);
      pd := pd.(statuses := statuses, nextRetryAt := now + backoffMs);
      assert pd.statuses == Retried(config, pendingDeliveries[id], now).statuses;
      pendingDeliveries := pendingDeliveries[id := pd];
      return false;
    }

    method CheckRetries(now: int)
      modifies this
      ensures pendingDeliveries == AfterCheck(config, old(pendingDeliveries), now)
      ensures old(failures) <= failures
      ensures Reports(config, old(pendingDeliveries), now, failures[|old(failures)|..])
    {
      hide Exhausted, Unanswered, Reports, Swept, ChecksOne, AfterCheck, Ids;
      ghost var before := pendingDeliveries;
      var toRemove: seq<string> := [];
      var todo := pendingDeliveries.Keys;
      NotSwept(config, before, now);
      assert failures[|old(failures)|..] == [];
      while todo != {}
        invariant todo <= pendingDeliveries.Keys && old(failures) <= failures
        invariant Swept(config, before, pendingDeliveries, todo, now, failures[|old(failures)|..])
        invariant toRemove == Ids(failures[|old(failures)|..])
        decreases |todo|
      {
        var id :| id in todo;
        ghost var was, so := pendingDeliveries, failures;
        var remove := CheckDelivery(id, now);
        ghost var calls, more := so[|old(failures)|..], failures[|so|..];
        assert failures[|old(failures)|..] == calls + more;
        SweepOne(config, before, was, pendingDeliveries, todo, now, calls, id, more);
        todo := todo - {id};
        if remove {
          toRemove := toRemove + [id];
        }
      }
      AllSwept(config, before, pendingDeliveries, now, failures[|old(failures)|..]);
      RemoveAll(toRemove);
    }

    method RemoveAll(ids: seq<string>)
      modifies this`pendingDeliveries
      ensures pendingDeliveries == old(pendingDeliveries) - Elems(ids)
    {
      for i := 0 to |ids|
        invariant pendingDeliveries == old(pendingDeliveries) - Elems(ids[..i])
      {
        assert Elems(ids[..i + 1]) == Elems(ids[..i]) + {ids[i]};
        pendingDeliveries := pendingDeliveries - {ids[i]};
      }
      assert ids[..|ids|] == ids;
    }
  }

  /** The check of one delivery: retried if it is due, or reported and to be removed if it is exhausted. */
  ghost predicate ChecksOne(
    c: Config, p: Deliveries, q: Deliveries, id: string, now: int, calls: seq<Failure>)
  {
    && id in p && q.Keys == p.Keys && (forall k :: k in q && k != id ==> q[k] == p[k])
    && if Exhausted(c, p[id], now)
       then |calls| == 1 && calls[0].messageId == id
         && Distinct(calls[0].recipients) && Elems(calls[0].recipients) == Unanswered(p[id])
       else calls == [] && q[id] == Retried(c, p[id], now)
  }

  /** A partly done check: todo is still as before, the rest retried, or reported and to be removed. */
  ghost predicate Swept(c: Config, before: Deliveries, p: Deliveries, todo: set<string>, now: int, calls: seq<Failure>) {
    && todo <= before.Keys == p.Keys && Reports(c, before - todo, now, calls)
    && (forall id :: id in todo ==> p[id] == before[id])
    && forall id :: id in before && id !in todo && !Exhausted(c, before[id], now) ==> p[id] == Retried(c, before[id], now)
  }

  lemma NotSwept(c: Config, before: Deliveries, now: int)
    ensures Swept(c, before, before, before.Keys, now, []) && Ids([]) == []
  {
    assert before - before.Keys == map[];
  }

  lemma SweepOne(
    c: Config, before: Deliveries, p: Deliveries, q: Deliveries, todo: set<string>,
    now: int, calls: seq<Failure>, id: string, more: seq<Failure>)
    requires Swept(c, before, p, todo, now, calls) && id in todo && ChecksOne(c, p, q, id, now, more)
    ensures Swept(c, before, q, todo - {id}, now, calls + more)
    ensures Ids(calls + more) == Ids(calls) + if |more| > 0 then [id] else []
  {
    hide Exhausted, Retried, Unanswered, Elems, Reports;
    var so := before - todo;
    assert before - (todo - {id}) == so[id := before[id]];
    if Exhausted(c, p[id], now) {
      ReportsMore(c, so, id, before[id], now, calls, more[0].recipients);
      assert more == [Failure(id, more[0].recipients)];
    } else {
      ReportsQuiet(c, so, id, before[id], now, calls);
      assert calls + more == calls;
    }
  }

  lemma AllSwept(c: Config, before: Deliveries, p: Deliveries, now: int, calls: seq<Failure>)
    requires Swept(c, before, p, {}, now, calls)
    ensures p - Elems(Ids(calls)) == AfterCheck(c, before, now) && Reports(c, before, now, calls)
  {
    hide Exhausted, Retried, Unanswered;
    assert before - {} == before;
  }

  lemma ReportsQuiet(c: Config, p: Deliveries, id: string, d: Tracked, now: int, calls: seq<Failure>)
    requires Reports(c, p, now, calls) && id !in p && !Exhausted(c, d, now)
    ensures Reports(c, p[id := d], now, calls)
  {
    hide Exhausted, Unanswered, Elems;
    forall i | 0 <= i < |calls| && calls[i].messageId in p[id := d]
      ensures Distinct(calls[i].recipients) && Elems(calls[i].recipients) == Unanswered(p[id := d][calls[i].messageId])
    {
      assert calls[i].messageId == Ids(calls)[i];
    }
  }

  lemma ReportsMore(
    c: Config, p: Deliveries, id: string, d: Tracked, now: int, calls: seq<Failure>, failed: seq<string>)
    requires Reports(c, p, now, calls) && id !in p && Exhausted(c, d, now)
    requires Distinct(failed) && Elems(failed) == Unanswered(d)
    ensures Reports(c, p[id := d], now, calls + [Failure(id, failed)])
    ensures Ids(calls + [Failure(id, failed)]) == Ids(calls) + [id]
  {
    hide Exhausted, Unanswered, Elems;
    var more := calls + [Failure(id, failed)];
    assert Ids(more) == Ids(calls) + [id];
    forall i | 0 <= i < |more| && more[i].messageId in p[id := d]
      ensures Distinct(more[i].recipients) && Elems(more[i].recipients) == Unanswered(p[id := d][more[i].messageId])
    {
      if i < |calls| {
        assert more[i].messageId == Ids(calls)[i];
      }
    }
  }
}
