/** What the steps of a gossip node come to, in terms of the announcement's fields and the configuration. */
module GossipMeaning {
  import opened Gossip
  import opened SetFacts
  import opened Wrappers

  /** How many peers of n get a copy; a negative setting reaches all. */
  function Copies(setting: int, n: nat): nat {
    if setting < 0 || n < setting then n else setting
  }

  /** Each copy equal to a and to another connected peer than the others. */
  ghost predicate CopiesOf(a: Announcement, peers: seq<string>, out: seq<Envelope>) {
    && (forall i :: 0 <= i < |out| ==> out[i].ann == a && out[i].to in peers)
    && Distinct(Map((e: Envelope) => e.to, out))
  }

  // ----- spreading

  /** How many copies are sent, of messages by priority, of quorum business and of everything else. */
  lemma SpreadMeans(c: Config, peers: seq<string>, a: Announcement, out: seq<Envelope>)
    requires Spread(c, peers, a, out)
    ensures CopiesOf(a, peers, out)
    ensures a.messageDelivery.Some? && a.messageDelivery.value.priority == "high" ==>
      |out| == Copies(c.high.fanout, |peers|)
    ensures a.messageDelivery.Some? && a.messageDelivery.value.priority != "high" ==>
      |out| == Copies(c.normal.fanout, |peers|)
    ensures a.messageDelivery.None? && (a.kind == QuorumProposal || a.kind == QuorumVote) ==>
      |out| == Copies(c.high.fanout, |peers|)
    ensures a.messageDelivery.None? && a.kind != QuorumProposal && a.kind != QuorumVote ==>
      |out| == Copies(c.fanout, |peers|)
  {
  }

  /** Where the copies of each announcement of a batch begin and end. */
  ghost predicate Cuts(cuts: seq<nat>, n: nat, total: nat) {
    && |cuts| == n + 1 && cuts[0] == 0 && cuts[n] == total
    && forall i, j :: 0 <= i <= j <= n ==> cuts[i] <= cuts[j]
  }

  ghost predicate Part(c: Config, peers: seq<string>, a: Announcement, out: seq<Envelope>, from: nat, to: nat) {
    from <= to <= |out| && Spread(c, peers, a, out[from..to])
  }

  /** A flush sends the copies of the batch's announcements one after the other, in the order they were queued. */
  lemma {:induction false} FlushMeans(c: Config, peers: seq<string>, batch: seq<Announcement>, out: seq<Envelope>)
    returns (cuts: seq<nat>)
    requires SpreadAll(c, peers, batch, out)
    ensures Cuts(cuts, |batch|, |out|)
    ensures forall i, j :: 0 <= i < |batch| && j == i + 1 ==> Part(c, peers, batch[i], out, cuts[i], cuts[j])
    decreases |batch|
  {
    hide Spread;
    if batch == [] {
      return [0];
    }
    var last := |batch| - 1;
    var n := Reach(Fanout(c, batch[last]), |peers|);
    var front := FlushMeans(c, peers, batch[..last], out[..|out| - n]);
    cuts := front + [|out|];
    assert cuts[last] == |out| - n;
    assert out[|out| - n..] == out[|out| - n..|out|];
    forall i, j | 0 <= i < |batch| && j == i + 1 ensures Part(c, peers, batch[i], out, cuts[i], cuts[j]) {
      if i < last {
        assert batch[..last][i] == batch[i] && cuts[i] == front[i] && cuts[j] == front[j];
        assert Part(c, peers, batch[..last][i], out[..|out| - n], front[i], front[j]);
        assert out[..|out| - n][front[i]..front[j]] == out[front[i]..front[j]];
      }
    }
  }

  // ----- what is discarded

  predicate Missing(s: Option<string>) {
    s == None || s == Some("")
  }

  /** Every reason for which an announcement is discarded. */
  lemma Discarded(a: Announcement)
    ensures !WellFormed(a) <==>
      || (a.messageDelivery != None && a.kind != Add)
      || (a.deliveryAck != None && a.kind != Ack)
      || (a.kind == Ack && a.deliveryAck == None)
      || (a.kind in {PoolDeleted, PoolRemove, CblIndexUpdate, CblIndexDelete, AclUpdate, PoolAnnounce} && Missing(a.poolId))
      || (a.kind in {CblIndexUpdate, CblIndexDelete} && BadIndexEntry(a.cblIndexEntry))
      || (a.kind == HeadUpdate && (a.blockId == "" || BadHead(a.headUpdate)))
      || (a.kind == AclUpdate && Missing(a.aclBlockId))
      || (a.kind == PoolAnnounce && a.poolAnnouncement == None)
      || (a.kind == QuorumProposal && BadProposal(a.quorumProposal))
      || (a.kind == QuorumVote && BadVote(a.quorumVote))
  {
  }

  predicate BadIndexEntry(e: Option<IndexEntry>) {
    e == None || e.value.magnetUrl == "" || e.value.blockId1 == "" || e.value.blockId2 == ""
  }

  predicate BadHead(h: Option<Head>) {
    h == None || h.value.dbName == "" || h.value.collectionName == ""
  }

  predicate BadProposal(p: Option<Proposal>) {
    || p == None || p.value.proposalId == "" || p.value.proposerMemberId == ""
    || |p.value.description| > 4096 || p.value.requiredThreshold <= 0
  }

  predicate BadVote(v: Option<Vote>) {
    || v == None || v.value.proposalId == "" || v.value.voterMemberId == ""
    || v.value.decision !in {"approve", "reject"}
    || (v.value.comment != None && |v.value.comment.value| > 1024)
  }

  // ----- handling

  /** The message is for a user of this node. */
  predicate Addressed(users: set<string>, a: Announcement) {
    a.messageDelivery.Some?
    && var rs := a.messageDelivery.value.recipientIds;
      exists k :: 0 <= k < |rs| && rs[k] in users
  }

  /** A head update whose proof of writing cannot be read. */
  predicate Unchecked(verify: Verifier, a: Announcement) {
    a.kind == HeadUpdate && a.writeProof.Some? && Checked(verify, a.writeProof.value) == Unreadable
  }

  function Checked(verify: Verifier, p: WriteProof): Check {
    verify(p.dbName + p.collectionName + p.blockId, p.signature, p.signerPublicKey)
  }

  /** Forwarded: copies with one link less to go, unless there is none left, it has arrived, or handling it threw. */
  lemma ForwardMeans(
    c: Config, self: string, users: set<string>, peers: seq<string>, verify: Verifier,
    a: Announcement, out: seq<Envelope>, queued: seq<Announcement>)
    requires Reaction(c, self, users, peers, ProofCheck(verify, a), a, out, queued)
    ensures !WellFormed(a) || a.ttl <= 0 || Addressed(users, a) || Unchecked(verify, a) ==> out == []
    ensures WellFormed(a) && a.ttl > 0 && !Addressed(users, a) && !Unchecked(verify, a) ==>
      Spread(c, peers, a.(ttl := a.ttl - 1), out)
  {
    hide Spread, Queues;
  }

  /** Queued: one acknowledgement if the message is for a user of this node and asks for one, and otherwise nothing. */
  lemma QueuedMeans(
    c: Config, self: string, users: set<string>, peers: seq<string>, check: Check,
    a: Announcement, out: seq<Envelope>, queued: seq<Announcement>)
    requires Reaction(c, self, users, peers, check, a, out, queued)
    ensures !WellFormed(a) || !Addressed(users, a) || !a.messageDelivery.value.ackRequired ==> queued == []
    ensures WellFormed(a) && Addressed(users, a) && a.messageDelivery.value.ackRequired ==>
      var rs := a.messageDelivery.value.recipientIds;
      exists k ::
        && 0 <= k < |rs| && rs[k] in users && (forall j :: 0 <= j < k ==> rs[j] !in users)
        && queued == [AckOf(c, self, a, rs[k])]
  {
    hide WellFormed, Spread;
  }

  /** The acknowledgement that recipient r got the message of a. */
  function AckOf(c: Config, self: string, a: Announcement, r: string): Announcement
    requires a.messageDelivery.Some?
  {
    var id := a.messageDelivery.value.messageId;
    Announcement(
      Ack, id, self, c.defaultTtl, None, Some(Receipt(id, r, "delivered", a.nodeId)),
      None, None, None, None, None, None, None, None)
  }

  // ----- the registries

  /** A head is set by a well-formed update that carries no proof or a genuine one, and no other head changes. */
  lemma HeadsMean(heads: map<string, string>, verify: Verifier, a: Announcement, name: string)
    ensures var after := Heads(heads, ProofCheck(verify, a), a);
      if && WellFormed(a) && a.kind == HeadUpdate
         && (a.writeProof.None? || Checked(verify, a.writeProof.value) == Genuine)
         && name == a.headUpdate.value.dbName + ":" + a.headUpdate.value.collectionName
      then name in after && after[name] == a.blockId
      else (name in after <==> name in heads) && (name in heads ==> after[name] == heads[name])
  {
  }

  /** A pool is known from its announcement to its deletion, by its last announcer. */
  lemma PoolsMean(pools: map<string, (PoolInfo, string)>, a: Announcement, id: string)
    ensures var after := Pools(pools, a);
      if WellFormed(a) && a.kind == PoolAnnounce && a.poolId == Some(id)
      then id in after && after[id].0 == a.poolAnnouncement.value && after[id].1 == a.nodeId
      else if WellFormed(a) && a.kind == PoolDeleted && a.poolId == Some(id) then id !in after
      else (id in after <==> id in pools) && (id in pools ==> after[id] == pools[id])
  {
  }
}
