/**
 One node of the gossip overlay: announcements, the queue flushed in batches, and the handling of what arrives.

 Handlers are modelled by the list of announcements they were called with, the transport by the list of
 envelopes handed to it. Which peers are connected, and how a signature checks, come from outside.
 */
module Gossip {
  import opened SetFacts
  import opened Wrappers

  datatype Kind =
    | Add | Remove | Ack | PoolDeleted | CblIndexUpdate | CblIndexDelete | HeadUpdate | AclUpdate
    | PoolAnnounce | PoolRemove | QuorumProposal | QuorumVote

  datatype Delivery = Delivery(
    messageId: string, recipientIds: seq<string>, priority: string, blockIds: seq<string>,
    cblBlockId: string, ackRequired: bool, gatewayOutbound: bool)

  datatype Receipt = Receipt(messageId: string, recipientId: string, status: string, originalSenderNode: string)

  datatype Head = Head(dbName: string, collectionName: string)

  datatype PoolInfo = PoolInfo(blockCount: int, totalSize: int, encrypted: bool)

  datatype IndexEntry = IndexEntry(magnetUrl: string, blockId1: string, blockId2: string)

  datatype Proposal = Proposal(
    proposalId: string, description: string, proposerMemberId: string, requiredThreshold: int)

  datatype Vote = Vote(proposalId: string, voterMemberId: string, decision: string, comment: Option<string>)

  datatype WriteProof = WriteProof(
    signerPublicKey: string, signature: string, dbName: string, collectionName: string, blockId: string)

  /** The outcome of checking a signature: keys that are not hexadecimal make the decoder throw. */
  datatype Check = Genuine | Forged | Unreadable

  /** Checks data against a signature and a public key, both in hexadecimal. */
  type Verifier = (string, string, string) -> Check

  datatype Announcement = Announcement(
    kind: Kind, blockId: string, nodeId: string, ttl: int,
    messageDelivery: Option<Delivery>, deliveryAck: Option<Receipt>, poolId: Option<string>,
    cblIndexEntry: Option<IndexEntry>, headUpdate: Option<Head>, aclBlockId: Option<string>,
    poolAnnouncement: Option<PoolInfo>, quorumProposal: Option<Proposal>, quorumVote: Option<Vote>,
    writeProof: Option<WriteProof>)

  datatype Priority = Priority(fanout: int, ttl: int)

  datatype Config = Config(fanout: int, defaultTtl: int, maxBatchSize: int, normal: Priority, high: Priority)

  datatype Envelope = Envelope(to: string, ann: Announcement)

  function Plain(kind: Kind, blockId: string, nodeId: string, ttl: int): Announcement {
    Announcement(kind, blockId, nodeId, ttl, None, None, None, None, None, None, None, None, None, None)
  }

  predicate Given(s: Option<string>) {
    s.Some? && s.value != []
  }

  predicate WellFormed(a: Announcement) {
    && (a.messageDelivery.Some? ==> a.kind.Add?)
    && (a.deliveryAck.Some? ==> a.kind.Ack?)
    && match a.kind
      case Add | Remove => true
      case Ack => a.deliveryAck.Some?
      case PoolDeleted | PoolRemove => Given(a.poolId)
      case CblIndexUpdate | CblIndexDelete =>
        && Given(a.poolId) && a.cblIndexEntry.Some? && a.cblIndexEntry.value.magnetUrl != []
        && a.cblIndexEntry.value.blockId1 != [] && a.cblIndexEntry.value.blockId2 != []
      case HeadUpdate =>
        && a.blockId != [] && a.headUpdate.Some?
        && a.headUpdate.value.dbName != [] && a.headUpdate.value.collectionName != []
      case AclUpdate => Given(a.poolId) && Given(a.aclBlockId)
      case PoolAnnounce => Given(a.poolId) && a.poolAnnouncement.Some?
      case QuorumProposal =>
        && a.quorumProposal.Some? && a.quorumProposal.value.proposalId != []
        && |a.quorumProposal.value.description| <= 4096
        && a.quorumProposal.value.proposerMemberId != [] && a.quorumProposal.value.requiredThreshold >= 1
      case QuorumVote =>
        && a.quorumVote.Some? && a.quorumVote.value.proposalId != [] && a.quorumVote.value.voterMemberId != []
        && (a.quorumVote.value.decision == "approve" || a.quorumVote.value.decision == "reject")
        && (a.quorumVote.value.comment.Some? ==> |a.quorumVote.value.comment.value| <= 1024)
  }

  /** The setting that governs how many peers get a copy. */
  function Fanout(c: Config, a: Announcement): int {
    if a.messageDelivery.Some? then
      if a.messageDelivery.value.priority == "high" then c.high.fanout else c.normal.fanout
    else if a.kind.QuorumProposal? || a.kind.QuorumVote? then c.high.fanout
    else c.fanout
  }

  /** How many of n peers a setting reaches; a negative one wraps to a huge count and reaches all. */
  function Reach(count: int, n: nat): (r: nat)
    ensures r <= n && (0 <= count ==> r <= count)
    ensures r == n || r == count
  {
    if 0 <= count < n then count else n
  }

  // ----- what a step of a node may do

  /** One copy of the announcement to each of as many distinct connected peers as its fanout allows. */
  ghost predicate Spread(c: Config, peers: seq<string>, a: Announcement, out: seq<Envelope>) {
    && |out| == Reach(Fanout(c, a), |peers|)
    && (forall i :: 0 <= i < |out| ==> out[i].ann == a && out[i].to in peers)
    && forall i, j :: 0 <= i < j < |out| ==> out[i].to != out[j].to
  }

  /** The whole batch spread, announcement by announcement, with nothing else sent. */
  ghost predicate SpreadAll(c: Config, peers: seq<string>, batch: seq<Announcement>, out: seq<Envelope>)
    decreases |batch|
  {
    if batch == [] then out == [] else
      var last := |batch| - 1;
      var n := Reach(Fanout(c, batch[last]), |peers|);
      && n <= |out|
      && SpreadAll(c, peers, batch[..last], out[..|out| - n])
      && Spread(c, peers, batch[last], out[|out| - n..])
  }

  lemma NoneYet(c: Config, peers: seq<string>)
    ensures SpreadAll(c, peers, [], [])
  {
  }

  lemma OneMore(
    c: Config, peers: seq<string>, batch: seq<Announcement>, out: seq<Envelope>, a: Announcement, more: seq<Envelope>)
    requires SpreadAll(c, peers, batch, out) && Spread(c, peers, a, more)
    ensures SpreadAll(c, peers, batch + [a], out + more)
  {
    var n := |more|;
    assert (batch + [a])[..|batch|] == batch;
    assert (out + more)[..|out + more| - n] == out && (out + more)[|out + more| - n..] == more;
  }

  ghost predicate ForLocal(users: set<string>, a: Announcement) {
    a.messageDelivery.Some? && exists r :: r in a.messageDelivery.value.recipientIds && r in users
  }

  /** r is the first of the recipients that is a local user. */
  ghost predicate FirstLocal(users: set<string>, recipients: seq<string>, r: string) {
    exists k ::
      && 0 <= k < |recipients| && recipients[k] == r && r in users
      && forall j :: 0 <= j < k ==> recipients[j] !in users
  }

  /** An acknowledgement, from this node, of the delivery of message a to its first local recipient. */
  ghost predicate Acknowledges(c: Config, self: string, users: set<string>, a: Announcement, ack: Announcement)
    requires a.messageDelivery.Some?
  {
    && ack.deliveryAck.Some?
    && var receipt := ack.deliveryAck.value;
      && ack == Plain(Ack, receipt.messageId, self, c.defaultTtl).(deliveryAck := Some(receipt))
      && receipt.messageId == a.messageDelivery.value.messageId
      && receipt.status == "delivered" && receipt.originalSenderNode == a.nodeId
      && FirstLocal(users, a.messageDelivery.value.recipientIds, receipt.recipientId)
  }

  /** What a well-formed announcement makes a node queue: at most an acknowledgement of a message for a local user. */
  ghost predicate Queues(c: Config, self: string, users: set<string>, a: Announcement, queued: seq<Announcement>) {
    if ForLocal(users, a) && a.messageDelivery.value.ackRequired
    then |queued| == 1 && Acknowledges(c, self, users, a, queued[0])
    else queued == []
  }

  /** What a node sends and queues for one arriving announcement. */
  ghost predicate Reaction(
    c: Config, self: string, users: set<string>, peers: seq<string>, check: Check,
    a: Announcement, out: seq<Envelope>, queued: seq<Announcement>)
  {
    if !WellFormed(a) then out == [] && queued == []
    else
      && Queues(c, self, users, a, queued)
      && if a.ttl > 0 && !ForLocal(users, a) && !Throws(check, a)
         then Spread(c, peers, a.(ttl := a.ttl - 1), out)
         else out == []
  }

  /** What a write proof is a signature of: the names and the block it states itself. */
  function SignedData(p: WriteProof): string {
    p.dbName + p.collectionName + p.blockId
  }

  function ProofCheck(verify: Verifier, a: Announcement): Check {
    if a.writeProof.None? then Genuine
    else verify(SignedData(a.writeProof.value), a.writeProof.value.signature, a.writeProof.value.signerPublicKey)
  }

  predicate Throws(check: Check, a: Announcement) {
    a.kind.HeadUpdate? && a.headUpdate.Some? && a.writeProof.Some? && check.Unreadable?
  }

  /** The head registry afterwards: a forged proof leaves it alone (but the announcement still travels). */
  function Heads(heads: map<string, string>, check: Check, a: Announcement): map<string, string> {
    if WellFormed(a) && a.kind.HeadUpdate? && (a.writeProof.Some? ==> check.Genuine?)
    then heads[a.headUpdate.value.dbName + ":" + a.headUpdate.value.collectionName := a.blockId]
    else heads
  }

  // ----- which head was signed

  /** The head that an update with a proof sets, written as a proof of it would be signed. */
  function HeadData(a: Announcement): string
    requires a.headUpdate.Some?
  {
    a.headUpdate.value.dbName + a.headUpdate.value.collectionName + a.blockId
  }

  /** The key of the proof has signed the head that the update sets. */
  predicate HeadSigned(verify: Verifier, a: Announcement)
    requires a.headUpdate.Some? && a.writeProof.Some?
  {
    verify(HeadData(a), a.writeProof.value.signature, a.writeProof.value.signerPublicKey).Genuine?
  }

  /** Accepts one text only. */
  function OnlyFor(data: string): Verifier {
    (d: string, signature: string, key: string) => if d == data then Genuine else Forged
  }

  /**
   An accepted update sets the head that was signed, whatever the signatures, exactly when the proof states the
   text of that head. Nothing compares the two.
   */
  lemma AppliedIsSigned(a: Announcement)
    requires WellFormed(a) && a.kind.HeadUpdate? && a.writeProof.Some?
    ensures (forall verify: Verifier :: ProofCheck(verify, a).Genuine? ==> HeadSigned(verify, a))
      <==> SignedData(a.writeProof.value) == HeadData(a)
  {
    var verify := OnlyFor(SignedData(a.writeProof.value));
    assert ProofCheck(verify, a).Genuine?;
    assert HeadSigned(verify, a) <==> SignedData(a.writeProof.value) == HeadData(a);
  }

  /** A proof of one block, accepted, sets a head of another collection to another block. */
  lemma OtherHeadSet(heads: map<string, string>, signature: string, key: string)
    ensures var a := Plain(HeadUpdate, "z", "n", 1).(
        headUpdate := Some(Head("x", "y")), writeProof := Some(WriteProof(key, signature, "a", "b", "c")));
      var verify := OnlyFor("abc");
      && WellFormed(a) && ProofCheck(verify, a).Genuine? && !HeadSigned(verify, a)
      && Heads(heads, ProofCheck(verify, a), a) == heads["x:y" := "z"]
  {
    assert "a" + "b" + "c" == "abc" && "x" + ":" + "y" == "x:y" && |"x" + "y" + "z"| == 3;
    assert ("x" + "y" + "z")[0] == 'x';
  }

  /** Nor would comparing them say which collection: the names are put end to end, while the registry separates them. */
  lemma HeadTextAmbiguous(blockId: string)
    ensures var a := Plain(HeadUpdate, blockId, "n", 1).(headUpdate := Some(Head("ab", "c")));
      var b := Plain(HeadUpdate, blockId, "n", 1).(headUpdate := Some(Head("a", "bc")));
      HeadData(a) == HeadData(b) && "ab" + ":" + "c" != "a" + ":" + "bc"
  {
    assert "ab" + "c" == "abc" == "a" + "bc";
    assert ("ab" + ":" + "c")[1] == 'b' && ("a" + ":" + "bc")[1] == ':';
  }

  /** The pool cache afterwards: the announcing node's entry, or none. */
  function Pools(pools: map<string, (PoolInfo, string)>, a: Announcement): map<string, (PoolInfo, string)> {
    if !WellFormed(a) then pools
    else if a.kind.PoolAnnounce? then pools[a.poolId.value := (a.poolAnnouncement.value, a.nodeId)]
    else if a.kind.PoolDeleted? then pools - {a.poolId.value}
    else pools
  }

  predicate Int32(v: int) {
    -0x8000_0000 <= v < 0x8000_0000
  }

  /** An int as the unsigned 64-bit number it is converted to. */
  function Unsigned64(v: int): (u: nat)
    requires Int32(v)
    ensures u == 0 <==> v == 0
  {
    if v >= 0 then v else v + 0x1_0000_0000_0000_0000
  }

  class GossipEngine {
    const config: Config
    const self: string
    const verify: Verifier
    var localUserIds: set<string>
    var pending: seq<Announcement>
    var peers: seq<string>
    var heads: map<string, string>
    var pools: map<string, (PoolInfo, string)>
    var sent: seq<Envelope>
    var noticed: seq<Announcement>
    var delivered: seq<Announcement>
    var acknowledged: seq<Announcement>
    var proposed: seq<Announcement>
    var voted: seq<Announcement>

    /** The connected peers are the keys of a map. */
    ghost predicate Valid()
      reads this
    {
      Distinct(peers)
    }

    constructor (c: Config, id: string, v: Verifier)
      ensures Valid() && config == c && self == id && verify == v && localUserIds == {}
      ensures pending == noticed == delivered == acknowledged == proposed == voted == [] && sent == []
      ensures peers == [] && heads == map[] && pools == map[]
    {
      config, self, verify, localUserIds := c, id, v, {};
      pending, peers, heads, pools, sent := [], [], map[], map[], [];
      noticed, delivered, acknowledged, proposed, voted := [], [], [], [], [];
    }

    method QueueAnnouncement(a: Announcement)
      modifies this`pending
      ensures pending == old(pending) + [a]
    {
      pending := pending + [a];
    }

    method AnnounceMessage(metadata: Delivery)
      modifies this`pending
      ensures |pending| == |old(pending)| + 1 && pending[..|old(pending)|] == old(pending)
      ensures pending[|old(pending)|].messageDelivery == Some(metadata) && WellFormed(pending[|old(pending)|])
      ensures pending[|old(pending)|].ttl == if metadata.priority == "high" then config.high.ttl else config.normal.ttl
      ensures pending[|old(pending)|].nodeId == self && pending[|old(pending)|].blockId == metadata.cblBlockId
    {
      var a := Plain(Add, metadata.cblBlockId, self, 0).(messageDelivery := Some(metadata));
      if metadata.priority == "high" {
        a := a.(ttl := config.high.ttl);
      } else {
        a := a.(ttl := config.normal.ttl);
      }
      QueueAnnouncement(a);
    }

    method SendDeliveryAck(receipt: Receipt)
      modifies this`pending
      ensures pending
           == old(pending) + [Plain(Ack, receipt.messageId, self, config.defaultTtl).(deliveryAck := Some(receipt))]
    {
      QueueAnnouncement(Plain(Ack, receipt.messageId, self, config.defaultTtl).(deliveryAck := Some(receipt)));
    }

    /** Shuffles a copy of the connected peers and keeps a prefix; each swap partner is arbitrary. */
    method SelectRandomPeers(count: int) returns (chosen: seq<string>)
      requires Valid()
      ensures Distinct(chosen) && |chosen| == Reach(count, |peers|)
      ensures forall p :: p in chosen ==> p in peers
    {
      var all := peers;
      var i := |all| - 1;
      while i > 0
        invariant i < |all| == |peers| && Distinct(all) && forall p :: p in all ==> p in peers
      {
        var j: nat :| j <= i;
        all := all[i := all[j]][j := all[i]];
        i := i - 1;
      }
      chosen := all[..Reach(count, |all|)];
    }

    /** Sends one copy to each of a fresh random choice of peers. */
    method SendToChosen(a: Announcement)
      requires Valid()
      modifies this`sent
      ensures old(sent) <= sent && Spread(config, peers, a, sent[|old(sent)|..])
    {
      var targets := SelectRandomPeers(Fanout(config, a));
      for i := 0 to |targets|
        invariant sent == old(sent) + seq(i, k requires 0 <= k < i <= |targets| => Envelope(targets[k], a))
      {
        sent := sent + [Envelope(targets[i], a)];
      }
      assert sent[|old(sent)|..] == seq(|targets|, k requires 0 <= k < |targets| => Envelope(targets[k], a));
    }

    method ForwardAnnouncement(a: Announcement)
      requires Valid()
      modifies this`sent
      ensures old(sent) <= sent
      ensures a.ttl > 0 ==> Spread(config, peers, a.(ttl := a.ttl - 1), sent[|old(sent)|..])
      ensures a.ttl <= 0 ==> sent == old(sent)
    {
      if a.ttl <= 0 {
        return;
      }
      SendToChosen(a.(ttl := a.ttl - 1));
    }

    /** One chunk, after those of `done` were spread. */
    method SendChunk(chunk: seq<Announcement>, ghost done: seq<Announcement>, ghost before: seq<Envelope>)
      requires Valid() && before <= sent && SpreadAll(config, peers, done, sent[|before|..])
      modifies this`sent
      ensures old(sent) <= sent && before <= sent && SpreadAll(config, peers, done + chunk, sent[|before|..])
    {
      hide Spread, SpreadAll;
      assert done + chunk[..0] == done;
      for i := 0 to |chunk|
        invariant old(sent) <= sent && before <= sent
        invariant SpreadAll(config, peers, done + chunk[..i], sent[|before|..])
      {
        ghost var so := sent;
        SendToChosen(chunk[i]);
        OneMore(config, peers, done + chunk[..i], so[|before|..], chunk[i], sent[|so|..]);
        assert done + chunk[..i + 1] == done + chunk[..i] + [chunk[i]];
        assert sent[|before|..] == so[|before|..] + sent[|so|..];
      }
      assert chunk[..|chunk|] == chunk;
    }

    /** Empties the queue. Without a connected peer the batch is lost. A negative batch size wraps to a huge one. */
    method BatchFlush()
      requires Valid() && Int32(config.maxBatchSize) && config.maxBatchSize != 0
      modifies this`pending, this`sent
      ensures pending == [] && old(sent) <= sent
      ensures peers != [] ==> SpreadAll(config, peers, old(pending), sent[|old(sent)|..])
      ensures peers == [] ==> sent == old(sent)
    {
      hide Spread, SpreadAll, Unsigned64;
      var batch := pending;
      pending := [];
      NoneYet(config, peers);
      ghost var before := sent;
      assert batch[..0] == [] && sent[|before|..] == [];
      if batch == [] || peers == [] {
        return;
      }
      var maxBatch := Unsigned64(config.maxBatchSize);
      var offset := 0;
      while offset < |batch|
        invariant 0 <= offset && before <= sent && pending == []
        invariant SpreadAll(config, peers, batch[..Least(offset, |batch|)], sent[|before|..])
        decreases |batch| - offset
      {
        var end := Least(offset + maxBatch, |batch|);
        SendChunk(batch[offset..end], batch[..offset], before);
        assert batch[..offset] + batch[offset..end] == batch[..end];
        offset := offset + maxBatch;
      }
      assert batch[..|batch|] == batch;
    }

    method HandleAnnouncement(a: Announcement) returns (threw: bool)
      requires Valid()
      modifies this`pending, this`sent, this`heads, this`pools
      modifies this`noticed, this`delivered, this`acknowledged, this`proposed, this`voted
      ensures old(sent) <= sent && old(pending) <= pending
      ensures Reaction(config, self, localUserIds, peers, ProofCheck(verify, a), a, sent[|old(sent)|..], pending[|old(pending)|..])
      ensures threw <==> WellFormed(a) && Throws(ProofCheck(verify, a), a)
      ensures heads == Heads(old(heads), ProofCheck(verify, a), a) && pools == Pools(old(pools), a)
      ensures noticed == old(noticed) + (if WellFormed(a) then [a] else [])
      ensures delivered == old(delivered) + (if WellFormed(a) && ForLocal(localUserIds, a) then [a] else [])
      ensures acknowledged == old(acknowledged) + (if WellFormed(a) && a.kind.Ack? then [a] else [])
      ensures proposed == old(proposed) + (if WellFormed(a) && a.kind.QuorumProposal? then [a] else [])
      ensures voted == old(voted) + (if WellFormed(a) && a.kind.QuorumVote? then [a] else [])
    {
      hide WellFormed, Queues, ForLocal, Throws, Spread;
      threw := false;
      if !WellFormed(a) {
        return;
      }
      noticed := noticed + [a];
      var shouldForward: bool;
      shouldForward, threw := ApplyByType(a);
      if threw {
        return;
      }
      if shouldForward && a.ttl > 0 {
        ForwardAnnouncement(a);
      }
    }

    /** The handling by announcement type. */
    method ApplyByType(a: Announcement) returns (shouldForward: bool, threw: bool)
      requires Valid() && WellFormed(a)
      modifies this`pending, this`heads, this`pools
      modifies this`delivered, this`acknowledged, this`proposed, this`voted
      ensures threw <==> Throws(ProofCheck(verify, a), a)
      ensures shouldForward <==> !ForLocal(localUserIds, a)
      ensures old(pending) <= pending
      ensures Queues(config, self, localUserIds, a, pending[|old(pending)|..])
      ensures heads == Heads(old(heads), ProofCheck(verify, a), a) && pools == Pools(old(pools), a)
      ensures delivered == old(delivered) + (if ForLocal(localUserIds, a) then [a] else [])
      ensures acknowledged == old(acknowledged) + (if a.kind.Ack? then [a] else [])
      ensures proposed == old(proposed) + (if a.kind.QuorumProposal? then [a] else [])
      ensures voted == old(voted) + (if a.kind.QuorumVote? then [a] else [])
    {
      hide FirstLocal;
      shouldForward, threw := true, false;
      match a.kind {
        case Add =>
          if a.messageDelivery.Some? {
            var recipients := a.messageDelivery.value.recipientIds;
            var matched := FindLocal(recipients);
            if matched.Some? {
              delivered := delivered + [a];
              if a.messageDelivery.value.ackRequired {
                SendDeliveryAck(
                  Receipt(a.messageDelivery.value.messageId, matched.value, "delivered", a.nodeId));
              }
              shouldForward := false;
            }
          }
        case Ack => acknowledged := acknowledged + [a];
        case QuorumProposal => proposed := proposed + [a];
        case QuorumVote => voted := voted + [a];
        case HeadUpdate =>
          var check := ProofCheck(verify, a);
          if a.writeProof.Some? && check.Unreadable? {
            threw := true;
          } else if a.writeProof.None? || check.Genuine? {
            heads := heads[a.headUpdate.value.dbName + ":" + a.headUpdate.value.collectionName := a.blockId];
          }
        case PoolAnnounce => pools := pools[a.poolId.value := (a.poolAnnouncement.value, a.nodeId)];
        case PoolDeleted => pools := pools - {a.poolId.value};
        case _ =>
      }
    }

    /** The first recipient that is a local user. */
    method FindLocal(recipients: seq<string>) returns (r: Option<string>)
      ensures r.None? <==> forall k :: 0 <= k < |recipients| ==> recipients[k] !in localUserIds
      ensures r.Some? ==> FirstLocal(localUserIds, recipients, r.value)
    {
      for i := 0 to |recipients|
        invariant forall k :: 0 <= k < i ==> recipients[k] !in localUserIds
      {
        if recipients[i] in localUserIds {
          return Some(recipients[i]);
        }
      }
      return None;
    }
  }

  function Least(a: int, b: int): int {
    if a < b then a else b
  }
}
