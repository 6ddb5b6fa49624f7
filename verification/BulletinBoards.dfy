/**
 The append-only vote board: each entry carries the Merkle root of the entries before it.

 The hash is any function to 32 bytes. No such function is injective, so what a root binds is stated with the
 alternative of a collision, not somewhere, but between two inputs hashed in computing the roots. Timestamps are
 arguments, signatures an abstract pair of functions.
 */
module BulletinBoards {
  import opened FixedWidth

  datatype Entry = Entry(
    sequence: nat, timestamp: nat, pollId: Bytes, encryptedVote: seq<Bytes>, voterIdHash: Bytes,
    merkleRoot: Bytes, entryHash: Bytes, signature: Bytes)

  type Hash = Bytes -> Bytes

  ghost predicate Digest(hash: Hash) {
    forall x :: |hash(x)| == 32
  }

  // ----- the tree

  /** Neighbours are hashed together; an odd last node moves up as it is. */
  function NextLevel(hash: Hash, hs: seq<Bytes>): (next: seq<Bytes>)
    ensures |next| == (|hs| + 1) / 2
  {
    if |hs| < 2 then hs else [hash(hs[0] + hs[1])] + NextLevel(hash, hs[2..])
  }

  function Root(hash: Hash, hs: seq<Bytes>): Bytes
    decreases |hs|
  {
    if hs == [] then seq(32, _ => 0)
    else if |hs| == 1 then hs[0]
    else Root(hash, NextLevel(hash, hs))
  }

  /** The root of no entries is 32 zeros. */
  lemma EmptyRoot(hash: Hash)
    ensures Root(hash, Hashes([])) == seq(32, _ => 0)
  {
  }

  /** What is hashed to make the next level. */
  function LevelInputs(hs: seq<Bytes>): set<Bytes> {
    if |hs| < 2 then {} else {hs[0] + hs[1]} + LevelInputs(hs[2..])
  }

  /** What is hashed in all on the way from a list of hashes to its root. */
  function Inputs(hash: Hash, hs: seq<Bytes>): set<Bytes>
    decreases |hs|
  {
    if |hs| < 2 then {} else LevelInputs(hs) + Inputs(hash, NextLevel(hash, hs))
  }

  function Hashes(entries: seq<Entry>): (hs: seq<Bytes>)
    ensures |hs| == |entries|
  {
    seq(|entries|, i requires 0 <= i < |entries| => entries[i].entryHash)
  }

  predicate AllDigests(hs: seq<Bytes>) {
    forall i :: 0 <= i < |hs| ==> |hs[i]| == 32
  }

  predicate Collision(hash: Hash, x: Bytes, y: Bytes) {
    x != y && hash(x) == hash(y)
  }

  lemma NoLevel(hash: Hash)
    ensures NextLevel(hash, []) == []
  {
  }

  /** One step along a level. */
  lemma LevelStep(hash: Hash, hs: seq<Bytes>, i: nat)
    requires i < |hs|
    ensures NextLevel(hash, hs[i..])
         == [if i + 1 < |hs| then hash(hs[i] + hs[i + 1]) else hs[i]]
            + NextLevel(hash, if i + 2 < |hs| then hs[i + 2..] else [])
  {
    if i + 1 < |hs| {
      assert hs[i..][2..] == if i + 2 < |hs| then hs[i + 2..] else [];
    }
  }

  lemma {:induction false} LevelDigests(hash: Hash, hs: seq<Bytes>)
    requires Digest(hash) && AllDigests(hs)
    ensures AllDigests(NextLevel(hash, hs))
    decreases |hs|
  {
    if |hs| >= 2 {
      LevelDigests(hash, hs[2..]);
    }
  }

  /** Different levels of the same size have different next levels, unless a pair in one and a pair in the other collide. */
  lemma {:induction false} LevelBinds(hash: Hash, a: seq<Bytes>, b: seq<Bytes>) returns (x: Bytes, y: Bytes)
    requires AllDigests(a) && AllDigests(b) && |a| == |b| && a != b
    requires NextLevel(hash, a) == NextLevel(hash, b)
    ensures x in LevelInputs(a) && y in LevelInputs(b) && Collision(hash, x, y)
    decreases |a|
  {
    assert |a| >= 2;
    x, y := a[0] + a[1], b[0] + b[1];
    assert NextLevel(hash, a)[0] == hash(x) && NextLevel(hash, b)[0] == hash(y);
    if x == y {
      assert a[0] == x[..32] && b[0] == y[..32] && a[1] == x[32..] && b[1] == y[32..];
      assert NextLevel(hash, a)[1..] == NextLevel(hash, a[2..]);
      assert NextLevel(hash, b)[1..] == NextLevel(hash, b[2..]);
      assert a == [a[0], a[1]] + a[2..] && b == [b[0], b[1]] + b[2..];
      x, y := LevelBinds(hash, a[2..], b[2..]);
    }
  }

  /**
   Two different lists of hashes of the same length have different roots, unless something hashed for the one collides
   with something hashed for the other.
   */
  lemma {:induction false} RootBinds(hash: Hash, a: seq<Bytes>, b: seq<Bytes>) returns (x: Bytes, y: Bytes)
    requires Digest(hash) && AllDigests(a) && AllDigests(b) && |a| == |b| && a != b
    requires Root(hash, a) == Root(hash, b)
    ensures x in Inputs(hash, a) && y in Inputs(hash, b) && Collision(hash, x, y)
    decreases |a|
  {
    assert |a| == 1 ==> a == [Root(hash, a)] && b == [Root(hash, b)];
    var c, d := NextLevel(hash, a), NextLevel(hash, b);
    LevelDigests(hash, a);
    LevelDigests(hash, b);
    if c == d {
      x, y := LevelBinds(hash, a, b);
    } else {
      x, y := RootBinds(hash, c, d);
    }
  }

  // ----- entries

  function Concat(parts: seq<Bytes>): Bytes {
    if parts == [] then [] else parts[0] + Concat(parts[1..])
  }

  /** What an entry's hash covers; the variable-length fields are put end to end. */
  function EntryData(e: Entry): Bytes {
    Fixed(e.sequence, 8) + Fixed(e.timestamp, 8) + e.pollId + e.voterIdHash + e.merkleRoot + Concat(e.encryptedVote)
  }

  predicate SameShape(d: Entry, e: Entry) {
    && |d.pollId| == |e.pollId| && |d.voterIdHash| == |e.voterIdHash| && |d.merkleRoot| == |e.merkleRoot|
    && |d.encryptedVote| == |e.encryptedVote|
    && forall i :: 0 <= i < |d.encryptedVote| ==> |d.encryptedVote[i]| == |e.encryptedVote[i]|
  }

  predicate SameContent(d: Entry, e: Entry) {
    && d.sequence == e.sequence && d.timestamp == e.timestamp && d.pollId == e.pollId
    && d.voterIdHash == e.voterIdHash && d.merkleRoot == e.merkleRoot && d.encryptedVote == e.encryptedVote
  }

  lemma {:induction false} ConcatBinds(a: seq<Bytes>, b: seq<Bytes>)
    requires |a| == |b| && (forall i :: 0 <= i < |a| ==> |a[i]| == |b[i]|) && Concat(a) == Concat(b)
    ensures a == b
    decreases |a|
  {
    if a != [] {
      var n := |a[0]|;
      assert a[0] == Concat(a)[..n] && b[0] == Concat(b)[..n];
      assert Concat(a[1..]) == Concat(a)[n..] && Concat(b[1..]) == Concat(b)[n..];
      ConcatBinds(a[1..], b[1..]);
      assert a == [a[0]] + a[1..] && b == [b[0]] + b[1..];
    }
  }

  lemma PrefixBinds(a: Bytes, b: Bytes, c: Bytes, d: Bytes)
    requires |a| == |b| && a + c == b + d
    ensures a == b && c == d
  {
    assert a == (a + c)[..|a|] && b == (b + d)[..|b|] && c == (a + c)[|a|..] && d == (b + d)[|b|..];
  }

  lemma NumberBinds(m: nat, n: nat)
    requires m < Power256(8) && n < Power256(8) && Fixed(m, 8) == Fixed(n, 8)
    ensures m == n
  {
    ReadsBack(m, 8);
    ReadsBack(n, 8);
  }

  /** The data of two entries whose fields have the same lengths agree exactly when the entries do. */
  lemma DataBinds(d: Entry, e: Entry)
    requires SameShape(d, e) && d.sequence < Power256(8) && e.sequence < Power256(8)
    requires d.timestamp < Power256(8) && e.timestamp < Power256(8)
    ensures EntryData(d) == EntryData(e) <==> SameContent(d, e)
  {
    hide Power256, Fixed;
    if EntryData(d) == EntryData(e) {
      var d5, e5 := Concat(d.encryptedVote), Concat(e.encryptedVote);
      var d1, e1 := Fixed(d.sequence, 8), Fixed(e.sequence, 8);
      var d2, e2 := Fixed(d.timestamp, 8), Fixed(e.timestamp, 8);
      SameLength(d.encryptedVote, e.encryptedVote);
      PrefixBinds(
        d1 + d2 + d.pollId + d.voterIdHash + d.merkleRoot, e1 + e2 + e.pollId + e.voterIdHash + e.merkleRoot, d5, e5);
      PrefixBinds(d1 + d2 + d.pollId + d.voterIdHash, e1 + e2 + e.pollId + e.voterIdHash, d.merkleRoot, e.merkleRoot);
      PrefixBinds(d1 + d2 + d.pollId, e1 + e2 + e.pollId, d.voterIdHash, e.voterIdHash);
      PrefixBinds(d1 + d2, e1 + e2, d.pollId, e.pollId);
      PrefixBinds(d1, e1, d2, e2);
      ConcatBinds(d.encryptedVote, e.encryptedVote);
      NumberBinds(d.sequence, e.sequence);
      NumberBinds(d.timestamp, e.timestamp);
    }
  }

  lemma {:induction false} SameLength(a: seq<Bytes>, b: seq<Bytes>)
    requires |a| == |b| && forall i :: 0 <= i < |a| ==> |a[i]| == |b[i]|
    ensures |Concat(a)| == |Concat(b)|
    decreases |a|
  {
    if a != [] {
      SameLength(a[1..], b[1..]);
    }
  }

  /** With other lengths they need not: a byte of the poll id can pass for one of the voter's. */
  lemma DataAmbiguous(root: Bytes, vote: seq<Bytes>)
    ensures var d := Entry(0, 0, [1, 2], vote, [3], root, [], []);
      var e := Entry(0, 0, [1], vote, [2, 3], root, [], []);
      EntryData(d) == EntryData(e) && !SameContent(d, e)
  {
    var poll: Bytes, voter: Bytes := [1, 2], [3];
    var poll': Bytes, voter': Bytes := [1], [2, 3];
    assert poll + voter == poll' + voter' == [1, 2, 3];
    var n := Fixed(0, 8) + Fixed(0, 8);
    assert n + poll + voter == n + (poll + voter) && n + poll' + voter' == n + (poll' + voter');
  }

  /** Each entry carries the root of those before it. */
  predicate Chained(hash: Hash, entries: seq<Entry>) {
    forall i :: 0 <= i < |entries| ==> entries[i].merkleRoot == Root(hash, Hashes(entries[..i]))
  }

  lemma ChainGrows(hash: Hash, entries: seq<Entry>, e: Entry)
    requires Chained(hash, entries) && e.merkleRoot == Root(hash, Hashes(entries))
    ensures Chained(hash, entries + [e])
  {
    hide Root;
    var more := entries + [e];
    assert more[..|entries|] == entries;
    assert forall i :: 0 <= i < |entries| ==> more[..i] == entries[..i];
  }

  /** Made from its data, signed. */
  predicate Sealed(hash: Hash, sign: Bytes -> Bytes, e: Entry) {
    e.entryHash == hash(EntryData(e)) && e.signature == sign(e.entryHash)
  }

  /** What publishing makes: a chain of sealed entries, numbered from 0. */
  predicate Posted(hash: Hash, sign: Bytes -> Bytes, entries: seq<Entry>) {
    && Chained(hash, entries)
    && forall i :: 0 <= i < |entries| ==> entries[i].sequence == i && Sealed(hash, sign, entries[i])
  }

  class BulletinBoard {
    const hash: Hash
    const sign: Bytes -> Bytes
    const verify: (Bytes, Bytes) -> bool
    var entries: seq<Entry>
    var sequence: nat

    ghost predicate Valid()
      reads this
    {
      && Digest(hash) && (forall h :: verify(h, sign(h)))
      && sequence == |entries| && Posted(hash, sign, entries)
    }

    constructor (h: Hash, s: Bytes -> Bytes, v: (Bytes, Bytes) -> bool)
      requires Digest(h) && forall x :: v(x, s(x))
      ensures Valid() && entries == [] && hash == h && sign == s && verify == v
    {
      hash, sign, verify := h, s, v;
      entries, sequence := [], 0;
    }

    method LevelUp(hashes: seq<Bytes>) returns (nextLevel: seq<Bytes>)
      ensures nextLevel == NextLevel(hash, hashes)
    {
      hide NextLevel;
      NoLevel(hash);
      assert hashes[0..] == hashes;
      nextLevel := [];
      var i: nat := 0;
      while i < |hashes|
        invariant i <= |hashes| + 1
        invariant nextLevel + NextLevel(hash, if i < |hashes| then hashes[i..] else []) == NextLevel(hash, hashes)
      {
        LevelStep(hash, hashes, i);
        if i + 1 < |hashes| {
          nextLevel := nextLevel + [hash(hashes[i] + hashes[i + 1])];
        } else {
          nextLevel := nextLevel + [hashes[i]];
        }
        i := i + 2;
      }
    }

    method ComputeMerkleRoot(of: seq<Entry>) returns (root: Bytes)
      ensures root == Root(hash, Hashes(of))
    {
      if of == [] {
        return seq(32, _ => 0);
      }
      var hashes: seq<Bytes> := [];
      for i := 0 to |of|
        invariant hashes == Hashes(of[..i])
      {
        hashes := hashes + [of[i].entryHash];
      }
      assert of[..|of|] == of;
      while |hashes| > 1
        invariant hashes != [] && Root(hash, hashes) == Root(hash, Hashes(of))
        decreases |hashes|
      {
        hashes := LevelUp(hashes);
      }
      return hashes[0];
    }

    method PublishVote(pollId: Bytes, encryptedVote: seq<Bytes>, voterIdHash: Bytes, timestamp: nat) returns (e: Entry)
      requires Valid()
      modifies this`entries, this`sequence
      ensures Valid() && entries == old(entries) + [e]
      ensures e.pollId == pollId && e.encryptedVote == encryptedVote && e.voterIdHash == voterIdHash
      ensures e.timestamp == timestamp && e.sequence == |old(entries)|
      ensures e.merkleRoot == Root(hash, Hashes(old(entries)))
      ensures old(entries) == [] ==> e.merkleRoot == seq(32, _ => 0)
      ensures e.entryHash == hash(EntryData(e)) && e.signature == sign(e.entryHash)
    {
      hide Root, Digest, Chained;
      EmptyRoot(hash);
      var root := ComputeMerkleRoot(entries);
      e := Entry(sequence, timestamp, pollId, encryptedVote, voterIdHash, root, [], []);
      var entryHash := hash(EntryData(e));
      e := e.(entryHash := entryHash, signature := sign(entryHash));
      sequence := sequence + 1;
      ChainGrows(hash, entries, e);
      entries := entries + [e];
    }

    /** Whether each entry carries the root of those before it: always so on a board that was only published to. */
    method VerifyMerkleTree() returns (ok: bool)
      ensures ok <==> Chained(hash, entries)
      ensures Valid() ==> ok
    {
      hide Root, Sealed, EntryData, Digest, Hashes;
      for i := 0 to |entries|
        invariant forall j :: 0 <= j < i ==> entries[j].merkleRoot == Root(hash, Hashes(entries[..j]))
      {
        var expectedRoot := ComputeMerkleRoot(entries[..i]);
        if entries[i].merkleRoot != expectedRoot {
          return false;
        }
      }
      return true;
    }

    method VerifyEntry(e: Entry) returns (ok: bool)
      ensures ok <==> e.entryHash == hash(EntryData(e)) && verify(e.entryHash, e.signature)
      ensures Valid() && e in entries ==> ok
    {
      if hash(EntryData(e)) != e.entryHash {
        return false;
      }
      return verify(e.entryHash, e.signature);
    }
  }

  /**
   Tampering shows: two boards that both pass verification and whose last entries carry the same root agree on the
   hash of every earlier entry, or something hashed for the one root collides with something hashed for the other.
   */
  lemma LastRootBinds(hash: Hash, a: seq<Entry>, b: seq<Entry>) returns (x: Bytes, y: Bytes)
    requires Digest(hash) && Chained(hash, a) && Chained(hash, b)
    requires |a| == |b| > 0 && a[|a| - 1].merkleRoot == b[|b| - 1].merkleRoot
    requires AllDigests(Hashes(a)) && AllDigests(Hashes(b))
    ensures
      || (forall i :: 0 <= i < |a| - 1 ==> a[i].entryHash == b[i].entryHash)
      || (x in Inputs(hash, Hashes(a[..|a| - 1])) && y in Inputs(hash, Hashes(b[..|b| - 1])) && Collision(hash, x, y))
  {
    var n := |a| - 1;
    var s, t := Hashes(a[..n]), Hashes(b[..n]);
    assert forall i :: 0 <= i < n ==> s[i] == Hashes(a)[i] && t[i] == Hashes(b)[i];
    x, y := [], [];
    if s != t {
      x, y := RootBinds(hash, s, t);
    } else {
      assert forall i :: 0 <= i < n ==> a[i].entryHash == s[i] && b[i].entryHash == t[i];
    }
  }
}
