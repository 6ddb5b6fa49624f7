/**
 What a Merkle root says about the number of entries below it.

 Among lists of hashes it says nothing. Among boards it does, unless an entry of one has the data of an inner node of
 the other, for which they must be as long as two hashes.
 */
module BoardSizes {
  import opened FixedWidth
  import opened BulletinBoards

  /** How many leaves stand in the left half of the tree: the largest power of two below their number. */
  function LeftCount(count: nat): (left: nat)
    requires count >= 2
    ensures 1 <= left < count
  {
    if count == 2 then 1 else 2 * LeftCount((count + 1) / 2)
  }

  /** A level is made of the levels of an even part and the rest. */
  lemma {:induction false} LevelAppend(hash: Hash, a: seq<Bytes>, b: seq<Bytes>)
    requires |a| % 2 == 0
    ensures NextLevel(hash, a + b) == NextLevel(hash, a) + NextLevel(hash, b)
    ensures LevelInputs(a + b) == LevelInputs(a) + LevelInputs(b)
    decreases |a|
  {
    if a == [] {
      assert a + b == b;
    } else {
      LevelAppend(hash, a[2..], b);
      assert (a + b)[2..] == a[2..] + b;
    }
  }

  lemma RootUp(hash: Hash, hs: seq<Bytes>)
    requires hs != []
    ensures Root(hash, NextLevel(hash, hs)) == Root(hash, hs)
    ensures Inputs(hash, hs) == LevelInputs(hs) + Inputs(hash, NextLevel(hash, hs))
  {
    if |hs| == 1 {
      assert LevelInputs(hs) == {};
    }
  }

  lemma RootOfTwo(hash: Hash, x: Bytes, y: Bytes)
    ensures Root(hash, [x, y]) == hash(x + y) && Inputs(hash, [x, y]) == {x + y}
  {
    assert [x, y][2..] == [];
    assert NextLevel(hash, [x, y]) == [hash(x + y)];
    assert LevelInputs([x, y]) == {x + y} + LevelInputs([]);
    assert Inputs(hash, [hash(x + y)]) == {};
  }

  /** The level-by-level root is that of a tree of two halves. */
  lemma {:induction false} RootSplit(hash: Hash, hs: seq<Bytes>)
    requires |hs| >= 2
    ensures var left := LeftCount(|hs|);
      var pair := Root(hash, hs[..left]) + Root(hash, hs[left..]);
      && Root(hash, hs) == hash(pair)
      && Inputs(hash, hs) == Inputs(hash, hs[..left]) + Inputs(hash, hs[left..]) + {pair}
    decreases |hs|
  {
    var left := LeftCount(|hs|);
    if |hs| == 2 {
      RootOfTwo(hash, hs[0], hs[1]);
      assert hs == [hs[0], hs[1]];
      assert Inputs(hash, hs[..1]) == Inputs(hash, hs[1..]) == {};
    } else {
      var next := NextLevel(hash, hs);
      assert hs == hs[..left] + hs[left..];
      LevelAppend(hash, hs[..left], hs[left..]);
      RootSplit(hash, next);
      assert next[..left / 2] == NextLevel(hash, hs[..left]) && next[left / 2..] == NextLevel(hash, hs[left..]);
      RootUp(hash, hs[..left]);
      RootUp(hash, hs[left..]);
      RootUp(hash, hs);
    }
  }

  lemma {:induction false} RootDigest(hash: Hash, hs: seq<Bytes>)
    requires Digest(hash) && AllDigests(hs) && hs != []
    ensures |Root(hash, hs)| == 32
    decreases |hs|
  {
    if |hs| > 1 {
      LevelDigests(hash, hs);
      RootDigest(hash, NextLevel(hash, hs));
    }
  }

  // ----- hashes alone

  function Zeros(count: nat): seq<Bytes> {
    seq(count, _ => seq(32, _ => 0))
  }

  function Alike(hash: Hash, m: nat, n: nat): (r: (seq<Bytes>, seq<Bytes>))
    requires m > 0 && n > 0
    ensures |r.0| == m && |r.1| == n
  {
    if m == 1 then ([Root(hash, Zeros(n))], Zeros(n))
    else if n == 1 then (Zeros(m), [Root(hash, Zeros(m))])
    else
      var left, right := Alike(hash, LeftCount(m), LeftCount(n)), Alike(hash, m - LeftCount(m), n - LeftCount(n));
      (left.0 + right.0, left.1 + right.1)
  }

  /** Whatever the hash, any two sizes have lists of hashes with the same root: an inner node serves as an entry hash. */
  lemma {:induction false} CountsNeeded(hash: Hash, m: nat, n: nat)
    requires Digest(hash) && m > 0 && n > 0
    ensures var r := Alike(hash, m, n);
      AllDigests(r.0) && AllDigests(r.1) && Root(hash, r.0) == Root(hash, r.1)
  {
    var r := Alike(hash, m, n);
    if m == 1 {
      RootDigest(hash, Zeros(n));
    } else if n == 1 {
      RootDigest(hash, Zeros(m));
    } else {
      var i, j := LeftCount(m), LeftCount(n);
      CountsNeeded(hash, i, j);
      CountsNeeded(hash, m - i, n - j);
      RootSplit(hash, r.0);
      RootSplit(hash, r.1);
      var left, right := Alike(hash, i, j), Alike(hash, m - i, n - j);
      assert r.0[..i] == left.0 && r.0[i..] == right.0 && r.1[..j] == left.1 && r.1[j..] == right.1;
    }
  }

  // ----- data and their hashes

  function AllHashed(hash: Hash, data: seq<Bytes>): (hs: seq<Bytes>)
    ensures |hs| == |data|
  {
    seq(|data|, i requires 0 <= i < |data| => hash(data[i]))
  }

  /** What is hashed for the inner nodes over some data. */
  function Nodes(hash: Hash, data: seq<Bytes>): set<Bytes> {
    Inputs(hash, AllHashed(hash, data))
  }

  lemma HashedHalves(hash: Hash, data: seq<Bytes>, left: nat)
    requires Digest(hash) && left <= |data|
    ensures var hs := AllHashed(hash, data);
      && AllDigests(hs[..left]) && AllDigests(hs[left..])
      && hs[..left] == AllHashed(hash, data[..left]) && hs[left..] == AllHashed(hash, data[left..])
  {
  }

  /** The data split as the tree is. */
  lemma DataSplit(hash: Hash, data: seq<Bytes>)
    requires Digest(hash) && |data| >= 2
    ensures var left := LeftCount(|data|);
      var l, r := Root(hash, AllHashed(hash, data[..left])), Root(hash, AllHashed(hash, data[left..]));
      && Root(hash, AllHashed(hash, data)) == hash(l + r) && |l| == 32 && |r| == 32
      && Nodes(hash, data) == Nodes(hash, data[..left]) + Nodes(hash, data[left..]) + {l + r}
    ensures data == data[..LeftCount(|data|)] + data[LeftCount(|data|)..]
  {
    hide Root, LeftCount, Inputs, Digest, AllDigests;
    var left, hs := LeftCount(|data|), AllHashed(hash, data);
    RootSplit(hash, hs);
    HashedHalves(hash, data, left);
    RootDigest(hash, hs[..left]);
    RootDigest(hash, hs[left..]);
  }

  /** What the root is the hash of. */
  function Top(hash: Hash, data: seq<Bytes>): Bytes
    requires data != []
  {
    if |data| == 1 then data[0]
    else
      var left := LeftCount(|data|);
      Root(hash, AllHashed(hash, data[..left])) + Root(hash, AllHashed(hash, data[left..]))
  }

  lemma TopIs(hash: Hash, data: seq<Bytes>)
    requires Digest(hash) && data != []
    ensures Root(hash, AllHashed(hash, data)) == hash(Top(hash, data))
    ensures if |data| == 1 then data == [Top(hash, data)] else Top(hash, data) in Nodes(hash, data)
  {
    if |data| > 1 {
      DataSplit(hash, data);
    }
  }

  /** Some data and something hashed for an inner node over others are the same. */
  predicate Mistaken(hash: Hash, x: Bytes, a: seq<Bytes>, b: seq<Bytes>) {
    (x in a && x in Nodes(hash, b)) || (x in Nodes(hash, a) && x in b)
  }

  predicate Hashed(hash: Hash, x: Bytes, data: seq<Bytes>) {
    x in data || x in Nodes(hash, data)
  }

  /**
   Different data, also in number, have different roots, unless something hashed for the one collides with something
   hashed for the other or some of the data are those of an inner node.
   */
  lemma {:induction false} DataCountBinds(hash: Hash, a: seq<Bytes>, b: seq<Bytes>) returns (x: Bytes, y: Bytes)
    requires Digest(hash) && a != [] && b != [] && a != b
    requires Root(hash, AllHashed(hash, a)) == Root(hash, AllHashed(hash, b))
    ensures Hashed(hash, x, a) && Hashed(hash, y, b) && (Collision(hash, x, y) || Mistaken(hash, x, a, b))
    decreases |a| + |b|
  {
    hide Root, Inputs, LeftCount, Nodes;
    TopIs(hash, a);
    TopIs(hash, b);
    x, y := Top(hash, a), Top(hash, b);
    if x == y && |a| > 1 && |b| > 1 {
      DataSplit(hash, a);
      DataSplit(hash, b);
      var i, j := LeftCount(|a|), LeftCount(|b|);
      var l, r := Root(hash, AllHashed(hash, a[..i])), Root(hash, AllHashed(hash, a[i..]));
      var l', r' := Root(hash, AllHashed(hash, b[..j])), Root(hash, AllHashed(hash, b[j..]));
      PrefixBinds(l, l', r, r');
      if a[..i] != b[..j] {
        x, y := DataCountBinds(hash, a[..i], b[..j]);
      } else {
        x, y := DataCountBinds(hash, a[i..], b[j..]);
      }
    }
  }

  // ----- boards

  function AllData(entries: seq<Entry>): (data: seq<Bytes>)
    ensures |data| == |entries|
  {
    seq(|entries|, i requires 0 <= i < |entries| => EntryData(entries[i]))
  }

  /** Nothing hashed for one board collides with anything hashed for the other, hashes to zeros or is mistaken. */
  ghost predicate Apart(hash: Hash, a: seq<Bytes>, b: seq<Bytes>) {
    && (forall x, y :: Hashed(hash, x, a) && Hashed(hash, y, b) ==> !Collision(hash, x, y))
    && (forall x :: Hashed(hash, x, a) || Hashed(hash, x, b) ==> hash(x) != Root(hash, []))
    && (forall x :: !Mistaken(hash, x, a, b))
  }

  /** Then, whatever their sizes, the boards have the same root exactly when they hold the same data. */
  lemma BoardBinds(hash: Hash, sign: Bytes -> Bytes, a: seq<Entry>, b: seq<Entry>)
    requires Digest(hash) && Posted(hash, sign, a) && Posted(hash, sign, b)
    requires Apart(hash, AllData(a), AllData(b))
    ensures Root(hash, Hashes(a)) == Root(hash, Hashes(b)) <==> AllData(a) == AllData(b)
  {
    assert Hashes(a) == AllHashed(hash, AllData(a)) && Hashes(b) == AllHashed(hash, AllData(b));
    hide Root, Nodes, Posted;
    if Root(hash, Hashes(a)) == Root(hash, Hashes(b)) && AllData(a) != AllData(b) {
      if a != [] && b != [] {
        var x, y := DataCountBinds(hash, AllData(a), AllData(b));
      } else {
        TopIs(hash, AllData(if a == [] then b else a));
      }
    }
  }

  /** What is hashed for inner nodes is as long as two hashes, so data of other lengths are never mistaken. */
  lemma {:induction false} NodesLength(hash: Hash, hs: seq<Bytes>, x: Bytes)
    requires Digest(hash) && AllDigests(hs) && x in Inputs(hash, hs)
    ensures |x| == 64
    decreases |hs|
  {
    LevelDigests(hash, hs);
    if x in LevelInputs(hs) {
      LevelLength(hs, x);
    } else {
      NodesLength(hash, NextLevel(hash, hs), x);
    }
  }

  lemma {:induction false} LevelLength(hs: seq<Bytes>, x: Bytes)
    requires AllDigests(hs) && x in LevelInputs(hs)
    ensures |x| == 64
    decreases |hs|
  {
    if x != hs[0] + hs[1] {
      LevelLength(hs[2..], x);
    }
  }

  lemma NotMistaken(hash: Hash, a: seq<Bytes>, b: seq<Bytes>)
    requires Digest(hash) && (forall i :: 0 <= i < |a| ==> |a[i]| != 64) && (forall i :: 0 <= i < |b| ==> |b[i]| != 64)
    ensures forall x :: !Mistaken(hash, x, a, b)
  {
    forall x ensures !Mistaken(hash, x, a, b) {
      if x in Nodes(hash, a) {
        NodesLength(hash, AllHashed(hash, a), x);
      }
      if x in Nodes(hash, b) {
        NodesLength(hash, AllHashed(hash, b), x);
      }
    }
  }

  /** The only entry of a board stands for a node over two exactly if its data are their hashes. */
  lemma OneForTwo(hash: Hash, sign: Bytes -> Bytes, a: seq<Entry>, b: seq<Entry>)
    requires Posted(hash, sign, a) && |a| == 2 && Posted(hash, sign, b) && |b| == 1
    requires !Collision(hash, a[0].entryHash + a[1].entryHash, EntryData(b[0]))
    ensures Root(hash, Hashes(a)) == Root(hash, Hashes(b)) <==> a[0].entryHash + a[1].entryHash == EntryData(b[0])
  {
    assert Hashes(a) == [a[0].entryHash, a[1].entryHash] && Hashes(b) == [b[0].entryHash];
    RootOfTwo(hash, a[0].entryHash, a[1].entryHash);
  }

  // ----- two boards that are not apart only because an entry is mistaken

  const SEVENS: Bytes := seq(8, _ => 7)
  const ZEROS: Bytes := seq(32, _ => 0)

  /** A function to 32 bytes. */
  function Front(x: Bytes): (h: Bytes)
    ensures |h| == 32
  {
    if |x| >= 32 && x[7] == 0 then x[..32] else seq(24, _ => 0) + SEVENS
  }

  function Sign(h: Bytes): Bytes {
    []
  }

  /**
   The condition on mistaken entries is needed: a board of one entry and its continuation by a second have the same
   root, although nothing hashed for them collides and nothing hashes to zeros. The first entry's data begin with its
   own hash and go on with the second's.
   */
  lemma SizesConfused() returns (d: Entry, e: Entry)
    ensures Digest(Front) && Posted(Front, Sign, [d]) && Posted(Front, Sign, [d, e])
    ensures Root(Front, Hashes([d])) == Root(Front, Hashes([d, e]))
    ensures forall x, y :: Hashed(Front, x, AllData([d])) && Hashed(Front, y, AllData([d, e])) ==> !Collision(Front, x, y)
    ensures forall x :: Hashed(Front, x, AllData([d])) || Hashed(Front, x, AllData([d, e])) ==> Front(x) != Root(Front, [])
  {
    Bytes8();
    hide Fixed, NextLevel;
    var none: Bytes, noVotes: seq<Bytes> := [], [];
    var data := Fixed(0, 8) + Fixed(0, 8) + SEVENS + none + ZEROS + SEVENS;
    var more := Fixed(1, 8) + Fixed(0, 8) + SEVENS + none + Front(data) + none;
    d := Entry(0, 0, SEVENS, [SEVENS], none, ZEROS, Front(data), Sign(Front(data)));
    e := Entry(1, 0, SEVENS, noVotes, none, Front(data), Front(more), Sign(Front(more)));
    assert Concat([SEVENS]) == SEVENS + Concat([SEVENS][1..]) == SEVENS && Concat(noVotes) == none;
    assert EntryData(d) == data && EntryData(e) == more;
    assert data[7] == 0 && more[7] == 1;
    FirstHalf(data, more);
    Chains(d, e);
    var h, k := Front(data), Front(more);
    RootOfTwo(Front, h, k);
    assert Hashes([d]) == [h] && Hashes([d, e]) == [h, k];
    assert AllData([d]) == [data] && AllData([d, e]) == [data, more];
    assert AllHashed(Front, [data]) == [h] && AllHashed(Front, [data, more]) == [h, k];
    assert Nodes(Front, [data]) == {} && Nodes(Front, [data, more]) == {data};
    assert forall x :: Hashed(Front, x, [data]) ==> x == data;
    assert forall x :: Hashed(Front, x, [data, more]) ==> x == data || x == more;
    assert h[16] == 7 && k[31] == 7 && h[31] == 0;
  }

  lemma FirstHalf(data: Bytes, more: Bytes)
    requires data == Fixed(0, 8) + Fixed(0, 8) + SEVENS + [] + ZEROS + SEVENS && |more| >= 32 && more[7] == 1
    requires Fixed(0, 8)[7] == 0
    ensures Front(data) + Front(more) == data && Front(data)[16] == 7 && Front(data)[31] == 0 && Front(more)[31] == 7
  {
    hide Fixed;
    assert data[7] == 0 && data[32..] == seq(24, _ => 0) + SEVENS;
  }

  lemma Chains(d: Entry, e: Entry)
    requires d.merkleRoot == Root(Front, []) && e.merkleRoot == d.entryHash && d.sequence == 0 && e.sequence == 1
    requires Sealed(Front, Sign, d) && Sealed(Front, Sign, e)
    ensures Posted(Front, Sign, [d]) && Posted(Front, Sign, [d, e])
  {
    hide Sealed;
    assert [d][..0] == [] && [d, e][..0] == [] && [d, e][..1] == [d];
    assert Hashes([]) == [] && Hashes([d]) == [d.entryHash];
  }

  lemma Bytes8()
    ensures Fixed(0, 8)[7] == 0 && Fixed(1, 8)[7] == 1
  {
    FixedEnd(0, 7);
    FixedEnd(1, 7);
  }

  lemma {:induction false} FixedEnd(n: nat, w: nat)
    ensures Fixed(n, w + 1)[w] == n % 256
  {
    if w > 0 {
      FixedEnd(n, w - 1);
    }
  }
}
