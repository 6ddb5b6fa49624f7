/**
 Ranked ballots through the cryptosystem. Ranks are stored as little-endian bytes, but encryption and
 decryption read the same bytes as a big-endian number, so low-order zero bytes of a value are lost.
 */
module BallotCodec {
  import opened Ballots
  import opened BigNumbers
  import opened FixedWidth
  import opened NumberTheory
  import opened PaillierScheme
  import opened Paillier
  import opened SetFacts

  const INT64 := 0x8000_0000_0000_0000

  // ----- integers as little-endian bytes

  function LittleEndian(v: nat): seq<Byte> {
    if v == 0 then [] else [v % 256] + LittleEndian(v / 256)
  }

  /** The stored form of an int64; a negative number gets its absolute value and a byte 0xFF. */
  function IntBytes(v: int): seq<Byte> {
    if v == 0 then [0] else if v > 0 then LittleEndian(v) else LittleEndian(-v) + [0xFF]
  }

  /** The number that little-endian bytes spell. */
  function Spelled(bs: seq<Byte>): nat {
    if bs == [] then 0 else bs[0] + 256 * Spelled(bs[1..])
  }

  /** The first eight bytes as a signed 64-bit integer. */
  function BytesInt(bs: seq<Byte>): int {
    var u := Spelled(if |bs| <= 8 then bs else bs[..8]);
    if u < INT64 then u else u - 2 * INT64
  }

  method IntToBytes(value: int) returns (result: seq<Byte>)
    requires -INT64 < value < INT64
    ensures result == IntBytes(value)
  {
    result := [];
    if value == 0 {
      return [0];
    }
    var negative := value < 0;
    var absValue := if negative then -value else value;
    while absValue > 0
      invariant absValue >= 0
      invariant LittleEndian(if negative then -value else value) == result + LittleEndian(absValue)
      decreases absValue
    {
      result := result + [absValue % 256];
      absValue := absValue / 256;
    }
    if negative {
      result := result + [0xFF];
    }
  }

  method BytesToInt(bytes: seq<Byte>) returns (result: int)
    ensures result == BytesInt(bytes)
  {
    if bytes == [] {
      return 0;
    }
    var u: nat := 0;
    var i := 0;
    assert bytes[..0] == [];
    while i < |bytes| && i < 8
      invariant 0 <= i <= |bytes| && i <= 8 && u == Spelled(bytes[..i])
    {
      SpelledAppend(bytes[..i], bytes[i]);
      assert bytes[..i + 1] == bytes[..i] + [bytes[i]];
      u := u + bytes[i] * Power256(i);
      i := i + 1;
    }
    assert i == |bytes| ==> bytes[..i] == bytes;
    result := if u < INT64 then u else u - 2 * INT64;
  }

  lemma {:induction false} SpelledAppend(bs: seq<Byte>, b: Byte)
    ensures b * Power256(|bs|) >= 0 && Spelled(bs + [b]) == Spelled(bs) + b * Power256(|bs|)
  {
    MulMono(0, b, Power256(|bs|));
    if bs == [] {
      assert bs + [b] == [b] && [b][1..] == [];
    } else {
      SpelledAppend(bs[1..], b);
      assert (bs + [b])[1..] == bs[1..] + [b];
      assert b * Power256(|bs|) == 256 * (b * Power256(|bs| - 1));
    }
  }

  lemma {:induction false} SpelledLittleEndian(v: nat)
    ensures Spelled(LittleEndian(v)) == v
  {
    if v > 0 {
      SpelledLittleEndian(v / 256);
      assert LittleEndian(v)[1..] == LittleEndian(v / 256);
    }
  }

  lemma {:induction false} LittleEndianLength(v: nat, k: nat)
    requires v < Power256(k)
    ensures |LittleEndian(v)| <= k
  {
    if v > 0 {
      LittleEndianLength(v / 256, k - 1);
    }
  }

  /** Without encryption, nonnegative integers survive. */
  lemma IntRoundTrip(v: int)
    requires 0 <= v < INT64
    ensures BytesInt(IntBytes(v)) == v
  {
    if v == 0 {
      assert [0][1..] == [];
    } else {
      SpelledLittleEndian(v);
      assert Power256(4) == 0x1_0000_0000;
      assert Power256(8) == 2 * INT64;
      LittleEndianLength(v, 8);
    }
  }

  lemma {:induction false} SpelledBound(bs: seq<Byte>)
    ensures Spelled(bs) < Power256(|bs|)
  {
    if bs != [] {
      SpelledBound(bs[1..]);
    }
  }

  /** The bytes of a negative number read its absolute value, plus the sign byte if that is among the first eight. */
  lemma NegativeReads(a: nat)
    requires 0 < a < INT64
    ensures var k := |LittleEndian(a)|;
      var u := a + (if k == 8 then 0 else 255 * Power256(k));
      k <= 8 && BytesInt(IntBytes(0 - a)) == if u < INT64 then u else u - 2 * INT64
  {
    var bs := LittleEndian(a);
    assert Power256(4) == 0x1_0000_0000;
    assert Power256(8) == 2 * INT64;
    LittleEndianLength(a, 8);
    SpelledLittleEndian(a);
    SpelledAppend(bs, 255);
    if |bs| == 8 {
      assert (bs + [255])[..8] == bs;
    }
  }

  /**
   Which integers survive: all that are not negative, and of the negative ones only -2^55, whose sign byte lands
   on the sign bit.
   */
  lemma IntSurvives(v: int)
    requires -INT64 < v < INT64
    ensures BytesInt(IntBytes(v)) == v <==> v >= 0 || v == -0x80_0000_0000_0000
  {
    if v >= 0 {
      IntRoundTrip(v);
    } else {
      var a := -v;
      var k := |LittleEndian(a)|;
      NegativeReads(a);
      SpelledLittleEndian(a);
      SpelledBound(LittleEndian(a));
      SmallPowers();
      if a < Power256(7) {
        LittleEndianLength(a, 7);
      }
      if k <= 6 {
        PowerMono(k, 6);
      }
    }
  }

  /** So -1 does not: it reads as 0xFF01. */
  lemma MinusOneReads()
    ensures BytesInt(IntBytes(-1)) == 0xFF01
  {
    NegativeReads(1);
    assert LittleEndian(1 / 256) == [];
  }

  lemma SmallPowers()
    ensures Power256(6) == 0x1_0000_0000_0000 && Power256(7) == 0x100_0000_0000_0000 && Power256(8) == 2 * INT64
  {
    assert Power256(3) == 0x100_0000;
  }

  lemma {:induction false} PowerMono(j: nat, k: nat)
    requires j <= k
    ensures Power256(j) <= Power256(k)
  {
    if j < k {
      PowerMono(j, k - 1);
    }
  }

  // ----- the same bytes read as a big-endian number

  /** v without its low-order zero bytes. */
  function Trimmed(v: nat): nat {
    if v != 0 && v % 256 == 0 then Trimmed(v / 256) else v
  }

  lemma {:induction false} TrimmedBound(v: nat)
    ensures Trimmed(v) <= v && (Trimmed(v) == v <==> v == 0 || v % 256 != 0)
    ensures v != 0 ==> Trimmed(v) != 0
  {
    if v != 0 && v % 256 == 0 {
      TrimmedBound(v / 256);
    }
  }

  /** What a plaintext becomes on its way through encryption and decryption. */
  function Carried(n: nat, v: nat): int
    requires n > 0
  {
    BytesInt(ToBytes(ToNum(IntBytes(v)) % n))
  }

  lemma {:induction false} TrimBytes(v: nat)
    requires v > 0
    ensures ToBytes(ToNum(LittleEndian(v))) == LittleEndian(Trimmed(v))
    ensures ToNum(LittleEndian(v)) > 0
  {
    var bs := LittleEndian(v);
    if v % 256 == 0 {
      TrimBytes(v / 256);
      LeadingZero(LittleEndian(v / 256));
    } else {
      BytesOfNum(bs);
    }
  }

  /** A value below n, as reversed, comes back without its low-order zero bytes. */
  lemma CarriedTrims(n: nat, v: nat)
    requires v < INT64 && ToNum(IntBytes(v)) < n
    ensures Carried(n, v) == Trimmed(v)
  {
    DivisionUnique(ToNum(IntBytes(v)), n, 0, ToNum(IntBytes(v)));
    if v == 0 {
      var zero: seq<Byte> := [0];
      assert zero[..0] == [] && zero[1..] == [];
      assert ToNum(zero) == 0;
    } else {
      TrimBytes(v);
      TrimmedBound(v);
      IntRoundTrip(Trimmed(v));
    }
  }

  /** So exactly the values with a nonzero low byte, and 0, are preserved. */
  lemma CarriedExactly(n: nat, v: nat)
    requires v < INT64 && ToNum(IntBytes(v)) < n
    ensures Carried(n, v) == v <==> v == 0 || v % 256 != 0
  {
    CarriedTrims(n, v);
    TrimmedBound(v);
  }

  /** Rank 256 is read as rank 1. */
  lemma Rank256(n: nat)
    requires n > 1
    ensures Carried(n, 256) == 1
  {
    assert LittleEndian(1) == [1];
    assert LittleEndian(256) == [0, 1];
    LeadingZero([1]);
    var one: seq<Byte> := [1];
    assert one[..0] == [];
    assert ToNum(one) == 1;
    assert [0] + one == [0, 1];
    CarriedTrims(n, 256);
    assert Trimmed(256) == Trimmed(1);
  }

  /** What any decryption of any encryption of v reads. */
  lemma DecryptsToCarried(p: nat, q: nat, v: nat, r: nat)
    requires IsPrime(p) && IsPrime(q) && p != q && GivesKey(p, q)
    requires Unit(r, p * q)
    ensures var n := p * q; var l := Lambda(p, q);
      && n > 1
      && BytesInt(ToBytes(Decrypted(n, l, Mu(n, l), ToNum(ToBytes(Encrypted(n, n + 1, ToNum(IntBytes(v)), r))))))
         == Carried(n, v)
  {
    RoundTrip(p, q, ToNum(IntBytes(v)), r);
    NumOfBytes(Encrypted(p * q, p * q + 1, ToNum(IntBytes(v)), r));
  }

  // ----- rankings

  /** The rank a choice is given, counted from 1; 0 if it is not ranked, the last one if repeated. */
  function RankOf(ranking: seq<nat>, c: nat): nat {
    if ranking == [] then 0
    else if ranking[|ranking| - 1] == c then |ranking|
    else RankOf(ranking[..|ranking| - 1], c)
  }

  /** A stored encryption of v under one of the random numbers drawn. */
  ghost predicate Encrypts(pk: PaillierPublicKey, e: seq<Byte>, v: int, draws: nat -> nat)
    requires pk.Valid()
  {
    exists k: nat :: e == ToBytes(Encrypted(ToNum(pk.n), ToNum(pk.g), ToNum(IntBytes(v)), draws(k)))
  }

  /** draws(k) is the k-th random number, below n. */
  method EncodeRankedChoice(pk: PaillierPublicKey, rankings: seq<nat>, choiceCount: nat, draws: nat -> nat)
    returns (encrypted: seq<seq<Byte>>)
    requires pk.Valid() && |rankings| < INT64 && forall i :: 0 <= i < |rankings| ==> rankings[i] < choiceCount
    requires forall k: nat {:trigger draws(k)} :: draws(k) < ToNum(pk.n)
    ensures |encrypted| == choiceCount
    ensures forall c :: 0 <= c < choiceCount ==> Encrypts(pk, encrypted[c], RankOf(rankings, c), draws)
  {
    hide Encrypted;
    encrypted := [];
    var zero := IntToBytes(0);
    for i := 0 to choiceCount
      invariant |encrypted| == i && forall c :: 0 <= c < i ==> Encrypts(pk, encrypted[c], 0, draws)
    {
      var e := pk.Encrypt(zero, draws(i));
      encrypted := encrypted + [e];
    }
    assert rankings[..0] == [];
    for rank := 0 to |rankings|
      invariant |encrypted| == choiceCount
      invariant forall c :: 0 <= c < choiceCount ==> Encrypts(pk, encrypted[c], RankOf(rankings[..rank], c), draws)
    {
      encrypted := StoreRank(pk, rankings, rank, encrypted, draws, choiceCount + rank);
    }
    assert rankings[..|rankings|] == rankings;
  }

  /** One turn of the second loop, with the k-th random number. */
  method StoreRank(pk: PaillierPublicKey, rankings: seq<nat>, rank: nat, before: seq<seq<Byte>>,
                   draws: nat -> nat, k: nat) returns (encrypted: seq<seq<Byte>>)
    requires pk.Valid() && rank < |rankings| < INT64 && rankings[rank] < |before| && draws(k) < ToNum(pk.n)
    requires forall c :: 0 <= c < |before| ==> Encrypts(pk, before[c], RankOf(rankings[..rank], c), draws)
    ensures |encrypted| == |before|
    ensures forall c :: 0 <= c < |before| ==> Encrypts(pk, encrypted[c], RankOf(rankings[..rank + 1], c), draws)
  {
    hide Encrypted;
    var choiceIndex := rankings[rank];
    var rankBytes := IntToBytes(rank + 1);
    var e := pk.Encrypt(rankBytes, draws(k));
    assert Encrypts(pk, e, rank + 1, draws);
    encrypted := before[choiceIndex := e];
    hide Encrypts;
    forall c | 0 <= c < |before| ensures Encrypts(pk, encrypted[c], RankOf(rankings[..rank + 1], c), draws) {
      RankStep(rankings, rank, c);
    }
  }

  lemma RankStep(rankings: seq<nat>, rank: nat, c: nat)
    requires rank < |rankings|
    ensures RankOf(rankings[..rank + 1], c) == if rankings[rank] == c then rank + 1 else RankOf(rankings[..rank], c)
  {
    assert rankings[..rank + 1][..rank] == rankings[..rank];
  }

  /** Truncation of a 64-bit integer to an int. */
  function Int32(v: int): int {
    var u := v % 0x1_0000_0000;
    if u < 0x8000_0000 then u else u - 0x1_0000_0000
  }

  /** A ranking read from ranks: the choices with a positive rank, by rank, ties in any order. */
  predicate Decoded(ranks: seq<int>, ranking: seq<nat>) {
    && Distinct(ranking)
    && (forall i :: 0 <= i < |ranking| ==> ranking[i] < |ranks| && ranks[ranking[i]] > 0)
    && (forall c :: 0 <= c < |ranks| && ranks[c] > 0 ==> c in ranking)
    && forall i, j :: 0 <= i < j < |ranking| ==> ranks[ranking[i]] <= ranks[ranking[j]]
  }

  function ReadRank(sk: PaillierPrivateKey, e: seq<Byte>): int
    requires sk.publicKey.Valid()
  {
    Int32(BytesInt(ToBytes(Decrypted(ToNum(sk.publicKey.n), ToNum(sk.lambda), ToNum(sk.mu), ToNum(e)))))
  }

  /** The ranks a decryption of the ballot shows. */
  function Ranks(sk: PaillierPrivateKey, encrypted: seq<seq<Byte>>): (ranks: seq<int>)
    requires sk.publicKey.Valid()
    ensures |ranks| == |encrypted| && forall i :: 0 <= i < |encrypted| ==> ranks[i] == ReadRank(sk, encrypted[i])
  {
    seq(|encrypted|, i requires 0 <= i < |encrypted| => ReadRank(sk, encrypted[i]))
  }

  method DecryptRanking(sk: PaillierPrivateKey, encrypted: seq<seq<Byte>>) returns (ranking: seq<nat>)
    requires sk.publicKey.Valid()
    ensures Decoded(Ranks(sk, encrypted), ranking)
  {
    hide ReadRank, Ranks;
    ghost var all := Ranks(sk, encrypted);
    var ranks: seq<int> := [];
    var ranked: seq<nat> := [];
    for i := 0 to |encrypted|
      invariant ranks == all[..i]
      invariant Distinct(ranked) && forall c :: c in ranked <==> 0 <= c < i && all[c] > 0
    {
      var rank := DecryptRank(sk, encrypted[i]);
      ranks := ranks + [rank];
      if rank > 0 {
        ranked := ranked + [i];
      }
    }
    ranking := SortByRank(ranked, ranks);
  }

  method DecryptRank(sk: PaillierPrivateKey, e: seq<Byte>) returns (rank: int)
    requires sk.publicKey.Valid()
    ensures rank == ReadRank(sk, e)
  {
    var decrypted := sk.Decrypt(e);
    var value := BytesToInt(decrypted);
    rank := Int32(value);
  }

  /** std::sort on the ranks; the order of equal ranks is open. */
  method SortByRank(ranked: seq<nat>, ranks: seq<int>) returns (sorted: seq<nat>)
    requires Distinct(ranked) && forall c :: c in ranked ==> c < |ranks|
    ensures Distinct(sorted) && forall c :: c in sorted <==> c in ranked
    ensures forall i :: 0 <= i < |sorted| ==> sorted[i] < |ranks|
    ensures forall i, j :: 0 <= i < j < |sorted| ==> ranks[sorted[i]] <= ranks[sorted[j]]
  {
    sorted := ranked;
    forall k | 0 <= k < |ranked| ensures ranked[k] < |ranks| {
      assert ranked[k] in ranked;
    }
    for i := 0 to |ranked|
      invariant |sorted| == |ranked| && Distinct(sorted) && forall c :: c in sorted <==> c in ranked
      invariant forall k :: 0 <= k < |sorted| ==> sorted[k] < |ranks|
      invariant forall k, m :: 0 <= k < i && k < m < |sorted| ==> ranks[sorted[k]] <= ranks[sorted[m]]
    {
      var k := PickLowest(sorted, i, ranks);
      SwapKeeps(sorted, i, k);
      sorted := sorted[i := sorted[k]][k := sorted[i]];
    }
  }

  lemma SwapKeeps(s: seq<nat>, i: nat, k: nat)
    requires i <= k < |s| && Distinct(s)
    ensures var t := s[i := s[k]][k := s[i]];
      Distinct(t) && forall c :: c in t <==> c in s
  {
    var t := s[i := s[k]][k := s[i]];
    forall c | c in s ensures c in t {
      var m :| 0 <= m < |s| && s[m] == c;
      assert t[if m == i then k else if m == k then i else m] == c;
    }
  }

  /** Some position from i on with the lowest rank. */
  method PickLowest(s: seq<nat>, i: nat, ranks: seq<int>) returns (k: nat)
    requires i < |s| && forall m :: 0 <= m < |s| ==> s[m] < |ranks|
    ensures i <= k < |s| && forall m :: i <= m < |s| ==> ranks[s[k]] <= ranks[s[m]]
  {
    ghost var low := LowestExists(s, i, ranks);
    assert LowestAt(s, i, ranks, low);
    k :| i <= k < |s| && LowestAt(s, i, ranks, k);
    assert LowestAt(s, i, ranks, k);
  }

  predicate LowestAt(s: seq<nat>, i: nat, ranks: seq<int>, k: nat)
    requires forall m :: 0 <= m < |s| ==> s[m] < |ranks|
  {
    i <= k < |s| && forall m :: i <= m < |s| ==> ranks[s[k]] <= ranks[s[m]]
  }

  lemma {:induction false} LowestExists(s: seq<nat>, i: nat, ranks: seq<int>) returns (k: nat)
    requires i < |s| && forall m :: 0 <= m < |s| ==> s[m] < |ranks|
    ensures LowestAt(s, i, ranks, k)
    decreases |s| - i
  {
    k := i;
    if i + 1 < |s| {
      var j := LowestExists(s, i + 1, ranks);
      k := if ranks[s[j]] < ranks[s[i]] then j else i;
    }
  }

  /** Whatever a ballot decrypts to, the tallies get a ranking without repeats. */
  lemma DecodedIsBallot(ranks: seq<int>, ranking: seq<nat>)
    requires Decoded(ranks, ranking)
    ensures ValidBallot(ranking, |ranks|)
  {}

  // ----- which rankings come back

  /** The ranks read from a ballot whose entries decrypt as CarriedTrims says. */
  predicate CarriedRanks(n: nat, ranking: seq<nat>, ranks: seq<int>)
    requires n > 0
  {
    forall c :: 0 <= c < |ranks| ==> ranks[c] == Int32(Carried(n, RankOf(ranking, c)))
  }

  /** n is large enough for every rank of the ballot. */
  predicate RanksFit(n: nat, ranking: seq<nat>) {
    |ranking| < 0x8000_0000 && forall i: nat {:trigger IntBytes(i)} :: i <= |ranking| ==> ToNum(IntBytes(i)) < n
  }

  lemma {:induction false} RankAt(ranking: seq<nat>, i: nat)
    requires Distinct(ranking) && i < |ranking|
    ensures RankOf(ranking, ranking[i]) == i + 1
  {
    if i < |ranking| - 1 {
      RankAt(ranking[..|ranking| - 1], i);
    }
  }

  lemma {:induction false} RankNone(ranking: seq<nat>, c: nat)
    ensures c !in ranking <==> RankOf(ranking, c) == 0
    ensures RankOf(ranking, c) <= |ranking|
  {
    if ranking != [] {
      RankNone(ranking[..|ranking| - 1], c);
    }
  }

  lemma SmallRank(n: nat, v: nat)
    requires v <= 255 && ToNum(IntBytes(v)) < n
    ensures Int32(Carried(n, v)) == v
  {
    CarriedExactly(n, v);
  }

  /** Up to 255 entries, every decoding returns the ranking. */
  lemma ShortRankingReturns(n: nat, ranking: seq<nat>, ranks: seq<int>, decoded: seq<nat>)
    requires n > 0 && Distinct(ranking) && RanksFit(n, ranking) && |ranking| <= 255
    requires forall i :: 0 <= i < |ranking| ==> ranking[i] < |ranks|
    requires CarriedRanks(n, ranking, ranks) && Decoded(ranks, decoded)
    ensures decoded == ranking
  {
    forall c | 0 <= c < |ranks| ensures ranks[c] == RankOf(ranking, c) {
      RankNone(ranking, c);
      SmallRank(n, RankOf(ranking, c));
    }
    forall c: nat ensures c in decoded <==> c in ranking {
      RankNone(ranking, c);
    }
    assert Elems(decoded) == Elems(ranking);
    DistinctElems(decoded);
    DistinctElems(ranking);
    forall k | 0 <= k < |decoded| ensures ranks[decoded[k]] == k + 1 {
      InOrder(ranking, ranks, decoded, k);
    }
    forall k | 0 <= k < |decoded| ensures decoded[k] == ranking[k] {
      RankAt(ranking, k);
      SameRank(ranking, decoded[k], ranking[k]);
    }
  }

  lemma SameRank(ranking: seq<nat>, a: nat, b: nat)
    requires Distinct(ranking) && a in ranking && b in ranking && RankOf(ranking, a) == RankOf(ranking, b)
    ensures a == b
  {
    var i :| 0 <= i < |ranking| && ranking[i] == a;
    var j :| 0 <= j < |ranking| && ranking[j] == b;
    RankAt(ranking, i);
    RankAt(ranking, j);
  }

  /** Distinct ranks 1 to L in nondecreasing order are 1, 2, ..., L. */
  lemma InOrder(ranking: seq<nat>, ranks: seq<int>, decoded: seq<nat>, k: nat)
    requires Distinct(ranking) && Decoded(ranks, decoded) && |decoded| == |ranking| && k < |decoded|
    requires forall c :: 0 <= c < |ranks| ==> ranks[c] == RankOf(ranking, c)
    requires forall c :: c in decoded ==> c in ranking
    ensures ranks[decoded[k]] == k + 1
  {
    forall i, j | 0 <= i < j < |decoded| ensures ranks[decoded[i]] < ranks[decoded[j]] {
      if ranks[decoded[i]] == ranks[decoded[j]] {
        SameRank(ranking, decoded[i], decoded[j]);
      }
    }
    forall i | 0 <= i < |decoded| ensures 1 <= ranks[decoded[i]] <= |decoded| {
      RankNone(ranking, decoded[i]);
    }
    Climbing(seq(|decoded|, i requires 0 <= i < |decoded| => ranks[decoded[i]]), k);
  }

  lemma Climbing(s: seq<int>, k: nat)
    requires k < |s| && forall i, j :: 0 <= i < j < |s| ==> s[i] < s[j]
    requires forall i :: 0 <= i < |s| ==> 1 <= s[i] <= |s|
    ensures s[k] == k + 1
  {
    ClimbUp(s, k);
    ClimbDown(s, k);
  }

  lemma {:induction false} ClimbUp(s: seq<int>, k: nat)
    requires k < |s| && (forall i, j :: 0 <= i < j < |s| ==> s[i] < s[j]) && s[0] >= 1
    ensures s[k] >= k + 1
  {
    if k > 0 {
      ClimbUp(s, k - 1);
    }
  }

  lemma {:induction false} ClimbDown(s: seq<int>, k: nat)
    requires k < |s| && (forall i, j :: 0 <= i < j < |s| ==> s[i] < s[j]) && s[|s| - 1] <= |s|
    ensures s[k] <= k + 1
    decreases |s| - k
  {
    if k < |s| - 1 {
      ClimbDown(s, k + 1);
    }
  }

  /** With 256 entries or more, no decoding does: rank 256 is read as 1. */
  lemma LongRankingFails(n: nat, ranking: seq<nat>, ranks: seq<int>, decoded: seq<nat>)
    requires n > 1 && Distinct(ranking) && RanksFit(n, ranking) && |ranking| >= 256
    requires forall i :: 0 <= i < |ranking| ==> ranking[i] < |ranks|
    requires CarriedRanks(n, ranking, ranks) && Decoded(ranks, decoded)
    ensures decoded != ranking
  {
    RankAt(ranking, 254);
    RankAt(ranking, 255);
    SmallRank(n, 255);
    Rank256(n);
    assert ranks[ranking[254]] == 255 && ranks[ranking[255]] == 1;
  }

  /** Exactly when a ranked ballot survives. */
  lemma RankingRoundTrip(n: nat, ranking: seq<nat>, ranks: seq<int>, decoded: seq<nat>)
    requires n > 1 && Distinct(ranking) && RanksFit(n, ranking)
    requires forall i :: 0 <= i < |ranking| ==> ranking[i] < |ranks|
    requires CarriedRanks(n, ranking, ranks) && Decoded(ranks, decoded)
    ensures decoded == ranking <==> |ranking| <= 255
  {
    if |ranking| <= 255 {
      ShortRankingReturns(n, ranking, ranks, decoded);
    } else {
      LongRankingFails(n, ranking, ranks, decoded);
    }
  }

  /** The ballots the encoder writes are read by the key holder as CarriedRanks says. */
  lemma EncodedRanks(p: nat, q: nat, pk: PaillierPublicKey, sk: PaillierPrivateKey, ranking: seq<nat>,
                     encrypted: seq<seq<Byte>>, draws: nat -> nat)
    requires IsPrime(p) && IsPrime(q) && p != q && GivesKey(p, q)
    requires p * q > 1 && pk.Valid() && sk.publicKey == pk
    requires ToNum(pk.n) == p * q && ToNum(pk.g) == p * q + 1
    requires ToNum(sk.lambda) == Lambda(p, q) && ToNum(sk.mu) == Mu(p * q, Lambda(p, q))
    requires forall k: nat {:trigger draws(k)} :: Unit(draws(k), p * q)
    requires forall c :: 0 <= c < |encrypted| ==> Encrypts(pk, encrypted[c], RankOf(ranking, c), draws)
    ensures CarriedRanks(p * q, ranking, Ranks(sk, encrypted))
  {
    hide Decrypted, Encrypted, Lambda, Mu, IsPrime, GivesKey, Unit, BytesInt, IntBytes, Carried;
    var ranks := Ranks(sk, encrypted);
    forall c | 0 <= c < |ranks| ensures ranks[c] == Int32(Carried(p * q, RankOf(ranking, c))) {
      var v := RankOf(ranking, c);
      var k: nat :| encrypted[c] == ToBytes(Encrypted(ToNum(pk.n), ToNum(pk.g), ToNum(IntBytes(v)), draws(k)));
      DecryptsToCarried(p, q, v, draws(k));
    }
  }
}
