/**
 A ranked poll from end to end: keys are derived, ballots encrypted, stored, decrypted and tallied, and the outcome is
 that of the ballots as they were cast.
 */
module EncryptedPolls {
  import opened Ballots
  import opened BallotCodec
  import opened BigNumbers
  import opened FixedWidth
  import opened InstantRunoff
  import opened NumberTheory
  import opened PaillierScheme
  import opened Paillier
  import opened SetFacts
  import opened Wrappers

  type EncryptedBallot = seq<seq<Byte>>

  /** The rankings of all stored ballots, in the order of the map that holds them. */
  method DecryptRankings(sk: PaillierPrivateKey, votes: seq<EncryptedBallot>, choiceCount: nat)
    returns (rankings: seq<Ballot>)
    requires sk.publicKey.Valid() && forall k :: 0 <= k < |votes| ==> |votes[k]| >= choiceCount
    ensures |rankings| == |votes| && ValidBallots(rankings, choiceCount)
    ensures forall k :: 0 <= k < |votes| ==> Decoded(Ranks(sk, votes[k][..choiceCount]), rankings[k])
  {
    hide Decoded, Ranks, ValidBallot;
    rankings := [];
    for k := 0 to |votes|
      invariant |rankings| == k && ValidBallots(rankings, choiceCount)
      invariant forall j :: 0 <= j < k ==> Decoded(Ranks(sk, votes[j][..choiceCount]), rankings[j])
    {
      var ranking := DecryptRanking(sk, votes[k][..choiceCount]);
      DecodedIsBallot(Ranks(sk, votes[k][..choiceCount]), ranking);
      rankings := rankings + [ranking];
    }
  }

  /** A key pair derived from the primes p and q. */
  ghost predicate KeysOf(p: nat, q: nat, pk: PaillierPublicKey, sk: PaillierPrivateKey) {
    && p > 1 && q > 1 && p * q > 1 && pk.Valid() && sk.publicKey == pk
    && ToNum(pk.n) == p * q && ToNum(pk.g) == p * q + 1
    && ToNum(sk.lambda) == Lambda(p, q) && ToNum(sk.mu) == Mu(p * q, Lambda(p, q))
  }

  /** An encryption of a ranking, with random numbers from draws. */
  ghost predicate Casts(pk: PaillierPublicKey, ranking: Ballot, choiceCount: nat, draws: nat -> nat, e: EncryptedBallot)
    requires pk.Valid()
  {
    |e| == choiceCount && forall c :: 0 <= c < choiceCount ==> Encrypts(pk, e[c], RankOf(ranking, c), draws)
  }

  /** Ranks up to 255 are single bytes. */
  lemma OneByteRanks(n: nat, ranking: Ballot)
    requires n > 255 && |ranking| <= 255
    ensures RanksFit(n, ranking)
  {
    forall i: nat | i <= |ranking| ensures ToNum(IntBytes(i)) < n {
      OneByte(i);
    }
  }

  lemma OneByte(i: nat)
    requires i <= 255
    ensures ToNum(IntBytes(i)) == i
  {
    var b: seq<Byte> := [i];
    assert i > 0 ==> LittleEndian(i / 256) == [] && LittleEndian(i) == b + [];
    assert b[..0] == [] && b[1..] == [];
  }

  /** A cast ballot decodes to the ranking that was cast. */
  lemma CastDecodes(
    p: nat, q: nat, pk: PaillierPublicKey, sk: PaillierPrivateKey, ranking: Ballot, choiceCount: nat,
    draws: nat -> nat, e: EncryptedBallot, decoded: Ballot)
    requires IsPrime(p) && IsPrime(q) && p != q && GivesKey(p, q) && p * q > 255 && KeysOf(p, q, pk, sk)
    requires ValidBallot(ranking, choiceCount) && |ranking| <= 255
    requires forall k: nat {:trigger draws(k)} :: Unit(draws(k), p * q)
    requires Casts(pk, ranking, choiceCount, draws, e) && Decoded(Ranks(sk, e), decoded)
    ensures decoded == ranking
  {
    hide IsPrime, GivesKey, Unit, Encrypts, Lambda, Mu, RanksFit, CarriedRanks, Decoded;
    OneByteRanks(p * q, ranking);
    EncodedRanks(p, q, pk, sk, ranking, e, draws);
    RankingRoundTrip(p * q, ranking, Ranks(sk, e), decoded);
  }

  /** Encrypts a list of ballots. */
  method CastAll(pk: PaillierPublicKey, ballots: seq<Ballot>, choiceCount: nat, draws: nat -> nat -> nat)
    returns (votes: seq<EncryptedBallot>)
    requires pk.Valid() && ValidBallots(ballots, choiceCount)
    requires forall k :: 0 <= k < |ballots| ==> |ballots[k]| <= 255
    requires forall k: nat, i: nat {:trigger draws(k)(i)} :: draws(k)(i) < ToNum(pk.n)
    ensures |votes| == |ballots|
    ensures forall k :: 0 <= k < |ballots| ==> Casts(pk, ballots[k], choiceCount, draws(k), votes[k])
  {
    hide Encrypts;
    votes := [];
    for k := 0 to |ballots|
      invariant |votes| == k && forall j :: 0 <= j < k ==> Casts(pk, ballots[j], choiceCount, draws(j), votes[j])
    {
      assert ValidBallot(ballots[k], choiceCount);
      var e := EncodeRankedChoice(pk, ballots[k], choiceCount, draws(k));
      votes := votes + [e];
    }
  }

  /**
   The whole poll. Whatever primes give a key and whatever units are drawn, the tally of the encrypted ballots is the
   run of the ballots as cast, which by RunUnique is the only one.
   */
  method RankedPoll(p: nat, q: nat, ballots: seq<Ballot>, choiceCount: nat, draws: nat -> nat -> nat)
    returns (res: Results)
    requires IsPrime(p) && IsPrime(q) && p != q && GivesKey(p, q) && p * q > 255
    requires ValidBallots(ballots, choiceCount) && forall k :: 0 <= k < |ballots| ==> |ballots[k]| <= 255
    requires forall k: nat, i: nat {:trigger draws(k)(i)} :: draws(k)(i) < p * q && Unit(draws(k)(i), p * q)
    ensures choiceCount > 0 ==> Run(ballots, choiceCount, {}, res.rounds, res.winner)
  {
    hide GivesKey, Unit, Casts, Decoded, Ranks, Run, Lambda, Mu;
    var pk, sk := DeriveKeys(p, q);
    var votes := CastAll(pk, ballots, choiceCount, draws);
    forall k | 0 <= k < |votes| ensures |votes[k]| == choiceCount && votes[k][..choiceCount] == votes[k] {
      CastLength(pk, ballots[k], choiceCount, draws(k), votes[k]);
    }
    var rankings := DecryptRankings(sk, votes, choiceCount);
    forall k | 0 <= k < |votes| ensures rankings[k] == ballots[k] {
      CastDecodes(p, q, pk, sk, ballots[k], choiceCount, draws(k), votes[k], rankings[k]);
    }
    assert rankings == ballots;
    res := TallyRankedChoice(rankings, choiceCount);
  }

  lemma CastLength(pk: PaillierPublicKey, ranking: Ballot, choiceCount: nat, draws: nat -> nat, e: EncryptedBallot)
    requires pk.Valid() && Casts(pk, ranking, choiceCount, draws, e)
    ensures |e| == choiceCount && e[..choiceCount] == e
  {
  }
}
