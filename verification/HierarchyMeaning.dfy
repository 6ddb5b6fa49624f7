/** Which precinct tallies a hierarchy counts, and what their totals are, without the recursions they are computed by. */
module HierarchyMeaning {
  import opened Aggregation
  import opened BigNumbers
  import opened Hierarchy
  import opened PaillierScheme
  import opened SetFacts
  import opened Wrappers

  /** No later tally is of the same jurisdiction. */
  predicate Latest(ts: seq<Tally>, k: nat)
    requires k < |ts|
  {
    forall l :: k < l < |ts| ==> ts[l].id != ts[k].id
  }

  lemma LatestRest(ts: seq<Tally>, k: nat)
    requires 0 < k < |ts|
    ensures Latest(ts, k) <==> Latest(ts[1..], k - 1)
  {
    assert forall l :: k < l < |ts| ==> ts[l] == ts[1..][l - 1];
  }

  lemma LatestFirst(ts: seq<Tally>)
    requires ts != []
    ensures Latest(ts, 0) <==> ts[0].id !in Ids(ts[1..])
  {
    assert forall l :: 0 < l < |ts| ==> Ids(ts[1..])[l - 1] == ts[l].id;
  }

  /** Of the tallies given to one aggregator, those that no later one of the same jurisdiction replaced. */
  lemma {:induction false} KeptMeans(ts: seq<Tally>, t: Tally)
    ensures t in Kept(ts) <==> exists k :: 0 <= k < |ts| && Latest(ts, k) && ts[k] == t
  {
    hide Latest;
    if ts != [] {
      var rest := ts[1..];
      KeptMeans(rest, t);
      LatestFirst(ts);
      forall k | 0 < k < |ts| ensures Latest(ts, k) <==> Latest(rest, k - 1) {
        LatestRest(ts, k);
      }
      if k :| 0 <= k < |rest| && Latest(rest, k) && rest[k] == t {
        assert Latest(ts, k + 1) && ts[k + 1] == t;
      }
      if k :| 0 <= k < |ts| && Latest(ts, k) && ts[k] == t {
        assert k > 0 ==> ts[k] == rest[k - 1];
      }
    }
  }

  /** No later part has the same id. */
  predicate Stays(js: seq<Jurisdiction>, k: nat)
    requires k < |js|
  {
    forall l :: k < l < |js| ==> IdOf(js[l]) != IdOf(js[k])
  }

  lemma StaysRest(js: seq<Jurisdiction>, k: nat)
    requires 0 < k < |js|
    ensures Stays(js, k) <==> Stays(js[1..], k - 1)
  {
    assert forall l :: k < l < |js| ==> js[l] == js[1..][l - 1];
  }

  lemma StaysFirst(js: seq<Jurisdiction>)
    requires js != []
    ensures Stays(js, 0) <==> IdOf(js[0]) !in PartIds(js[1..])
  {
    assert forall l :: 0 < l < |js| ==> PartIds(js[1..])[l - 1] == IdOf(js[l]);
  }

  /** The precincts below several parts: those of the parts that no later one replaced. */
  lemma {:induction false} CountedMeans(js: seq<Jurisdiction>, t: Tally)
    ensures t in AllCounted(js) <==> exists k :: 0 <= k < |js| && Stays(js, k) && t in Counted(js[k])
  {
    hide Stays, Counted;
    if js != [] {
      var rest := js[1..];
      CountedMeans(rest, t);
      StaysFirst(js);
      forall k | 0 < k < |js| ensures Stays(js, k) <==> Stays(rest, k - 1) {
        StaysRest(js, k);
      }
      if k :| 0 <= k < |rest| && Stays(rest, k) && t in Counted(rest[k]) {
        assert Stays(js, k + 1) && js[k + 1] == rest[k];
      }
      if k :| 0 <= k < |js| && Stays(js, k) && t in Counted(js[k]) {
        assert k > 0 ==> js[k] == rest[k - 1];
      }
    }
  }

  /** The voters reported are the sum of the voters of the tallies counted. */
  lemma {:induction false} VotersAre(ts: seq<Tally>)
    ensures Voters(ts) == Sum(seq(|ts|, k requires 0 <= k < |ts| => ts[k].voterCount))
  {
    if ts != [] {
      var front := ts[..|ts| - 1];
      VotersAre(front);
      var counts := seq(|ts|, k requires 0 <= k < |ts| => ts[k].voterCount);
      assert counts[..|ts| - 1] == seq(|front|, k requires 0 <= k < |front| => front[k].voterCount);
    }
  }

  /** The total of a choice is the sum of what its ciphertexts decrypt to. */
  lemma {:induction false} TotalIs(n: nat, lambda: nat, mu: nat, ts: seq<Tally>, i: nat)
    requires n > 0 && forall k :: 0 <= k < |ts| ==> i < |ts[k].encrypted|
    ensures PlainSum(n, lambda, mu, Column(ts, i))
      == Sum(seq(|ts|, k requires 0 <= k < |ts| => Decrypted(n, lambda, mu, ToNum(ts[k].encrypted[i]))))
  {
    hide Decrypted, ToNum;
    if ts != [] {
      var front := ts[..|ts| - 1];
      TotalIs(n, lambda, mu, front, i);
      var votes := seq(|ts|, k requires 0 <= k < |ts| => Decrypted(n, lambda, mu, ToNum(ts[k].encrypted[i])));
      assert votes[..|ts| - 1]
        == seq(|front|, k requires 0 <= k < |front| => Decrypted(n, lambda, mu, ToNum(front[k].encrypted[i])));
      assert Column(ts, i)[..|ts| - 1] == Column(front, i);
    }
  }
}
