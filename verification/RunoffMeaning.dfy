/**
 An instant runoff read off its rounds: who stands, whose ballots count for whom, who goes and who wins, in terms of
 the ballots and of what earlier rounds say.
 */
module RunoffMeaning {
  import opened Ballots
  import opened InstantRunoff
  import opened SetFacts
  import opened Wrappers

  /** No round before the k-th eliminated c. */
  predicate Stands(rounds: seq<Round>, k: nat, c: nat)
    requires k <= |rounds|
  {
    forall j :: 0 <= j < k ==> rounds[j].eliminated != Some(c)
  }

  /** c stands, and nothing that the ballot names ahead of it does. */
  predicate CountsFor(r: Ballot, rounds: seq<Round>, k: nat, c: nat)
    requires k <= |rounds|
  {
    Stands(rounds, k, c)
    && exists i :: 0 <= i < |r| && r[i] == c && forall j :: 0 <= j < i ==> !Stands(rounds, k, r[j])
  }

  // ----- ballots

  lemma {:induction false} FirstMeans(r: Ballot, out: set<nat>, c: nat)
    ensures First(r, out) == Some(c)
      <==> c !in out && exists i :: 0 <= i < |r| && r[i] == c && forall j :: 0 <= j < i ==> r[j] in out
  {
    if r != [] && r[0] in out {
      FirstMeans(r[1..], out, c);
      if i :| 0 <= i < |r| && r[i] == c && forall j :: 0 <= j < i ==> r[j] in out {
        if c !in out {
          assert r[1..][i - 1] == c;
          assert forall j :: 0 <= j < i - 1 ==> r[1..][j] == r[j + 1];
        }
      }
      if i :| 0 <= i < |r| - 1 && r[1..][i] == c && forall j :: 0 <= j < i ==> r[1..][j] in out {
        assert r[i + 1] == c;
        forall j | 0 <= j < i + 1 ensures r[j] in out {
          assert j > 0 ==> r[j] == r[1..][j - 1];
        }
      }
    } else if r != [] && r[0] == c {
      assert r[0] == c;
    }
  }

  lemma {:induction false} PrefersMeans(r: Ballot, a: nat, b: nat)
    requires a != b
    ensures Prefers(r, a, b) <==> exists i :: 0 <= i < |r| && r[i] == a && forall j :: 0 <= j < i ==> r[j] != b
  {
    if r != [] && r[0] != a && r[0] != b {
      PrefersMeans(r[1..], a, b);
      if i :| 0 <= i < |r| && r[i] == a && forall j :: 0 <= j < i ==> r[j] != b {
        assert r[1..][i - 1] == a;
        assert forall j :: 0 <= j < i - 1 ==> r[1..][j] == r[j + 1];
      }
      if i :| 0 <= i < |r| - 1 && r[1..][i] == a && forall j :: 0 <= j < i ==> r[1..][j] != b {
        assert r[i + 1] == a;
        forall j | 0 <= j < i + 1 ensures r[j] != b {
          assert j > 0 ==> r[j] == r[1..][j - 1];
        }
      }
    } else if r != [] && r[0] == a {
      assert r[0] == a;
    }
  }

  /** Counting ballots is counting their places in the list. */
  lemma {:induction false} CountMeans(rs: seq<Ballot>, p: Ballot -> bool)
    ensures Count(rs, p) == |set k: nat | k < |rs| && p(rs[k])|
  {
    var s := set k: nat | k < |rs| && p(rs[k]);
    if rs == [] {
      assert s == {};
    } else {
      var last := |rs| - 1;
      CountMeans(rs[..last], p);
      var t := set k: nat | k < |rs[..last]| && p(rs[..last][k]);
      assert s == if p(rs[last]) then t + {last} else t;
    }
  }

  lemma VotesMean(rs: seq<Ballot>, out: set<nat>, c: nat, places: set<nat>)
    requires forall b: nat :: b in places <==> b < |rs| && First(rs[b], out) == Some(c)
    ensures Votes(rs, out, c) == |places|
  {
    var p := (r: Ballot) => First(r, out) == Some(c);
    CountMeans(rs, p);
    assert places == (set b: nat | b < |rs| && p(rs[b]));
  }

  // ----- rounds

  lemma {:induction false} EliminatedMeans(rounds: seq<Round>, c: nat)
    ensures c in EliminatedBy(rounds) <==> exists j :: 0 <= j < |rounds| && rounds[j].eliminated == Some(c)
  {
    if rounds != [] {
      var last := |rounds| - 1;
      EliminatedMeans(rounds[..last], c);
      assert rounds == rounds[..last] + [rounds[last]];
    }
  }

  lemma StandsMeans(rounds: seq<Round>, k: nat, c: nat)
    requires k <= |rounds|
    ensures Stands(rounds, k, c) <==> c !in OutAt({}, rounds, k)
  {
    EliminatedMeans(rounds[..k], c);
    assert forall j :: 0 <= j < k ==> rounds[..k][j] == rounds[j];
  }

  lemma CountsMeans(r: Ballot, rounds: seq<Round>, k: nat, c: nat)
    requires k <= |rounds|
    ensures CountsFor(r, rounds, k, c) <==> First(r, OutAt({}, rounds, k)) == Some(c)
  {
    hide OutAt, First, Stands;
    forall d: nat ensures Stands(rounds, k, d) <==> d !in OutAt({}, rounds, k) {
      StandsMeans(rounds, k, d);
    }
    FirstMeans(r, OutAt({}, rounds, k), c);
  }

  /** A round's tally of a choice is the number of ballots that count for it. */
  lemma RoundVotes(rs: seq<Ballot>, n: nat, rounds: seq<Round>, w: nat, k: nat, c: nat)
    requires Run(rs, n, {}, rounds, w) && k < |rounds| && c < n
    ensures |rounds[k].tallies| == n
    ensures rounds[k].tallies[c] == |set b: nat | b < |rs| && CountsFor(rs[b], rounds, k, c)|
  {
    hide Run, CountsFor, First, OutAt, Count, Votes;
    RoundTallies(rs, n, {}, rounds, w, k);
    var out := OutAt({}, rounds, k);
    var places := set b: nat | b < |rs| && CountsFor(rs[b], rounds, k, c);
    forall b: nat | b < |rs| ensures CountsFor(rs[b], rounds, k, c) <==> First(rs[b], out) == Some(c) {
      CountsMeans(rs[b], rounds, k, c);
    }
    VotesMean(rs, out, c, places);
  }

  /** What is left of a run from its k-th round on. */
  lemma {:induction false} RunFrom(rs: seq<Ballot>, n: nat, out: set<nat>, rounds: seq<Round>, w: nat, k: nat)
    requires Run(rs, n, out, rounds, w) && k < |rounds|
    ensures Run(rs, n, OutAt(out, rounds, k), rounds[k..], w)
    decreases |rounds|
  {
    hide Majority, OnlyOne, Last, Tallies, EliminatedBy, OutAt;
    if k == 0 {
      OutStart(out, rounds);
      assert rounds[0..] == rounds;
    } else {
      var l := rounds[0].eliminated.value;
      RunFrom(rs, n, out + {l}, rounds[1..], w, k - 1);
      OutLater(out, rounds, k);
      assert rounds[1..][k - 1..] == rounds[k..];
    }
  }

  lemma OutStart(out: set<nat>, rounds: seq<Round>)
    ensures OutAt(out, rounds, 0) == out
  {
    EliminatedNone(out, rounds);
  }

  /** Every round but the last: nobody has more than half, and one of several goes, the lowest-numbered of the weakest. */
  lemma RoundEliminates(rs: seq<Ballot>, n: nat, rounds: seq<Round>, w: nat, k: nat)
    requires ValidBallots(rs, n) && Run(rs, n, {}, rounds, w) && k + 1 < |rounds|
    ensures |rounds[k].tallies| == n && rounds[k].winner == None && rounds[k].eliminated.Some?
    ensures var ts, l := rounds[k].tallies, rounds[k].eliminated.value;
      && l < n && Stands(rounds, k, l)
      && (exists d: nat :: d < n && d != l && Stands(rounds, k, d))
      && forall d: nat :: d < n && Stands(rounds, k, d) ==>
        && 2 * ts[d] <= Sum(ts)
        && ts[l] <= ts[d]
        && (d < l ==> ts[l] < ts[d])
  {
    hide OutAt, Stands, Tallies, Sum, Votes;
    var out := OutAt({}, rounds, k);
    RunFrom(rs, n, {}, rounds, w, k);
    RunUnfold(rs, n, out, rounds[k..], w);
    assert rounds[k..][0] == rounds[k];
    var ts, l := rounds[k].tallies, rounds[k].eliminated.value;
    forall d: nat ensures Stands(rounds, k, d) <==> d !in out {
      StandsMeans(rounds, k, d);
    }
    assert !OnlyOne(out, n, l);
    var d :| Alive(d, out, n) && d != l;
    assert Stands(rounds, k, d);
    forall d: nat | d < n && Stands(rounds, k, d)
      ensures 2 * ts[d] <= Sum(ts) && ts[l] <= ts[d] && (d < l ==> ts[l] < ts[d])
    {
      if 2 * ts[d] > Sum(ts) {
        MakesMajority(rs, n, out, d);
      }
    }
  }

  /** The last round: its winner has more than half of the votes counted, or is the only one left. */
  lemma RoundElects(rs: seq<Ballot>, n: nat, rounds: seq<Round>, w: nat, k: nat)
    requires Run(rs, n, {}, rounds, w) && |rounds| == k + 1
    ensures rounds[k].winner == Some(w) && rounds[k].eliminated == None
    ensures w < n == |rounds[k].tallies| && Stands(rounds, k, w)
    ensures 2 * rounds[k].tallies[w] > Sum(rounds[k].tallies)
      || forall d: nat :: d < n && Stands(rounds, k, d) ==> d == w
  {
    hide OutAt, Stands, Tallies, Sum, Votes;
    var out := OutAt({}, rounds, k);
    RunFrom(rs, n, {}, rounds, w, k);
    assert rounds[k..] == [rounds[k]];
    forall d: nat ensures Stands(rounds, k, d) <==> d !in out {
      StandsMeans(rounds, k, d);
    }
    if OnlyOne(out, n, w) {
      forall d: nat | d < n && Stands(rounds, k, d) ensures d == w {
        assert Alive(d, out, n);
      }
    }
  }
}
