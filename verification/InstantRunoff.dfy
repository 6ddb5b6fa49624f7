/**
 The instant-runoff tally: the elimination loop, the runs it can produce, and what they guarantee about
 the winner.
 */
module InstantRunoff {
  import opened Ballots
  import opened SetFacts
  import opened Wrappers

  datatype Round = Round(tallies: seq<nat>, winner: Option<nat>, eliminated: Option<nat>)

  datatype Results = Results(winner: nat, eliminated: set<nat>, rounds: seq<Round>, tallies: seq<nat>)

  predicate Alive(c: int, out: set<nat>, n: nat) {
    0 <= c < n && c !in out
  }

  /** More than half of the counted votes, and strictly ahead of every other survivor. */
  ghost predicate Majority(ts: seq<nat>, out: set<nat>, w: nat) {
    && Alive(w, out, |ts|) && ts[w] > Sum(ts) / 2
    && forall d :: Alive(d, out, |ts|) && d != w ==> ts[d] < ts[w]
  }

  /** Fewest votes among the survivors; the lowest number on ties. */
  ghost predicate Last(ts: seq<nat>, out: set<nat>, l: nat) {
    && Alive(l, out, |ts|)
    && forall d :: Alive(d, out, |ts|) ==> ts[l] <= ts[d] && (d < l ==> ts[l] < ts[d])
  }

  ghost predicate OnlyOne(out: set<nat>, n: nat, w: nat) {
    Alive(w, out, n) && forall d :: Alive(d, out, n) ==> d == w
  }

  /** A complete run from the eliminated set out: its rounds and its winner. */
  ghost predicate Run(rs: seq<Ballot>, n: nat, out: set<nat>, rounds: seq<Round>, w: nat)
    decreases |rounds|
  {
    && rounds != []
    && var ts := Tallies(rs, out, n);
    if |rounds| == 1 then
      && rounds[0] == Round(ts, Some(w), None)
      && (Majority(ts, out, w) || (OnlyOne(out, n, w) && forall v :: !Majority(ts, out, v)))
    else
      && rounds[0].eliminated.Some?
      && var l := rounds[0].eliminated.value;
      && rounds[0] == Round(ts, None, Some(l))
      && (forall v :: !Majority(ts, out, v)) && (forall v :: !OnlyOne(out, n, v))
      && Last(ts, out, l)
      && Run(rs, n, out + {l}, rounds[1..], w)
  }

  // ----- the loops of a round

  method CountFirstChoices(rs: seq<Ballot>, out: set<nat>, n: nat) returns (tallies: seq<nat>)
    requires ValidBallots(rs, n)
    ensures tallies == Tallies(rs, out, n)
  {
    hide Votes, Tallies, First;
    tallies := seq(n, _ => 0);
    NoVotes(out, n);
    for k := 0 to |rs|
      invariant tallies == Tallies(rs[..k], out, n)
    {
      var ranking := rs[k];
      TalliesStep(rs[..k + 1], out, n);
      assert rs[..k + 1][..k] == rs[..k];
      var i := 0;
      assert ranking[0..] == ranking;
      while i < |ranking|
        invariant 0 <= i <= |ranking| && First(ranking, out) == First(ranking[i..], out)
      {
        FirstUnfold(ranking[i..], out);
        assert ranking[i..][1..] == ranking[i + 1..];
        if ranking[i] !in out {
          assert ValidBallot(ranking, n);
          tallies := tallies[ranking[i] := tallies[ranking[i]] + 1];
          break;
        }
        i := i + 1;
      }
      if i == |ranking| {
        FirstUnfold([], out);
        assert ranking[i..] == [];
      }
    }
    assert rs[..|rs|] == rs;
  }

  lemma NoVotes(out: set<nat>, n: nat)
    ensures Tallies([], out, n) == seq(n, _ => 0)
  {}

  lemma FirstUnfold(r: Ballot, out: set<nat>)
    ensures First(r, out) == if r == [] then None else if r[0] !in out then Some(r[0]) else First(r[1..], out)
  {}

  method Total(ts: seq<nat>) returns (total: nat)
    ensures total == Sum(ts)
  {
    total := 0;
    for i := 0 to |ts|
      invariant total == Sum(ts[..i])
    {
      assert ts[..i + 1][..i] == ts[..i];
      total := total + ts[i];
    }
    assert ts[..|ts|] == ts;
  }

  /** The most votes a survivor has, 0 if there is none. */
  method MaxVotes(ts: seq<nat>, out: set<nat>) returns (max: nat)
    ensures forall d :: Alive(d, out, |ts|) ==> ts[d] <= max
    ensures max == 0 || exists d :: Alive(d, out, |ts|) && ts[d] == max
  {
    max := 0;
    for i := 0 to |ts|
      invariant forall d :: Alive(d, out, i) ==> ts[d] <= max
      invariant max == 0 || exists d :: Alive(d, out, i) && ts[d] == max
    {
      if i !in out && max < ts[i] {
        max := ts[i];
        assert Alive(i, out, i + 1);
      }
      assert forall d :: Alive(d, out, i) ==> Alive(d, out, i + 1);
    }
  }

  method TopCandidates(ts: seq<nat>, out: set<nat>, max: nat) returns (top: seq<nat>)
    ensures forall d :: d in top <==> Alive(d, out, |ts|) && ts[d] == max
    ensures forall i, j :: 0 <= i < j < |top| ==> top[i] < top[j]
  {
    top := [];
    for i := 0 to |ts|
      invariant forall d :: d in top <==> Alive(d, out, i) && ts[d] == max
      invariant forall i, j :: 0 <= i < j < |top| ==> top[i] < top[j]
      invariant forall k :: 0 <= k < |top| ==> top[k] < i
    {
      if i !in out && ts[i] == max {
        top := top + [i];
      }
    }
  }

  /** From the highest number down, so that ties go to the lowest. */
  method FindLast(ts: seq<nat>, out: set<nat>, total: nat) returns (toEliminate: int)
    requires forall d :: Alive(d, out, |ts|) ==> ts[d] <= total
    ensures toEliminate == -1 <==> forall d :: !Alive(d, out, |ts|)
    ensures toEliminate != -1 ==> toEliminate >= 0 && Last(ts, out, toEliminate)
  {
    var min := total;
    toEliminate := -1;
    var i := |ts|;
    while i > 0
      invariant 0 <= i <= |ts|
      invariant toEliminate == -1 ==> min == total && forall d :: Alive(d, out, |ts|) ==> d < i
      invariant toEliminate != -1 ==> i <= toEliminate && Alive(toEliminate, out, |ts|) && min == ts[toEliminate]
      invariant forall d :: Alive(d, out, |ts|) && i <= d ==> toEliminate != -1 && min <= ts[d] && (d < toEliminate ==> min < ts[d])
    {
      i := i - 1;
      if i !in out && ts[i] <= min {
        min := ts[i];
        toEliminate := i;
      }
    }
  }

  lemma VotesAtMostTotal(rs: seq<Ballot>, out: set<nat>, n: nat)
    requires ValidBallots(rs, n)
    ensures forall d :: 0 <= d < n ==> Tallies(rs, out, n)[d] <= Sum(Tallies(rs, out, n))
  {
    forall d | 0 <= d < n ensures Tallies(rs, out, n)[d] <= Sum(Tallies(rs, out, n)) {
      TwoVotes(rs, out, n, d, d + 1);
    }
  }

  /** The eliminated choices are numbers below n. */
  predicate Within(out: set<nat>, n: nat) {
    forall c :: c in out ==> c < n
  }

  lemma AliveCount(out: set<nat>, n: nat)
    requires Within(out, n)
    ensures |out| <= n
    ensures |out| == n <==> forall d :: !Alive(d, out, n)
    ensures n - |out| == 1 <==> exists w :: OnlyOne(out, n, w)
  {
    var all: set<nat> := Range(n);
    SubsetSize(out, all);
    var alive := all - out;
    assert all == out + alive;
    assert forall d: nat :: d in alive <==> Alive(d, out, n);
    if |alive| == 0 {
      assert alive == {};
    }
    if |alive| == 1 {
      var w := Pick(alive);
      OneElement(alive, w);
      forall d | Alive(d, out, n) ensures d == w {
        assert d as nat in alive;
      }
      assert OnlyOne(out, n, w);
    }
    if w: nat :| OnlyOne(out, n, w) {
      assert alive == {w};
    }
  }

  // ----- the tally loop

  /** The choices eliminated in some rounds. */
  function EliminatedBy(rounds: seq<Round>): set<nat> {
    if rounds == [] then {} else
      EliminatedBy(rounds[..|rounds| - 1])
      + (match rounds[|rounds| - 1].eliminated case None => {} case Some(l) => {l})
  }

  lemma EliminatedAppend(rounds: seq<Round>, r: Round)
    ensures EliminatedBy(rounds + [r])
      == EliminatedBy(rounds) + (match r.eliminated case None => {} case Some(l) => {l})
  {
    assert (rounds + [r])[..|rounds|] == rounds;
  }

  /** The first exit of the loop is a majority. */
  lemma TopWins(ts: seq<nat>, out: set<nat>, max: nat, top: seq<nat>)
    requires forall d :: Alive(d, out, |ts|) ==> ts[d] <= max
    requires forall d :: d in top <==> Alive(d, out, |ts|) && ts[d] == max
    requires max > Sum(ts) / 2 && |top| == 1
    ensures Majority(ts, out, top[0])
  {
    var w := top[0];
    assert w in top;
    forall d | Alive(d, out, |ts|) && d != w ensures ts[d] < ts[w] {
      assert d !in top;
    }
  }

  /** And without that exit there is none. */
  lemma NoMajority(ts: seq<nat>, out: set<nat>, max: nat, top: seq<nat>)
    requires forall d :: Alive(d, out, |ts|) ==> ts[d] <= max
    requires max == 0 || exists d :: Alive(d, out, |ts|) && ts[d] == max
    requires forall d :: d in top <==> Alive(d, out, |ts|) && ts[d] == max
    requires forall i, j :: 0 <= i < j < |top| ==> top[i] < top[j]
    requires !(max > Sum(ts) / 2 && |top| == 1)
    ensures forall v :: !Majority(ts, out, v)
  {
    forall v: nat ensures !Majority(ts, out, v) {
      if v in top && |top| > 1 {
        var i := if top[0] == v then 1 else 0;
        assert top[i] in top && top[i] != v;
      }
    }
  }

  method FindOnly(out: set<nat>, n: nat) returns (winner: nat)
    requires exists w :: OnlyOne(out, n, w)
    ensures OnlyOne(out, n, winner)
  {
    ghost var w :| OnlyOne(out, n, w);
    winner := 0;
    while winner < n
      invariant winner <= w
      decreases n - winner
    {
      if winner !in out {
        assert Alive(winner, out, n);
        break;
      }
      winner := winner + 1;
    }
  }

  lemma RunExtends(rs: seq<Ballot>, n: nat, out: set<nat>, round: Round, rest: seq<Round>, w: nat)
    requires round.eliminated.Some? && round == Round(Tallies(rs, out, n), None, round.eliminated)
    requires (forall v :: !Majority(round.tallies, out, v)) && (forall v :: !OnlyOne(out, n, v))
    requires Last(round.tallies, out, round.eliminated.value)
    requires Run(rs, n, out + {round.eliminated.value}, rest, w)
    ensures Run(rs, n, out, [round] + rest, w)
  {
    assert ([round] + rest)[1..] == rest;
  }

  /** Rounds so far that lead from the start to the eliminated set out. */
  ghost predicate Leads(rs: seq<Ballot>, n: nat, rounds: seq<Round>, out: set<nat>) {
    forall rest, w :: Run(rs, n, out, rest, w) ==> Run(rs, n, {}, rounds + rest, w)
  }

  lemma LeadsFurther(rs: seq<Ballot>, n: nat, rounds: seq<Round>, out: set<nat>, round: Round)
    requires Leads(rs, n, rounds, out)
    requires round.eliminated.Some? && round == Round(Tallies(rs, out, n), None, round.eliminated)
    requires (forall v :: !Majority(round.tallies, out, v)) && (forall v :: !OnlyOne(out, n, v))
    requires Last(round.tallies, out, round.eliminated.value)
    ensures Leads(rs, n, rounds + [round], out + {round.eliminated.value})
  {
    hide Run, Majority, OnlyOne, Last;
    forall rest, w | Run(rs, n, out + {round.eliminated.value}, rest, w)
      ensures Run(rs, n, {}, rounds + [round] + rest, w)
    {
      RunExtends(rs, n, out, round, rest, w);
      assert rounds + ([round] + rest) == rounds + [round] + rest;
    }
  }

  /** What a round leads to: a winner, an elimination, or, without survivors, neither. */
  datatype Decision = Win(winner: nat) | Eliminate(choice: nat) | Stuck

  ghost predicate Decides(ts: seq<nat>, out: set<nat>, n: nat, d: Decision) {
    match d
    case Win(w) => Majority(ts, out, w) || (OnlyOne(out, n, w) && forall v :: !Majority(ts, out, v))
    case Eliminate(l) => (forall v :: !Majority(ts, out, v)) && (forall v :: !OnlyOne(out, n, v)) && Last(ts, out, l)
    case Stuck => forall c :: !Alive(c, out, n)
  }

  method Decide(rs: seq<Ballot>, out: set<nat>, n: nat) returns (tallies: seq<nat>, d: Decision)
    requires ValidBallots(rs, n) && Within(out, n)
    ensures tallies == Tallies(rs, out, n) && Decides(tallies, out, n, d)
  {
    hide Majority, Last, OnlyOne, Tallies;
    AliveCount(out, n);
    tallies := CountFirstChoices(rs, out, n);
    var total := Total(tallies);
    VotesAtMostTotal(rs, out, n);
    var max := MaxVotes(tallies, out);
    var top := TopCandidates(tallies, out, max);
    if max > total / 2 && |top| == 1 {
      TopWins(tallies, out, max, top);
      return tallies, Win(top[0]);
    }
    NoMajority(tallies, out, max, top);
    if n - |out| == 1 {
      var winner := FindOnly(out, n);
      return tallies, Win(winner);
    }
    var toEliminate := FindLast(tallies, out, total);
    if toEliminate == -1 {
      return tallies, Stuck;
    }
    return tallies, Eliminate(toEliminate);
  }

  method TallyRankedChoice(rs: seq<Ballot>, n: nat) returns (res: Results)
    requires ValidBallots(rs, n)
    ensures n == 0 ==> res == Results(0, {}, [Round([], None, None)], [])
    ensures n > 0 ==> Run(rs, n, {}, res.rounds, res.winner)
    ensures n > 0 ==> Alive(res.winner, res.eliminated, n) && res.tallies == Tallies(rs, res.eliminated, n)
    ensures n > 0 ==> res.eliminated == EliminatedBy(res.rounds) && |res.rounds| == |res.eliminated| + 1 <= n
  {
    hide Run, Majority, Last, OnlyOne, Leads, Tallies, EliminatedBy;
    var rounds: seq<Round> := [];
    var eliminated: set<nat> := {};
    NothingYet(rs, n);
    while true
      invariant Within(eliminated, n) && |eliminated| == |rounds| <= n
      invariant n > 0 ==> exists d :: Alive(d, eliminated, n)
      invariant eliminated == EliminatedBy(rounds) && Leads(rs, n, rounds, eliminated)
      decreases n - |eliminated|
    {
      AliveCount(eliminated, n);
      var tallies, decision := Decide(rs, eliminated, n);
      match decision {
        case Win(winner) =>
          var last := Round(tallies, Some(winner), None);
          LastRound(rs, n, rounds, eliminated, winner);
          EliminatedAppend(rounds, last);
          return Results(winner, eliminated, rounds + [last], tallies);
        case Stuck =>
          return Results(0, eliminated, rounds + [Round(tallies, None, None)], tallies);
        case Eliminate(toEliminate) =>
          var round := Round(tallies, None, Some(toEliminate));
          LastAlive(tallies, eliminated, toEliminate);
          LeadsFurther(rs, n, rounds, eliminated, round);
          EliminatedAppend(rounds, round);
          StillAlive(eliminated, n, toEliminate);
          rounds, eliminated := rounds + [round], eliminated + {toEliminate};
      }
    }
  }

  lemma StillAlive(out: set<nat>, n: nat, l: nat)
    requires Within(out, n) && Alive(l, out, n) && forall v :: !OnlyOne(out, n, v)
    ensures |out| + 1 < n && exists d :: Alive(d, out + {l}, n)
  {
    AliveCount(out, n);
    AliveCount(out + {l}, n);
  }

  lemma NothingYet(rs: seq<Ballot>, n: nat)
    ensures Leads(rs, n, [], {}) && EliminatedBy([]) == {}
    ensures n > 0 ==> exists d :: Alive(d, {}, n)
  {
    hide Run;
    forall rest, w | Run(rs, n, {}, rest, w) ensures Run(rs, n, {}, [] + rest, w) {
      assert [] + rest == rest;
    }
    if n > 0 {
      assert Alive(0, {}, n);
    }
  }

  lemma LastRound(rs: seq<Ballot>, n: nat, rounds: seq<Round>, out: set<nat>, w: nat)
    requires Leads(rs, n, rounds, out)
    requires var ts := Tallies(rs, out, n);
      Majority(ts, out, w) || (OnlyOne(out, n, w) && forall v :: !Majority(ts, out, v))
    ensures Run(rs, n, {}, rounds + [Round(Tallies(rs, out, n), Some(w), None)], w) && Alive(w, out, n)
  {
    assert Run(rs, n, out, [Round(Tallies(rs, out, n), Some(w), None)], w);
  }

  lemma LastAlive(ts: seq<nat>, out: set<nat>, l: nat)
    requires Last(ts, out, l)
    ensures Alive(l, out, |ts|)
  {}

  // ----- what every run guarantees

  lemma RunUnfold(rs: seq<Ballot>, n: nat, out: set<nat>, rounds: seq<Round>, w: nat)
    requires Run(rs, n, out, rounds, w)
    ensures rounds != [] && rounds[0].tallies == Tallies(rs, out, n)
    ensures var ts := Tallies(rs, out, n);
      if |rounds| == 1 then Majority(ts, out, w) || OnlyOne(out, n, w)
      else
        && rounds[0].eliminated.Some?
        && var l := rounds[0].eliminated.value;
        && (forall v :: !Majority(ts, out, v)) && (forall v :: !OnlyOne(out, n, v)) && Last(ts, out, l)
        && Run(rs, n, out + {l}, rounds[1..], w)
  {}

  /** The winner is never an eliminated choice. */
  lemma {:induction false} WinnerSurvives(rs: seq<Ballot>, n: nat, out: set<nat>, rounds: seq<Round>, w: nat)
    requires Run(rs, n, out, rounds, w)
    ensures Alive(w, out, n)
    ensures forall i :: 0 <= i < |rounds| && rounds[i].eliminated.Some? ==> rounds[i].eliminated.value != w
    decreases |rounds|
  {
    hide Majority, Last, Tallies;
    if |rounds| > 1 {
      WinnerSurvives(rs, n, out + {rounds[0].eliminated.value}, rounds[1..], w);
      forall i | 0 <= i < |rounds| && rounds[i].eliminated.Some? ensures rounds[i].eliminated.value != w {
        if i > 0 {
          assert rounds[i] == rounds[1..][i - 1];
        }
      }
    } else {
      MajorityAlive(rs, n, out, w);
    }
  }

  lemma MajorityAlive(rs: seq<Ballot>, n: nat, out: set<nat>, w: nat)
    ensures Majority(Tallies(rs, out, n), out, w) ==> Alive(w, out, n)
  {}

  lemma MakesMajority(rs: seq<Ballot>, n: nat, out: set<nat>, w: nat)
    requires ValidBallots(rs, n) && Alive(w, out, n) && 2 * Votes(rs, out, w) > Sum(Tallies(rs, out, n))
    ensures Majority(Tallies(rs, out, n), out, w)
  {
    hide Votes, Tallies;
    var ts := Tallies(rs, out, n);
    forall d | Alive(d, out, |ts|) && d != w ensures ts[d] < ts[w] {
      TwoVotes(rs, out, n, d, w);
    }
  }

  // later no harm

  /** Below the winner, the ballots can be changed, cut or continued at will: the run stays the same. */
  lemma {:induction false} LaterNoHarm(
    rs: seq<Ballot>, qs: seq<Ballot>, n: nat, out: set<nat>, rounds: seq<Round>, w: nat)
    requires |rs| == |qs| && forall k :: 0 <= k < |rs| ==> SameDownTo(rs[k], qs[k], w)
    requires Run(rs, n, out, rounds, w)
    ensures Run(qs, n, out, rounds, w)
    decreases |rounds|
  {
    hide Majority, Last, OnlyOne, SameDownTo, First;
    WinnerSurvives(rs, n, out, rounds, w);
    forall c | 0 <= c < n ensures Votes(rs, out, c) == Votes(qs, out, c) {
      forall k | 0 <= k < |rs| ensures First(rs[k], out) == First(qs[k], out) {
        FirstDownTo(rs[k], qs[k], w, out);
      }
      CountAlike(rs, qs, r => First(r, out) == Some(c));
    }
    assert Tallies(rs, out, n) == Tallies(qs, out, n);
    if |rounds| > 1 {
      LaterNoHarm(rs, qs, n, out + {rounds[0].eliminated.value}, rounds[1..], w);
    }
  }

  // mutual majority

  ghost function Supporters(rs: seq<Ballot>, s: set<nat>): nat {
    Count(rs, r => Supports(r, s))
  }

  /** While a member of s survives, supporters vote inside s: nothing of them goes to an outsider w. */
  lemma OutsiderVotes(rs: seq<Ballot>, n: nat, out: set<nat>, s: set<nat>, a: nat, w: nat)
    requires ValidBallots(rs, n) && a in s && a !in out && w !in s
    ensures Votes(rs, out, w) + Supporters(rs, s) <= Sum(Tallies(rs, out, n)) <= |rs|
  {
    VotesConserved(rs, out, n);
    forall k | 0 <= k < |rs| && Supports(rs[k], s) ensures First(rs[k], out).Some? && First(rs[k], out) != Some(w) {
      SupportersStay(rs[k], s, out, a, w);
    }
    CountExclusive(rs, r => First(r, out) == Some(w), r => Supports(r, s), r => First(r, out).Some?);
  }

  /** The last member of s has all supporters. */
  lemma LastMember(rs: seq<Ballot>, n: nat, out: set<nat>, s: set<nat>, a: nat)
    requires ValidBallots(rs, n) && a in s && a !in out && Within(s, n) && s - out == {a}
    ensures Supporters(rs, s) <= Votes(rs, out, a)
  {
    forall k | 0 <= k < |rs| && Supports(rs[k], s) ensures First(rs[k], out) == Some(a) {
      SupportersStay(rs[k], s, out, a, n);
      var c := First(rs[k], out).value;
      assert c in s - out;
    }
    CountMono(rs, r => Supports(r, s), r => First(r, out) == Some(a));
  }

  /** More than half of all ballots rank s ahead of everyone else: the winner is in s. */
  lemma {:induction false} MutualMajority(rs: seq<Ballot>, n: nat, out: set<nat>, rounds: seq<Round>, w: nat, s: set<nat>)
    requires ValidBallots(rs, n) && Run(rs, n, out, rounds, w)
    requires Within(s, n) && s - out != {} && 2 * Supporters(rs, s) > |rs|
    ensures w in s
    decreases |rounds|
  {
    hide Run, Majority, OnlyOne, Last, Tallies, Votes, Supporters, Sum;
    RunUnfold(rs, n, out, rounds, w);
    var a := Pick(s - out);
    if |rounds| == 1 {
      if w !in s {
        OutsiderVotes(rs, n, out, s, a, w);
        NoLosingMajority(rs, n, out, w);
        OnlyOneIs(out, n, w, a);
      }
    } else {
      var l := rounds[0].eliminated.value;
      if s - (out + {l}) == {} {
        assert a == l;
        assert s - out == {l};
        LastMember(rs, n, out, s, l);
        TwoVotes(rs, out, n, l, l + 1);
        MakesMajority(rs, n, out, l);
      } else {
        MutualMajority(rs, n, out + {l}, rounds[1..], w, s);
      }
    }
  }

  lemma NoLosingMajority(rs: seq<Ballot>, n: nat, out: set<nat>, w: nat)
    ensures Majority(Tallies(rs, out, n), out, w) ==> 2 * Votes(rs, out, w) > Sum(Tallies(rs, out, n))
  {}

  lemma OnlyOneIs(out: set<nat>, n: nat, w: nat, a: nat)
    ensures OnlyOne(out, n, w) && Alive(a, out, n) ==> a == w
  {}

  // Condorcet losers

  function Preferring(rs: seq<Ballot>, a: nat, b: nat): nat {
    Count(rs, r => Prefers(r, a, b))
  }

  /** c loses strictly head to head against every other choice. */
  predicate CondorcetLoser(rs: seq<Ballot>, n: nat, c: nat) {
    c < n && forall d :: 0 <= d < n && d != c ==> Preferring(rs, d, c) > Preferring(rs, c, d)
  }

  /** Votes for c come from ballots preferring c to d; ballots preferring d to c count for others. */
  lemma HeadToHead(rs: seq<Ballot>, n: nat, out: set<nat>, c: nat, d: nat)
    requires ValidBallots(rs, n) && c != d && Alive(d, out, n)
    ensures Votes(rs, out, c) <= Preferring(rs, c, d)
    ensures Votes(rs, out, c) + Preferring(rs, d, c) <= Sum(Tallies(rs, out, n))
  {
    VotesConserved(rs, out, n);
    forall k | 0 <= k < |rs| && First(rs[k], out) == Some(c) ensures Prefers(rs[k], c, d) && !Prefers(rs[k], d, c) {
      FirstPreferred(rs[k], out, c, d);
    }
    forall k | 0 <= k < |rs| && Prefers(rs[k], d, c) ensures First(rs[k], out).Some? {
      PreferredCounts(rs[k], out, d, c);
    }
    CountMono(rs, r => First(r, out) == Some(c), r => Prefers(r, c, d));
    CountExclusive(rs, r => First(r, out) == Some(c), r => Prefers(r, d, c), r => First(r, out).Some?);
  }

  /** With two survivors, a vote is a preference. */
  lemma TwoLeft(rs: seq<Ballot>, n: nat, out: set<nat>, c: nat, l: nat)
    requires ValidBallots(rs, n) && c != l && Alive(l, out, n)
    requires forall d :: Alive(d, out, n) ==> d == c || d == l
    ensures Preferring(rs, l, c) <= Votes(rs, out, l)
  {
    forall k | 0 <= k < |rs| && Prefers(rs[k], l, c) ensures First(rs[k], out) == Some(l) {
      PreferredCounts(rs[k], out, l, c);
      var f := First(rs[k], out).value;
      assert ValidBallot(rs[k], n) && f in rs[k];
      assert Alive(f, out, n);
    }
    CountMono(rs, r => Prefers(r, l, c), r => First(r, out) == Some(l));
  }

  /** A Condorcet loser does not win, whether by majority or as the one remaining. */
  lemma {:induction false} CondorcetLoserLoses(rs: seq<Ballot>, n: nat, out: set<nat>, rounds: seq<Round>, w: nat, c: nat)
    requires ValidBallots(rs, n) && Run(rs, n, out, rounds, w) && CondorcetLoser(rs, n, c)
    requires c in out || exists d :: Alive(d, out, n) && d != c
    ensures w != c
    decreases |rounds|
  {
    hide Run, Majority, OnlyOne, Last, Tallies, Votes, Preferring, Sum;
    RunUnfold(rs, n, out, rounds, w);
    if c in out {
      WinnerSurvives(rs, n, out, rounds, w);
    } else {
      var d: nat :| Alive(d, out, n) && d != c;
      if |rounds| == 1 {
        HeadToHead(rs, n, out, c, d);
        NoLosingMajority(rs, n, out, c);
        OnlyOneIs(out, n, c, d);
      } else {
        var l := rounds[0].eliminated.value;
        LastAlive(Tallies(rs, out, n), out, l);
        if l != c && !(exists e :: Alive(e, out + {l}, n) && e != c) {
          forall e | Alive(e, out, n) ensures e == c || e == l {
            assert Alive(e, out + {l}, n) || e == l;
          }
          TwoLeft(rs, n, out, c, l);
          HeadToHead(rs, n, out, c, l);
          LastFewest(rs, n, out, l, c);
        }
        CondorcetLoserLoses(rs, n, out + {l}, rounds[1..], w, c);
      }
    }
  }

  lemma LastFewest(rs: seq<Ballot>, n: nat, out: set<nat>, l: nat, c: nat)
    requires Last(Tallies(rs, out, n), out, l) && Alive(c, out, n)
    ensures Votes(rs, out, l) <= Votes(rs, out, c)
  {}

  // rounds

  /** The choices out when round k begins. */
  function OutAt(out: set<nat>, rounds: seq<Round>, k: nat): set<nat>
    requires k <= |rounds|
  {
    out + EliminatedBy(rounds[..k])
  }

  lemma {:induction false} RoundTallies(rs: seq<Ballot>, n: nat, out: set<nat>, rounds: seq<Round>, w: nat, k: nat)
    requires Run(rs, n, out, rounds, w) && k < |rounds|
    ensures rounds[k].tallies == Tallies(rs, OutAt(out, rounds, k), n)
    decreases |rounds|
  {
    hide Run, Majority, OnlyOne, Last, Tallies, EliminatedBy;
    RunUnfold(rs, n, out, rounds, w);
    if k == 0 {
      EliminatedNone(out, rounds);
    } else {
      var l := rounds[0].eliminated.value;
      RoundTallies(rs, n, out + {l}, rounds[1..], w, k - 1);
      OutLater(out, rounds, k);
    }
  }

  lemma EliminatedNone(out: set<nat>, rounds: seq<Round>)
    ensures OutAt(out, rounds, 0) == out
  {}

  lemma OutLater(out: set<nat>, rounds: seq<Round>, k: nat)
    requires 0 < k <= |rounds| && rounds[0].eliminated.Some?
    ensures OutAt(out, rounds, k) == OutAt(out + {rounds[0].eliminated.value}, rounds[1..], k - 1)
  {
    hide EliminatedBy;
    EliminatedFirst(rounds[..k]);
    assert rounds[..k][1..] == rounds[1..][..k - 1];
  }

  lemma {:induction false} EliminatedFirst(rounds: seq<Round>)
    requires rounds != [] && rounds[0].eliminated.Some?
    ensures EliminatedBy(rounds) == {rounds[0].eliminated.value} + EliminatedBy(rounds[1..])
  {
    if |rounds| == 1 {
      assert rounds[..0] == [] && rounds[1..] == [];
    } else {
      var front := rounds[..|rounds| - 1];
      EliminatedFirst(front);
      assert rounds[1..][..|rounds| - 2] == front[1..];
    }
  }

  /** From one round to the next, votes are conserved and no survivor falls. */
  lemma RoundsConserve(rs: seq<Ballot>, n: nat, rounds: seq<Round>, w: nat, k: nat, c: nat)
    requires ValidBallots(rs, n) && Run(rs, n, {}, rounds, w) && k < |rounds|
    ensures |rounds[k].tallies| == n
    ensures Sum(rounds[k].tallies) == Live(rs, OutAt({}, rounds, k))
    ensures k + 1 < |rounds| && c < n && c !in OutAt({}, rounds, k + 1) ==>
      |rounds[k + 1].tallies| == n && rounds[k].tallies[c] <= rounds[k + 1].tallies[c]
  {
    hide Run, Tallies, Votes, Live, Sum;
    RoundTallies(rs, n, {}, rounds, w, k);
    VotesConserved(rs, OutAt({}, rounds, k), n);
    if k + 1 < |rounds| && c < n && c !in OutAt({}, rounds, k + 1) {
      RoundTallies(rs, n, {}, rounds, w, k + 1);
      assert rounds[..k + 1][..k] == rounds[..k];
      VotesGrow(rs, OutAt({}, rounds, k), OutAt({}, rounds, k + 1), c);
    }
  }

  /** The ballots determine the run. */
  lemma {:induction false} RunUnique(rs: seq<Ballot>, n: nat, out: set<nat>, r1: seq<Round>, w1: nat, r2: seq<Round>, w2: nat)
    requires Run(rs, n, out, r1, w1) && Run(rs, n, out, r2, w2)
    ensures r1 == r2 && w1 == w2
    decreases |r1|
  {
    hide Tallies, Sum;
    var ts := Tallies(rs, out, n);
    if |r1| > 1 && |r2| > 1 {
      var l1, l2 := r1[0].eliminated.value, r2[0].eliminated.value;
      assert Alive(l1, out, n) && Alive(l2, out, n);
      assert l1 == l2;
      RunUnique(rs, n, out + {l1}, r1[1..], w1, r2[1..], w2);
      assert r1 == [r1[0]] + r1[1..] && r2 == [r2[0]] + r2[1..];
    } else if |r1| == 1 && |r2| == 1 {
      assert Alive(w1, out, n) && Alive(w2, out, n);
      assert w1 == w2;
      assert r1 == [r1[0]] && r2 == [r2[0]];
    }
  }
}
