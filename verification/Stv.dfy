/**
 The single transferable vote tally: candidates meeting the quota are elected, all of them at once, and
 otherwise one with the fewest votes is dropped. Which of several is dropped depends on an unstable sort,
 so every choice is covered.
 */
module Stv {
  import opened Ballots
  import opened InstantRunoff
  import opened SetFacts
  import opened Wrappers

  datatype Step = Elect(tallies: seq<nat>, elected: seq<nat>) | Drop(tallies: seq<nat>, choice: nat)

  /** Three, or as many as there are choices. */
  function Seats(n: nat): (seats: nat)
    ensures seats <= n && seats <= 3 && (seats == n || seats == 3)
  {
    if n < 3 then n else 3
  }

  /** The Droop quota. */
  function Quota(voters: nat, seats: nat): nat {
    voters / (seats + 1) + 1
  }

  predicate Ascending(cs: seq<nat>) {
    forall i, j :: 0 <= i < j < |cs| ==> cs[i] < cs[j]
  }

  /** cs lists the survivors with at least quota votes. */
  ghost predicate Meeting(ts: seq<nat>, out: set<nat>, quota: nat, cs: seq<nat>) {
    && Ascending(cs)
    && forall c :: c in cs <==> Alive(c, out, |ts|) && ts[c] >= quota
  }

  ghost predicate Fewest(ts: seq<nat>, out: set<nat>, l: nat) {
    Alive(l, out, |ts|) && forall d :: Alive(d, out, |ts|) ==> ts[l] <= ts[d]
  }

  /** One turn of the loop, by what it does to the eliminated set. */
  ghost predicate Turn(rs: seq<Ballot>, n: nat, quota: nat, out: set<nat>, step: Step) {
    && step.tallies == Tallies(rs, out, n)
    && match step
       case Elect(ts, elected) => elected != [] && Meeting(ts, out, quota, elected)
       case Drop(ts, l) => Fewest(ts, out, l) && forall c :: Alive(c, out, n) ==> ts[c] < quota
  }

  function OutAfter(out: set<nat>, step: Step): set<nat> {
    match step case Elect(_, elected) => out + Elems(elected) case Drop(_, l) => out + {l}
  }

  function WinnersAfter(winners: seq<nat>, step: Step): seq<nat> {
    match step case Elect(_, elected) => winners + elected case Drop(_, _) => winners
  }

  /** The loop from the state (out, winners) to its end. */
  ghost predicate Loop(rs: seq<Ballot>, n: nat, quota: nat, out: set<nat>, winners: seq<nat>,
                       steps: seq<Step>, last: set<nat>, elected: seq<nat>)
    decreases |steps|
  {
    if |winners| < Seats(n) && |out| < n then
      && steps != []
      && Turn(rs, n, quota, out, steps[0])
      && Loop(rs, n, quota, OutAfter(out, steps[0]), WinnersAfter(winners, steps[0]), steps[1..], last, elected)
    else
      steps == [] && last == out && elected == winners
  }

  // ----- the quota

  /** Votes of some choices, listed in ascending order, are part of the total. */
  lemma {:induction false} SumOfSome(ts: seq<nat>, cs: seq<nat>, quota: nat)
    requires Ascending(cs) && forall i :: 0 <= i < |cs| ==> cs[i] < |ts| && ts[cs[i]] >= quota
    ensures |cs| * quota <= Sum(ts)
    decreases |ts|
  {
    if cs == [] {
    } else {
      var c := cs[|cs| - 1];
      assert c < |ts|;
      var front := ts[..|ts| - 1];
      if c == |ts| - 1 {
        SumOfSome(front, cs[..|cs| - 1], quota);
        assert |cs| * quota == (|cs| - 1) * quota + quota;
      } else {
        forall i | 0 <= i < |cs| ensures cs[i] < |front| && front[cs[i]] >= quota {
          assert cs[i] <= c;
        }
        SumOfSome(front, cs, quota);
      }
    }
  }

  lemma QuotaExceeds(voters: nat, seats: nat, k: nat)
    requires k > seats
    ensures k * Quota(voters, seats) > voters
  {
    var s := seats + 1;
    var q := voters / s;
    assert voters == q * s + voters % s;
    assert s * (q + 1) == q * s + s;
    assert k * (q + 1) == s * (q + 1) + (k - s) * (q + 1);
    Nonnegative(k - s, q + 1);
  }

  /** It is the least number of votes that more choices than there are seats cannot all have. */
  lemma QuotaLeast(voters: nat, seats: nat)
    ensures (seats + 1) * (Quota(voters, seats) - 1) <= voters < (seats + 1) * Quota(voters, seats)
  {
    var s := seats + 1;
    assert voters == voters / s * s + voters % s;
    assert s * (voters / s + 1) == voters / s * s + s;
  }

  /** So reaching it is having more than one part in seats + 1 of the ballots. */
  lemma ReachesQuota(voters: nat, seats: nat, votes: nat)
    ensures votes >= Quota(voters, seats) <==> (seats + 1) * votes > voters
  {
    var q := Quota(voters, seats);
    QuotaLeast(voters, seats);
    if votes >= q {
      ScaleMono(seats + 1, q, votes);
    } else {
      ScaleMono(seats + 1, votes, q - 1);
    }
  }

  lemma ScaleMono(k: nat, a: nat, b: nat)
    requires a <= b
    ensures k * a <= k * b
  {}

  /** What a turn does, by votes alone. */
  lemma TurnMeans(rs: seq<Ballot>, n: nat, out: set<nat>, step: Step)
    requires Turn(rs, n, Quota(|rs|, Seats(n)), out, step)
    ensures var seats := if n < 3 then n else 3;
      match step
      case Elect(_, elected) =>
        && elected != [] && Ascending(elected)
        && forall c: nat :: c in elected <==> c < n && c !in out && (seats + 1) * Votes(rs, out, c) > |rs|
      case Drop(_, l) =>
        && l < n && l !in out
        && forall c: nat :: c < n && c !in out ==>
          Votes(rs, out, l) <= Votes(rs, out, c) && (seats + 1) * Votes(rs, out, c) <= |rs|
    ensures |step.tallies| == n && forall c: nat :: c < n ==> step.tallies[c] == Votes(rs, out, c)
  {
    hide Votes, Quota, Tallies;
    var ts := Tallies(rs, out, n);
    forall c: nat | c < n
      ensures ts[c] >= Quota(|rs|, Seats(n)) <==> (Seats(n) + 1) * Votes(rs, out, c) > |rs|
      ensures Alive(c, out, n) <==> c !in out
    {
      ReachesQuota(|rs|, Seats(n), Votes(rs, out, c));
    }
  }

  lemma Nonnegative(a: nat, b: nat)
    ensures a * b >= 0
  {}

  /** No more choices than seats can meet the quota in one round. */
  lemma AtMostSeats(rs: seq<Ballot>, n: nat, out: set<nat>, seats: nat, cs: seq<nat>)
    requires ValidBallots(rs, n) && Meeting(Tallies(rs, out, n), out, Quota(|rs|, seats), cs)
    ensures |cs| <= seats
  {
    var ts := Tallies(rs, out, n);
    forall i | 0 <= i < |cs| ensures cs[i] < |ts| && ts[cs[i]] >= Quota(|rs|, seats) {
      assert cs[i] in cs;
    }
    SumOfSome(ts, cs, Quota(|rs|, seats));
    TwoVotes(rs, out, n, 0, 1);
    if |cs| > seats {
      QuotaExceeds(|rs|, seats, |cs|);
    }
  }

  // ----- what every run guarantees

  lemma TurnGrows(rs: seq<Ballot>, n: nat, quota: nat, out: set<nat>, step: Step)
    requires Turn(rs, n, quota, out, step) && Within(out, n)
    ensures Within(OutAfter(out, step), n) && |out| < |OutAfter(out, step)| <= n
  {
    var next := OutAfter(out, step);
    match step {
      case Elect(ts, elected) =>
        assert elected[0] in elected;
        SubsetSize(out + {elected[0]}, next);
        assert |out + {elected[0]}| == |out| + 1;
      case Drop(ts, l) =>
    }
    AliveCount(next, n);
  }

  lemma WinnersGrow(rs: seq<Ballot>, n: nat, out: set<nat>, winners: seq<nat>, step: Step)
    requires ValidBallots(rs, n) && Turn(rs, n, Quota(|rs|, Seats(n)), out, step)
    requires Distinct(winners) && Elems(winners) <= out
    ensures Distinct(WinnersAfter(winners, step)) && Elems(WinnersAfter(winners, step)) <= OutAfter(out, step)
    ensures |WinnersAfter(winners, step)| <= |winners| + Seats(n)
  {
    match step {
      case Elect(ts, elected) =>
        AtMostSeats(rs, n, out, Seats(n), elected);
        forall i | 0 <= i < |winners| ensures winners[i] !in elected {
          assert winners[i] in Elems(winners);
        }
      case Drop(ts, l) =>
    }
  }

  /** The winners are distinct, fewer than twice the seats, and found within n rounds. */
  lemma {:induction false} LoopBounds(rs: seq<Ballot>, n: nat, out: set<nat>, winners: seq<nat>,
                                      steps: seq<Step>, last: set<nat>, elected: seq<nat>)
    requires ValidBallots(rs, n) && Loop(rs, n, Quota(|rs|, Seats(n)), out, winners, steps, last, elected)
    requires Within(out, n) && Distinct(winners) && Elems(winners) <= out
    requires Seats(n) > 0 ==> |winners| <= 2 * Seats(n) - 1
    ensures Distinct(elected) && Elems(elected) <= last && Within(last, n)
    ensures Seats(n) > 0 ==> |elected| <= 2 * Seats(n) - 1
    ensures |elected| < Seats(n) ==> |last| == n
    ensures |steps| + |out| <= n
    decreases |steps|
  {
    hide Turn;
    AliveCount(out, n);
    if |winners| < Seats(n) && |out| < n {
      TurnGrows(rs, n, Quota(|rs|, Seats(n)), out, steps[0]);
      WinnersGrow(rs, n, out, winners, steps[0]);
      LoopBounds(rs, n, OutAfter(out, steps[0]), WinnersAfter(winners, steps[0]), steps[1..], last, elected);
    }
  }

  /** The bounds for a whole tally. */
  lemma TallyBounds(rs: seq<Ballot>, n: nat, steps: seq<Step>, last: set<nat>, elected: seq<nat>)
    requires ValidBallots(rs, n) && Loop(rs, n, Quota(|rs|, Seats(n)), {}, [], steps, last, elected)
    ensures Distinct(elected) && (Seats(n) > 0 ==> |elected| <= 2 * Seats(n) - 1) && |steps| <= n
  {
    LoopBounds(rs, n, {}, [], steps, last, elected);
  }

  // ----- more winners than seats

  function ElectedBy(step: Step): seq<nat> {
    match step case Elect(_, elected) => elected case Drop(_, _) => []
  }

  function ElectedIn(steps: seq<Step>): seq<nat> {
    if steps == [] then [] else ElectedBy(steps[0]) + ElectedIn(steps[1..])
  }

  lemma ElectedInFirst(winners: seq<nat>, steps: seq<Step>)
    requires steps != []
    ensures WinnersAfter(winners, steps[0]) + ElectedIn(steps[1..]) == winners + ElectedIn(steps)
  {
    hide ElectedIn, WinnersAfter;
    FirstElected(steps);
    WinnersBy(winners, steps[0]);
    Associative(winners, ElectedBy(steps[0]), ElectedIn(steps[1..]));
  }

  lemma FirstElected(steps: seq<Step>)
    requires steps != []
    ensures ElectedIn(steps) == ElectedBy(steps[0]) + ElectedIn(steps[1..])
  {
  }

  lemma WinnersBy(winners: seq<nat>, step: Step)
    ensures WinnersAfter(winners, step) == winners + ElectedBy(step)
  {
    assert winners + [] == winners;
  }

  lemma Associative(a: seq<nat>, b: seq<nat>, c: seq<nat>)
    ensures a + b + c == a + (b + c)
  {
  }

  /** The winners are those elected in the turns. */
  lemma {:induction false} WinnersAre(rs: seq<Ballot>, n: nat, out: set<nat>, winners: seq<nat>,
                                      steps: seq<Step>, last: set<nat>, elected: seq<nat>)
    requires Loop(rs, n, Quota(|rs|, Seats(n)), out, winners, steps, last, elected)
    ensures elected == winners + ElectedIn(steps)
    decreases |steps|
  {
    hide Turn, Quota, OutAfter, WinnersAfter;
    if steps != [] {
      WinnersAre(rs, n, OutAfter(out, steps[0]), WinnersAfter(winners, steps[0]), steps[1..], last, elected);
      ElectedInFirst(winners, steps);
    } else {
      assert winners + [] == winners;
    }
  }

  lemma {:induction false} ElectedInAppend(a: seq<Step>, b: seq<Step>)
    ensures ElectedIn(a + b) == ElectedIn(a) + ElectedIn(b)
    decreases |a|
  {
    if a == [] {
      assert a + b == b;
    } else {
      ElectedInAppend(a[1..], b);
      assert (a + b)[1..] == a[1..] + b;
    }
  }

  /** The choices that are out of the count after some turns. */
  function OutOf(steps: seq<Step>): set<nat> {
    if steps == [] then {} else OutAfter({}, steps[0]) + OutOf(steps[1..])
  }

  /** The survivors with at least quota votes. */
  function Reaching(ts: seq<nat>, out: set<nat>, quota: nat): set<nat> {
    set c: nat | c < |ts| && c !in out && ts[c] >= quota
  }

  /** The state before turn k: a seat is open, and the turn is one of the loop's. */
  lemma {:induction false} TurnAt(rs: seq<Ballot>, n: nat, quota: nat, out: set<nat>, winners: seq<nat>,
                                  steps: seq<Step>, last: set<nat>, elected: seq<nat>, k: nat)
    requires Loop(rs, n, quota, out, winners, steps, last, elected) && k < |steps|
    ensures |winners| + |ElectedIn(steps[..k])| < Seats(n)
    ensures Turn(rs, n, quota, out + OutOf(steps[..k]), steps[k])
    decreases k
  {
    hide Turn;
    if k == 0 {
      assert steps[..0] == [] && out + {} == out;
    } else {
      var next, front := OutAfter(out, steps[0]), steps[..k];
      TurnAt(rs, n, quota, next, WinnersAfter(winners, steps[0]), steps[1..], last, elected, k - 1);
      assert steps[1..][..k - 1] == front[1..] && front[0] == steps[0];
      ElectedInFirst(winners, front);
      assert next + OutOf(front[1..]) == out + OutOf(front);
      assert |WinnersAfter(winners, steps[0]) + ElectedIn(front[1..])| == |winners + ElectedIn(front)|;
    }
  }

  /** A turn elects exactly the survivors that reach the quota. */
  lemma ElectsReaching(rs: seq<Ballot>, n: nat, quota: nat, out: set<nat>, step: Step)
    requires Turn(rs, n, quota, out, step)
    ensures |ElectedIn([step])| == |Reaching(Tallies(rs, out, n), out, quota)|
  {
    hide Tallies;
    assert [step][1..] == [];
    var reaching := Reaching(Tallies(rs, out, n), out, quota);
    match step
    case Elect(ts, elected) =>
      assert Elems(elected) == reaching;
      DistinctElems(elected);
    case Drop(ts, l) =>
      assert forall c :: c in reaching ==> Alive(c, out, n);
      assert reaching == {};
  }

  /** The survivors with more than one part in seats + 1 of the ballots. */
  function Above(rs: seq<Ballot>, n: nat, out: set<nat>): set<nat> {
    var seats := if n < 3 then n else 3;
    set c: nat | c < n && c !in out && (seats + 1) * Votes(rs, out, c) > |rs|
  }

  lemma AboveReaches(rs: seq<Ballot>, n: nat, out: set<nat>)
    ensures Above(rs, n, out) == Reaching(Tallies(rs, out, n), out, Quota(|rs|, Seats(n)))
  {
    hide Votes, Quota;
    forall c: nat | c < n
      ensures c in Above(rs, n, out) <==> c in Reaching(Tallies(rs, out, n), out, Quota(|rs|, Seats(n)))
    {
      ReachesQuota(|rs|, Seats(n), Votes(rs, out, c));
    }
  }

  /** In some state of the run there are more of them than seats open. */
  ghost predicate Overflows(rs: seq<Ballot>, n: nat, steps: seq<Step>, k: nat)
    requires k < |steps|
  {
    var seats := if n < 3 then n else 3;
    |Above(rs, n, OutOf(steps[..k]))| > seats - |ElectedIn(steps[..k])|
  }

  /**
   More are elected than there are seats exactly when in some state of the run more survivors have over one part in
   seats + 1 of the ballots than seats are open; that takes an earlier turn that elected somebody.
   */
  lemma MoreThanSeats(rs: seq<Ballot>, n: nat, steps: seq<Step>, last: set<nat>, elected: seq<nat>)
    requires ValidBallots(rs, n) && Loop(rs, n, Quota(|rs|, Seats(n)), {}, [], steps, last, elected)
    ensures |elected| > (if n < 3 then n else 3) <==> exists k: nat :: k < |steps| && Overflows(rs, n, steps, k)
    ensures forall k: nat :: k < |steps| && Overflows(rs, n, steps, k) ==> k == |steps| - 1 && ElectedIn(steps[..k]) != []
  {
    hide Turn, Loop, Overflows, Quota, ElectedIn;
    WinnersAre(rs, n, {}, [], steps, last, elected);
    assert [] + ElectedIn(steps) == ElectedIn(steps) && steps[..|steps|] == steps;
    forall k: nat | k < |steps| && Overflows(rs, n, steps, k)
      ensures k == |steps| - 1 && ElectedIn(steps[..k]) != [] && |elected| > Seats(n)
    {
      TurnOverflows(rs, n, steps, last, elected, k);
    }
    if |elected| > Seats(n) {
      if steps == [] {
        SeatsOpen(rs, n, last, elected);
      } else {
        TurnOverflows(rs, n, steps, last, elected, |steps| - 1);
      }
    }
  }

  lemma SeatsOpen(rs: seq<Ballot>, n: nat, last: set<nat>, elected: seq<nat>)
    requires Loop(rs, n, Quota(|rs|, Seats(n)), {}, [], [], last, elected)
    ensures elected == []
  {
  }

  lemma TurnOverflows(rs: seq<Ballot>, n: nat, steps: seq<Step>, last: set<nat>, elected: seq<nat>, k: nat)
    requires ValidBallots(rs, n) && Loop(rs, n, Quota(|rs|, Seats(n)), {}, [], steps, last, elected) && k < |steps|
    ensures Overflows(rs, n, steps, k) <==> |ElectedIn(steps[..k + 1])| > Seats(n)
    ensures k + 1 < |steps| ==> |ElectedIn(steps[..k + 1])| < Seats(n)
    ensures ElectedIn(steps[..k]) == [] ==> !Overflows(rs, n, steps, k)
  {
    hide Turn, Loop, Reaching, Quota, Tallies, Above;
    var quota, out := Quota(|rs|, Seats(n)), OutOf(steps[..k]);
    TurnAt(rs, n, quota, {}, [], steps, last, elected, k);
    assert {} + out == out;
    ElectsReaching(rs, n, quota, out, steps[k]);
    AboveReaches(rs, n, out);
    assert steps[..k + 1] == steps[..k] + [steps[k]];
    ElectedInAppend(steps[..k], [steps[k]]);
    if k + 1 < |steps| {
      TurnAt(rs, n, quota, {}, [], steps, last, elected, k + 1);
    }
    OneTurnFits(rs, n, out, steps[k]);
  }

  lemma OneTurnFits(rs: seq<Ballot>, n: nat, out: set<nat>, step: Step)
    requires ValidBallots(rs, n) && Turn(rs, n, Quota(|rs|, Seats(n)), out, step)
    ensures |ElectedIn([step])| <= Seats(n)
  {
    assert [step][1..] == [];
    if step.Elect? {
      AtMostSeats(rs, n, out, Seats(n), step.elected);
    }
  }

  lemma FirstAre(a: nat, b: nat, out: set<nat>)
    ensures First([a, b], out) == if a !in out then Some(a) else if b !in out then Some(b) else None
  {
    assert [a, b][1..] == [b];
  }

  lemma ThreeVotes(p: Ballot, q: Ballot, r: Ballot, out: set<nat>, c: nat)
    ensures Votes([p, q, r], out, c) == (if First(p, out) == Some(c) then 1 else 0)
      + (if First(q, out) == Some(c) then 1 else 0) + (if First(r, out) == Some(c) then 1 else 0)
  {
    hide First, Votes;
    VotesStep([p, q, r], out, c);
    VotesStep([p, q], out, c);
    VotesStep([p], out, c);
    NoVotesAt(out, c);
    assert [p, q, r][..2] == [p, q] && [p, q][..1] == [p] && [p][..0] == [];
  }

  lemma NoVotesAt(out: set<nat>, c: nat)
    ensures Votes([], out, c) == 0
  {}

  lemma FiveTallies(out: set<nat>)
    requires out == {} || out == {0, 1}
    ensures Tallies([[0, 2], [0, 3], [1, 4]], out, 5) == if out == {} then [2, 1, 0, 0, 0] else [0, 0, 1, 1, 1]
  {
    hide First, Votes;
    FirstAre(0, 2, out);
    FirstAre(0, 3, out);
    FirstAre(1, 4, out);
    forall c: nat | c < 5 ensures Votes([[0, 2], [0, 3], [1, 4]], out, c) ==
      if out == {} then (if c == 0 then 2 else if c == 1 then 1 else 0) else if c >= 2 then 1 else 0
    {
      ThreeVotes([0, 2], [0, 3], [1, 4], out, c);
    }
  }

  /** The bound of twice the seats less one is reached: three ballots elect all five choices to three seats. */
  lemma FiveElected() returns (steps: seq<Step>, last: set<nat>)
    ensures var rs: seq<Ballot> := [[0, 2], [0, 3], [1, 4]];
      && ValidBallots(rs, 5) && Seats(5) == 3
      && Loop(rs, 5, Quota(|rs|, Seats(5)), {}, [], steps, last, [0, 1, 2, 3, 4])
  {
    hide Turn, Loop, Tallies, ValidBallots, Elems, OutAfter, WinnersAfter;
    var rs: seq<Ballot> := [[0, 2], [0, 3], [1, 4]];
    var out: set<nat> := {0, 1};
    FiveBallots();
    FiveTallies({});
    FiveTallies(out);
    var one, two := Elect(Tallies(rs, {}, 5), [0, 1]), Elect(Tallies(rs, out, 5), [2, 3, 4]);
    last := {0, 1, 2, 3, 4};
    steps := [one] + ([two] + []);
    FiveTurns(one, two);
    FiveAfter(rs, one, two, out, last);
    LoopStep(rs, 5, 1, out, [0, 1], two, [], last, [0, 1, 2, 3, 4]);
    LoopStep(rs, 5, 1, {}, [], one, [two] + [], last, [0, 1, 2, 3, 4]);
  }

  lemma FiveAfter(rs: seq<Ballot>, one: Step, two: Step, out: set<nat>, last: set<nat>)
    requires one.Elect? && one.elected == [0, 1] && two.Elect? && two.elected == [2, 3, 4]
    requires out == {0, 1} && last == {0, 1, 2, 3, 4}
    ensures OutAfter({}, one) == out && WinnersAfter([], one) == [0, 1]
    ensures OutAfter(out, two) == last && WinnersAfter([0, 1], two) == [0, 1, 2, 3, 4]
    ensures Loop(rs, 5, 1, last, [0, 1, 2, 3, 4], [], last, [0, 1, 2, 3, 4])
  {
    FiveBallots();
    hide Elems;
  }

  lemma FiveTurns(one: Step, two: Step)
    requires one == Elect([2, 1, 0, 0, 0], [0, 1]) && two == Elect([0, 0, 1, 1, 1], [2, 3, 4])
    ensures var rs: seq<Ballot> := [[0, 2], [0, 3], [1, 4]];
      Turn(rs, 5, 1, {}, one) && Turn(rs, 5, 1, {0, 1}, two)
  {
    hide Tallies, Meeting;
    FiveTallies({});
    FiveTallies({0, 1});
    FiveMeet(one.tallies, two.tallies);
  }

  lemma FiveMeet(a: seq<nat>, b: seq<nat>)
    requires a == [2, 1, 0, 0, 0] && b == [0, 0, 1, 1, 1]
    ensures Meeting(a, {}, 1, [0, 1]) && Meeting(b, {0, 1}, 1, [2, 3, 4])
  {
  }

  lemma LoopStep(rs: seq<Ballot>, n: nat, quota: nat, out: set<nat>, winners: seq<nat>, step: Step,
                 rest: seq<Step>, last: set<nat>, elected: seq<nat>)
    requires |winners| < Seats(n) && |out| < n && Turn(rs, n, quota, out, step)
    requires Loop(rs, n, quota, OutAfter(out, step), WinnersAfter(winners, step), rest, last, elected)
    ensures Loop(rs, n, quota, out, winners, [step] + rest, last, elected)
  {
    assert ([step] + rest)[1..] == rest;
  }

  lemma FiveBallots()
    ensures ValidBallots([[0, 2], [0, 3], [1, 4]], 5)
    ensures var a: seq<nat>, b: seq<nat> := [0, 1], [2, 3, 4]; Elems(a) == {0, 1} && Elems(b) == {2, 3, 4}
  {
  }

  /** From any state, a group with a quota of supporters that has, or can still have, a member elected ends with one. */
  lemma {:induction false} CoalitionElects(rs: seq<Ballot>, n: nat, out: set<nat>, winners: seq<nat>,
                                           steps: seq<Step>, last: set<nat>, elected: seq<nat>, s: set<nat>)
    requires ValidBallots(rs, n) && Loop(rs, n, Quota(|rs|, Seats(n)), out, winners, steps, last, elected)
    requires Within(out, n) && Within(s, n) && Supporters(rs, s) >= Quota(|rs|, Seats(n))
    requires Elems(winners) * s != {} || s - out != {}
    requires |elected| < Seats(n)
    ensures Elems(elected) * s != {}
    decreases |steps|
  {
    hide Supporters, Tallies;
    var quota := Quota(|rs|, Seats(n));
    AliveCount(out, n);
    if |winners| < Seats(n) && |out| < n {
      var next, more := OutAfter(out, steps[0]), WinnersAfter(winners, steps[0]);
      TurnGrows(rs, n, quota, out, steps[0]);
      CoalitionKept(rs, n, quota, out, winners, steps[0], s);
      CoalitionElects(rs, n, next, more, steps[1..], last, elected, s);
    } else {
      NoneLeft(out, n, s);
    }
  }

  /**
   Proportionality: if seats are left over, every group of choices that more than one part in seats + 1 of the ballots
   rank ahead of everyone else has a member elected.
   */
  lemma SolidCoalition(rs: seq<Ballot>, n: nat, steps: seq<Step>, last: set<nat>, elected: seq<nat>, s: set<nat>)
    requires ValidBallots(rs, n) && Loop(rs, n, Quota(|rs|, Seats(n)), {}, [], steps, last, elected)
    requires s != {} && Within(s, n)
    ensures var seats := if n < 3 then n else 3;
      |elected| < seats && (seats + 1) * Supporters(rs, s) > |rs| ==> exists w :: w in elected && w in s
  {
    hide Supporters, Loop;
    ReachesQuota(|rs|, Seats(n), Supporters(rs, s));
    if |elected| < Seats(n) && Supporters(rs, s) >= Quota(|rs|, Seats(n)) {
      var a := Pick(s);
      assert a in s - {};
      CoalitionElects(rs, n, {}, [], steps, last, elected, s);
      var w := Pick(Elems(elected) * s);
    }
  }

  lemma NoneLeft(out: set<nat>, n: nat, s: set<nat>)
    requires Within(out, n) && Within(s, n) && |out| >= n
    ensures s - out == {}
  {
    AliveCount(out, n);
    forall a | a in s ensures a in out {
      assert !Alive(a, out, n);
    }
  }

  lemma CoalitionKept(rs: seq<Ballot>, n: nat, quota: nat, out: set<nat>, winners: seq<nat>, step: Step, s: set<nat>)
    requires ValidBallots(rs, n) && Turn(rs, n, quota, out, step)
    requires Within(s, n) && Supporters(rs, s) >= quota
    requires Elems(winners) * s != {} || s - out != {}
    ensures Elems(WinnersAfter(winners, step)) * s != {} || s - OutAfter(out, step) != {}
  {
    hide Supporters, Tallies;
    var more := WinnersAfter(winners, step);
    if Elems(winners) * s != {} {
      var w := Pick(Elems(winners) * s);
      assert w in more;
      assert w in Elems(more) * s;
    } else {
      var a := Pick(s - out);
      match step {
        case Elect(ts, elected) =>
          if a in elected {
            assert a in Elems(more) * s;
          } else {
            assert a in s - OutAfter(out, step);
          }
        case Drop(ts, l) =>
          if s - out == {l} {
            assert Alive(l, out, n) && ts[l] < quota;
            LastMember(rs, n, out, s, l);
          } else {
            var b := Pick(s - out - {l});
            assert b in s - OutAfter(out, step);
          }
      }
    }
  }

  // ----- the tally

  datatype Outcome = Outcome(winners: seq<nat>, eliminated: set<nat>, steps: seq<Step>, tallies: seq<nat>)

  method MeetingQuota(tallies: seq<nat>, out: set<nat>, winners: seq<nat>, quota: nat) returns (cs: seq<nat>)
    requires Elems(winners) <= out
    ensures Meeting(tallies, out, quota, cs)
  {
    cs := [];
    for i := 0 to |tallies|
      invariant Ascending(cs) && forall c :: c in cs <==> Alive(c, out, i) && tallies[c] >= quota
      invariant forall k :: 0 <= k < |cs| ==> cs[k] < i
    {
      assert i in winners ==> i in Elems(winners);
      if i !in out && i !in winners && tallies[i] >= quota {
        cs := cs + [i];
      }
    }
  }

  method Remaining(tallies: seq<nat>, out: set<nat>, winners: seq<nat>) returns (cs: seq<nat>)
    requires Elems(winners) <= out
    ensures forall c :: c in cs <==> Alive(c, out, |tallies|)
  {
    cs := [];
    for i := 0 to |tallies|
      invariant forall c :: c in cs <==> Alive(c, out, i)
    {
      assert i in winners ==> i in Elems(winners);
      if i !in out && i !in winners {
        cs := cs + [i];
      }
    }
  }

  predicate Lowest(cs: seq<nat>, tallies: seq<nat>, c: nat) {
    c in cs && c < |tallies| && forall d :: d in cs ==> d < |tallies| && tallies[c] <= tallies[d]
  }

  /** The front of the list after sorting by votes: any one with the fewest. */
  method FrontAfterSort(cs: seq<nat>, tallies: seq<nat>) returns (c: nat)
    requires cs != [] && forall d :: d in cs ==> d < |tallies|
    ensures Lowest(cs, tallies, c)
  {
    ghost var low := SomeLowest(cs, tallies);
    c :| c in cs && Lowest(cs, tallies, c);
  }

  lemma {:induction false} SomeLowest(cs: seq<nat>, tallies: seq<nat>) returns (c: nat)
    requires cs != [] && forall d :: d in cs ==> d < |tallies|
    ensures Lowest(cs, tallies, c)
  {
    var last := cs[|cs| - 1];
    assert cs == cs[..|cs| - 1] + [last] && last in cs;
    c := last;
    if |cs| > 1 {
      var front := cs[..|cs| - 1];
      forall d | d in front ensures d < |tallies| {
        assert d in cs;
      }
      var d := SomeLowest(front, tallies);
      c := if tallies[d] < tallies[last] then d else last;
    }
  }

  /** Steps so far that lead from the start to a state. */
  ghost predicate Leads(rs: seq<Ballot>, n: nat, quota: nat, steps: seq<Step>, out: set<nat>, winners: seq<nat>) {
    forall rest, last, elected :: Loop(rs, n, quota, out, winners, rest, last, elected)
      ==> Loop(rs, n, quota, {}, [], steps + rest, last, elected)
  }

  lemma LeadsFurther(rs: seq<Ballot>, n: nat, quota: nat, steps: seq<Step>, out: set<nat>, winners: seq<nat>, step: Step)
    requires Leads(rs, n, quota, steps, out, winners) && Turn(rs, n, quota, out, step)
    requires |winners| < Seats(n) && |out| < n
    ensures Leads(rs, n, quota, steps + [step], OutAfter(out, step), WinnersAfter(winners, step))
  {
    hide Turn, Loop, OutAfter, WinnersAfter;
    forall rest, last, elected
      | Loop(rs, n, quota, OutAfter(out, step), WinnersAfter(winners, step), rest, last, elected)
      ensures Loop(rs, n, quota, {}, [], steps + [step] + rest, last, elected)
    {
      LoopStep(rs, n, quota, out, winners, step, rest, last, elected);
      assert steps + ([step] + rest) == steps + [step] + rest;
    }
  }

  method OneTurn(rs: seq<Ballot>, n: nat, quota: nat, out: set<nat>, winners: seq<nat>) returns (step: Step)
    requires ValidBallots(rs, n) && Within(out, n) && |out| < n && Elems(winners) <= out
    ensures Turn(rs, n, quota, out, step)
  {
    hide Tallies, Votes;
    var tallies := CountFirstChoices(rs, out, n);
    var meeting := MeetingQuota(tallies, out, winners, quota);
    if meeting != [] {
      return Elect(tallies, meeting);
    }
    var remaining := Remaining(tallies, out, winners);
    AliveCount(out, n);
    forall c: nat | Alive(c, out, n) ensures tallies[c] < quota && c in remaining {
      assert c !in meeting;
    }
    assert remaining != [];
    var toEliminate := FrontAfterSort(remaining, tallies);
    assert Fewest(tallies, out, toEliminate);
    return Drop(tallies, toEliminate);
  }

  method TallyStv(rs: seq<Ballot>, n: nat) returns (res: Outcome)
    requires ValidBallots(rs, n)
    ensures Loop(rs, n, Quota(|rs|, Seats(n)), {}, [], res.steps, res.eliminated, res.winners)
    ensures Distinct(res.winners) && |res.winners| <= 5 && |res.steps| <= n && |res.tallies| == n
    ensures |res.winners| >= (if n < 3 then n else 3) || |res.eliminated| == n
    ensures forall c :: 0 <= c < n ==> res.tallies[c] == if c in res.winners then 1 else 0
  {
    hide Loop, Leads, Turn;
    var seats := Seats(n);
    var quota := Quota(|rs|, seats);
    var steps: seq<Step> := [];
    var eliminated: set<nat> := {};
    var winners: seq<nat> := [];
    NothingYet(rs, n, quota);
    while |winners| < seats && |eliminated| < n
      invariant Within(eliminated, n) && Distinct(winners) && Elems(winners) <= eliminated
      invariant Leads(rs, n, quota, steps, eliminated, winners)
      decreases n - |eliminated|
    {
      var step := OneTurn(rs, n, quota, eliminated, winners);
      TurnGrows(rs, n, quota, eliminated, step);
      WinnersGrow(rs, n, eliminated, winners, step);
      LeadsFurther(rs, n, quota, steps, eliminated, winners, step);
      steps := steps + [step];
      eliminated, winners := OutAfter(eliminated, step), WinnersAfter(winners, step);
    }
    AtEnd(rs, n, quota, steps, eliminated, winners);
    LoopBounds(rs, n, {}, [], steps, eliminated, winners);
    var tallies: seq<nat> := seq(n, _ => 0);
    for k := 0 to |winners|
      invariant |tallies| == n
      invariant forall c :: 0 <= c < n ==> tallies[c] == if c in winners[..k] then 1 else 0
    {
      assert winners[k] in Elems(winners);
      assert winners[..k + 1] == winners[..k] + [winners[k]];
      tallies := tallies[winners[k] := 1];
    }
    assert winners[..|winners|] == winners;
    res := Outcome(winners, eliminated, steps, tallies);
  }

  lemma NothingYet(rs: seq<Ballot>, n: nat, quota: nat)
    ensures Leads(rs, n, quota, [], {}, [])
  {
    hide Loop;
    forall rest, last, elected | Loop(rs, n, quota, {}, [], rest, last, elected)
      ensures Loop(rs, n, quota, {}, [], [] + rest, last, elected)
    {
      assert [] + rest == rest;
    }
  }

  lemma AtEnd(rs: seq<Ballot>, n: nat, quota: nat, steps: seq<Step>, out: set<nat>, winners: seq<nat>)
    requires Leads(rs, n, quota, steps, out, winners) && !(|winners| < Seats(n) && |out| < n)
    ensures Loop(rs, n, quota, {}, [], steps, out, winners)
  {
    assert Loop(rs, n, quota, out, winners, [], out, winners);
    assert steps + [] == steps;
  }
}
