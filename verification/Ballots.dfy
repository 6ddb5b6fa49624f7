/** Ranked ballots and the counts that the multi-round tallies are made of. */
module Ballots {
  import opened SetFacts
  import opened Wrappers

  type Ballot = seq<nat>

  /** Rankings name each choice at most once. */
  predicate ValidBallot(r: Ballot, n: nat) {
    Distinct(r) && forall i :: 0 <= i < |r| ==> r[i] < n
  }

  predicate ValidBallots(rs: seq<Ballot>, n: nat) {
    forall k :: 0 <= k < |rs| ==> ValidBallot(rs[k], n)
  }

  /** The choice a ballot counts for: the first one not eliminated. */
  function First(r: Ballot, out: set<nat>): (c: Option<nat>)
    ensures c.Some? ==> c.value in r && c.value !in out
    ensures c.None? ==> forall x :: x in r ==> x in out
  {
    if r == [] then None
    else if r[0] !in out then Some(r[0])
    else First(r[1..], out)
  }

  function Count(rs: seq<Ballot>, p: Ballot -> bool): nat {
    if rs == [] then 0 else Count(rs[..|rs| - 1], p) + (if p(rs[|rs| - 1]) then 1 else 0)
  }

  function Votes(rs: seq<Ballot>, out: set<nat>, c: nat): nat {
    Count(rs, r => First(r, out) == Some(c))
  }

  /** The ballots that still name a choice. */
  function Live(rs: seq<Ballot>, out: set<nat>): nat {
    Count(rs, r => First(r, out).Some?)
  }

  function Tallies(rs: seq<Ballot>, out: set<nat>, n: nat): (ts: seq<nat>)
    ensures |ts| == n && forall c :: 0 <= c < n ==> ts[c] == Votes(rs, out, c)
  {
    seq(n, (c: nat) => Votes(rs, out, c))
  }

  // ----- counting

  lemma {:induction false} CountMono(rs: seq<Ballot>, p: Ballot -> bool, q: Ballot -> bool)
    requires forall k :: 0 <= k < |rs| && p(rs[k]) ==> q(rs[k])
    ensures Count(rs, p) <= Count(rs, q) <= |rs|
  {
    if rs != [] {
      CountMono(rs[..|rs| - 1], p, q);
    }
  }

  /** Ballots of two exclusive kinds. */
  lemma {:induction false} CountExclusive(rs: seq<Ballot>, p: Ballot -> bool, q: Ballot -> bool, s: Ballot -> bool)
    requires forall k :: 0 <= k < |rs| ==> !(p(rs[k]) && q(rs[k])) && (p(rs[k]) || q(rs[k]) ==> s(rs[k]))
    ensures Count(rs, p) + Count(rs, q) <= Count(rs, s) <= |rs|
  {
    if rs != [] {
      CountExclusive(rs[..|rs| - 1], p, q, s);
    }
  }

  /** Lists of ballots that agree in each place. */
  lemma {:induction false} CountAlike(rs: seq<Ballot>, qs: seq<Ballot>, p: Ballot -> bool)
    requires |rs| == |qs| && forall k :: 0 <= k < |rs| ==> p(rs[k]) == p(qs[k])
    ensures Count(rs, p) == Count(qs, p)
  {
    if rs != [] {
      CountAlike(rs[..|rs| - 1], qs[..|qs| - 1], p);
    }
  }

  lemma {:induction false} SumBump(ts: seq<nat>, c: nat)
    requires c < |ts|
    ensures Sum(ts[c := ts[c] + 1]) == Sum(ts) + 1
  {
    var us := ts[c := ts[c] + 1];
    if c == |ts| - 1 {
      assert us[..|ts| - 1] == ts[..|ts| - 1];
    } else {
      SumBump(ts[..|ts| - 1], c);
      assert us[..|ts| - 1] == ts[..|ts| - 1][c := ts[c] + 1];
    }
  }

  lemma {:induction false} SumZero(n: nat)
    ensures Sum(seq(n, _ => 0)) == 0
  {
    if n > 0 {
      SumZero(n - 1);
      assert seq(n, _ => 0)[..n - 1] == seq(n - 1, _ => 0);
    }
  }

  /** How one more ballot changes the tallies. */
  lemma TalliesStep(rs: seq<Ballot>, out: set<nat>, n: nat)
    requires rs != [] && ValidBallots(rs, n)
    ensures var front, c := rs[..|rs| - 1], First(rs[|rs| - 1], out);
      Tallies(rs, out, n) == match c case None => Tallies(front, out, n)
        case Some(x) => if x < n then Tallies(front, out, n)[x := Tallies(front, out, n)[x] + 1] else []
  {
    hide Votes, First, Count, Tallies;
    var front, r := rs[..|rs| - 1], rs[|rs| - 1];
    var c := First(r, out);
    forall x | 0 <= x < n ensures Votes(rs, out, x) == Votes(front, out, x) + (if c == Some(x) then 1 else 0) {
      VotesStep(rs, out, x);
    }
    if c.Some? {
      assert ValidBallot(r, n) && c.value in r;
      var ts := Tallies(front, out, n);
      assert Tallies(rs, out, n) == ts[c.value := ts[c.value] + 1];
    } else {
      assert Tallies(rs, out, n) == Tallies(front, out, n);
    }
  }

  lemma VotesStep(rs: seq<Ballot>, out: set<nat>, x: nat)
    requires rs != []
    ensures Votes(rs, out, x) == Votes(rs[..|rs| - 1], out, x) + (if First(rs[|rs| - 1], out) == Some(x) then 1 else 0)
  {}

  lemma NoBallots(out: set<nat>, n: nat)
    ensures Sum(Tallies([], out, n)) == 0 && Live([], out) == 0
  {
    assert Tallies([], out, n) == seq(n, _ => 0);
    SumZero(n);
  }

  lemma LiveStep(rs: seq<Ballot>, out: set<nat>)
    requires rs != []
    ensures Live(rs, out) == Live(rs[..|rs| - 1], out) + (if First(rs[|rs| - 1], out).Some? then 1 else 0)
  {}

  /** Conservation: the tallies of a round add up to the ballots that still name a choice. */
  lemma {:induction false} VotesConserved(rs: seq<Ballot>, out: set<nat>, n: nat)
    requires ValidBallots(rs, n)
    ensures Sum(Tallies(rs, out, n)) == Live(rs, out)
  {
    hide Votes, Tallies, Sum, First, Live, Count;
    if rs == [] {
      NoBallots(out, n);
    } else {
      var front := rs[..|rs| - 1];
      VotesConserved(front, out, n);
      TalliesStep(rs, out, n);
      LiveStep(rs, out);
      var c := First(rs[|rs| - 1], out);
      if c.Some? {
        SumBump(Tallies(front, out, n), c.value);
      }
    }
  }

  /** A surviving choice never loses votes when others are eliminated. */
  lemma VotesGrow(rs: seq<Ballot>, out: set<nat>, more: set<nat>, c: nat)
    requires out <= more && c !in more
    ensures Votes(rs, out, c) <= Votes(rs, more, c)
  {
    forall k | 0 <= k < |rs| && First(rs[k], out) == Some(c) ensures First(rs[k], more) == Some(c) {
      FirstStays(rs[k], out, more);
    }
    CountMono(rs, r => First(r, out) == Some(c), r => First(r, more) == Some(c));
  }

  lemma {:induction false} FirstStays(r: Ballot, out: set<nat>, more: set<nat>)
    requires out <= more && First(r, out).Some? && First(r, out).value !in more
    ensures First(r, more) == First(r, out)
  {
    if r[0] in out {
      FirstStays(r[1..], out, more);
    }
  }

  /** The ballots are the same, or at least as far as w. */
  predicate SameDownTo(r: Ballot, q: Ballot, w: nat) {
    r == q || exists i :: 0 <= i < |r| && i < |q| && r[i] == w && r[..i + 1] == q[..i + 1]
  }

  /** What stands below a surviving choice is not looked at. */
  lemma {:induction false} FirstDownTo(r: Ballot, q: Ballot, w: nat, out: set<nat>)
    requires SameDownTo(r, q, w) && w !in out
    ensures First(r, out) == First(q, out)
  {
    if r != q {
      var i :| 0 <= i < |r| && i < |q| && r[i] == w && r[..i + 1] == q[..i + 1];
      assert r[0] == r[..i + 1][0] == q[0];
      if i > 0 {
        assert r[1..][..i] == r[..i + 1][1..] == q[1..][..i];
        assert r[1..][i - 1] == w;
        FirstDownTo(r[1..], q[1..], w, out);
      }
    }
  }

  /** Two choices together have at most all votes. */
  lemma TwoVotes(rs: seq<Ballot>, out: set<nat>, n: nat, a: nat, b: nat)
    requires ValidBallots(rs, n) && a != b
    ensures Votes(rs, out, a) + Votes(rs, out, b) <= Sum(Tallies(rs, out, n)) <= |rs|
  {
    VotesConserved(rs, out, n);
    CountExclusive(rs, r => First(r, out) == Some(a), r => First(r, out) == Some(b), r => First(r, out).Some?);
  }

  // ----- preferences

  /** r ranks a ahead of b, or does not rank b at all. */
  predicate Prefers(r: Ballot, a: nat, b: nat) {
    r != [] && (r[0] == a || (r[0] != b && Prefers(r[1..], a, b)))
  }

  /** A ballot that counts for c prefers c to every other surviving choice. */
  lemma {:induction false} FirstPreferred(r: Ballot, out: set<nat>, c: nat, d: nat)
    requires First(r, out) == Some(c) && d !in out && d != c
    ensures Prefers(r, c, d) && !Prefers(r, d, c)
  {
    if r[0] in out {
      FirstPreferred(r[1..], out, c, d);
    }
  }

  /** A ballot that prefers a surviving d to c counts, and not for c. */
  lemma {:induction false} PreferredCounts(r: Ballot, out: set<nat>, d: nat, c: nat)
    requires Prefers(r, d, c) && d !in out && c != d
    ensures First(r, out).Some? && First(r, out) != Some(c)
  {
    if r[0] in out {
      PreferredCounts(r[1..], out, d, c);
    }
  }

  /** r ranks every member of s ahead of everyone else. */
  ghost predicate Supports(r: Ballot, s: set<nat>) {
    forall a, b :: a in s && b !in s ==> a in r && Prefers(r, a, b)
  }

  /** While a member of s survives, supporters count for members of s. */
  lemma SupportersStay(r: Ballot, s: set<nat>, out: set<nat>, a: nat, b: nat)
    requires Supports(r, s) && a in s && a !in out && b !in s
    ensures First(r, out).Some? && First(r, out).value in s
  {
    assert Prefers(r, a, b);
    PreferredCounts(r, out, a, b);
    var c := First(r, out).value;
    if c !in s {
      assert Prefers(r, a, c);
      FirstPreferred(r, out, c, a);
    }
  }
}
