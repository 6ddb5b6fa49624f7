/**
 County, state and national aggregation of encrypted tallies. The three aggregator classes of the source
 differ only in the level they stand for.
 */
module Aggregation {
  import opened SetFacts
  import opened BigNumbers
  import opened NumberTheory
  import opened PaillierScheme
  import opened Paillier
  import opened BitStrings
  import opened Wrappers

  datatype Level = Precinct | County | State | National

  datatype Tally = Tally(id: seq<Byte>, level: Level, encrypted: seq<seq<Byte>>, voterCount: nat,
                         children: seq<seq<Byte>>)

  /** The map key of a jurisdiction: its id in hexadecimal. */
  function ToKey(id: seq<Byte>): string {
    if id == [] then "" else ToKey(id[..|id| - 1]) + [HexDigit(id[|id| - 1] / 16), HexDigit(id[|id| - 1] % 16)]
  }

  /** Different jurisdictions have different keys. */
  lemma {:induction false} KeyInjective(a: seq<Byte>, b: seq<Byte>)
    requires ToKey(a) == ToKey(b)
    ensures a == b
    decreases |a|
  {
    if a == [] || b == [] {
    } else {
      var x, y := ToKey(a), ToKey(b);
      assert x[..|x| - 2] == ToKey(a[..|a| - 1]) && y[..|y| - 2] == ToKey(b[..|b| - 1]);
      KeyInjective(a[..|a| - 1], b[..|b| - 1]);
      var u, v := a[|a| - 1], b[|b| - 1];
      assert DigitValue(x[|x| - 2]) == DigitValue(y[|y| - 2]);
      assert DigitValue(x[|x| - 1]) == DigitValue(y[|y| - 1]);
      assert u == v;
      assert a == a[..|a| - 1] + [u] && b == b[..|b| - 1] + [v];
    }
  }

  /** The running value of one choice; an empty string means nothing was added yet. */
  function FoldChoice(entries: seq<seq<Byte>>, m: nat): seq<Byte>
    requires m > 0
  {
    if entries == [] then [] else
      var sum, entry := FoldChoice(entries[..|entries| - 1], m), entries[|entries| - 1];
      if sum == [] then entry else ToBytes(ProductMod([ToNum(sum), ToNum(entry)], m))
  }

  function Entries(tallies: seq<Tally>, i: nat): (es: seq<seq<Byte>>)
    requires forall k :: 0 <= k < |tallies| ==> i < |tallies[k].encrypted|
    ensures |es| == |tallies|
  {
    seq(|tallies|, k requires 0 <= k < |tallies| => tallies[k].encrypted[i])
  }

  function Voters(tallies: seq<Tally>): nat {
    if tallies == [] then 0 else Voters(tallies[..|tallies| - 1]) + tallies[|tallies| - 1].voterCount
  }

  function Ids(tallies: seq<Tally>): (ids: seq<seq<Byte>>)
    ensures |ids| == |tallies| && forall k :: 0 <= k < |tallies| ==> ids[k] == tallies[k].id
  {
    seq(|tallies|, k requires 0 <= k < |tallies| => tallies[k].id)
  }

  /** Every tally covers the same choices. */
  predicate SameChoices(tallies: seq<Tally>, choices: nat) {
    forall k :: 0 <= k < |tallies| ==> |tallies[k].encrypted| == choices
  }

  function Choices(tallies: seq<Tally>): nat {
    if tallies == [] then 0 else |tallies[0].encrypted|
  }

  function Combined(tallies: seq<Tally>, m: nat): (es: seq<seq<Byte>>)
    requires m > 0 && SameChoices(tallies, Choices(tallies))
    ensures |es| == Choices(tallies)
    ensures forall i :: 0 <= i < Choices(tallies) ==> es[i] == FoldChoice(Entries(tallies, i), m)
  {
    seq(Choices(tallies), i requires 0 <= i < Choices(tallies) => FoldChoice(Entries(tallies, i), m))
  }

  /** What an aggregator reports for the tallies it iterates over. */
  function Combine(id: seq<Byte>, level: Level, tallies: seq<Tally>, m: nat): Tally
    requires m > 0 && SameChoices(tallies, Choices(tallies))
  {
    Tally(id, level, Combined(tallies, m), Voters(tallies), Ids(tallies))
  }

  /** The map listed in some order, each key once. */
  predicate Lists(order: seq<string>, tallies: map<string, Tally>) {
    Elems(order) == tallies.Keys && Distinct(order)
  }

  function Listed(order: seq<string>, tallies: map<string, Tally>): (ts: seq<Tally>)
    requires Elems(order) <= tallies.Keys
    ensures |ts| == |order| && forall k :: 0 <= k < |order| ==> order[k] in tallies && ts[k] == tallies[order[k]]
  {
    assert forall k :: 0 <= k < |order| ==> order[k] in Elems(order);
    seq(|order|, k requires 0 <= k < |order| && order[k] in tallies => tallies[order[k]])
  }

  /** The running values after the first k tallies. */
  ghost predicate Folded(encrypted: seq<seq<Byte>>, ts: seq<Tally>, m: nat, k: nat)
    requires m > 0 && SameChoices(ts, Choices(ts)) && k <= |ts|
  {
    && |encrypted| == Choices(ts)
    && forall i :: 0 <= i < Choices(ts) ==> encrypted[i] == FoldChoice(Entries(ts, i)[..k], m)
  }

  lemma AllFolded(encrypted: seq<seq<Byte>>, ts: seq<Tally>, m: nat)
    requires m > 0 && SameChoices(ts, Choices(ts)) && Folded(encrypted, ts, m, |ts|)
    ensures encrypted == Combined(ts, m)
  {
    hide FoldChoice, Entries, Combined;
    forall i | 0 <= i < Choices(ts) ensures encrypted[i] == FoldChoice(Entries(ts, i), m) {
      assert Entries(ts, i)[..|ts|] == Entries(ts, i);
    }
    assert encrypted == Combined(ts, m);
  }

  lemma NothingFolded(encrypted: seq<seq<Byte>>, ts: seq<Tally>, m: nat)
    requires m > 0 && SameChoices(ts, Choices(ts)) && |encrypted| == Choices(ts)
    requires forall i :: 0 <= i < |encrypted| ==> encrypted[i] == []
    ensures Folded(encrypted, ts, m, 0)
  {}

  class Aggregator {
    const id: seq<Byte>
    const level: Level
    const publicKey: PaillierPublicKey
    var tallies: map<string, Tally>

    constructor (id: seq<Byte>, level: Level, publicKey: PaillierPublicKey)
      ensures this.id == id && this.level == level && this.publicKey == publicKey && tallies == map[]
    {
      this.id, this.level, this.publicKey, this.tallies := id, level, publicKey, map[];
    }

    /** A second tally of a jurisdiction replaces the first. */
    method AddTally(tally: Tally)
      modifies this`tallies
      ensures tallies == old(tallies)[ToKey(tally.id) := tally]
    {
      tallies := tallies[ToKey(tally.id) := tally];
    }

    /** order is the iteration order of the map. */
    method GetTally(order: seq<string>) returns (r: Result<Tally, string>)
      requires publicKey.Valid() && Lists(order, tallies)
      requires SameChoices(Listed(order, tallies), Choices(Listed(order, tallies)))
      ensures tallies.Keys == {} ==> r == Err("No tallies to aggregate")
      ensures tallies.Keys != {} ==>
        r == Ok(Combine(id, level, Listed(order, tallies), ToNum(publicKey.n2)))
    {
      if order == [] {
        assert tallies.Keys == Elems(order) == {};
        return Err("No tallies to aggregate");
      }
      assert order[0] in Elems(order);
      var tally := Total(Listed(order, tallies));
      return Ok(tally);
    }

    method Total(ts: seq<Tally>) returns (tally: Tally)
      requires publicKey.Valid() && ts != [] && SameChoices(ts, Choices(ts))
      ensures tally == Combine(id, level, ts, ToNum(publicKey.n2))
    {
      var choices := |ts[0].encrypted|;
      ghost var m := ToNum(publicKey.n2);
      hide Folded, FoldChoice, Entries, Ids, Combined;
      var encrypted: seq<seq<Byte>> := seq(choices, _ => []);
      var voters := 0;
      var children: seq<seq<Byte>> := [];
      NothingFolded(encrypted, ts, m);
      for k := 0 to |ts|
        invariant Folded(encrypted, ts, m, k) && voters == Voters(ts[..k]) && children == Ids(ts)[..k]
      {
        encrypted := AddRow(encrypted, ts, k);
        assert ts[..k + 1][..k] == ts[..k];
        voters := voters + ts[k].voterCount;
        children := children + [ts[k].id];
      }
      assert ts[..|ts|] == ts && children == Ids(ts);
      AllFolded(encrypted, ts, m);
      tally := Tally(id, level, encrypted, voters, children);
    }

    /** Adds the k-th tally to every choice. */
    method AddRow(sums: seq<seq<Byte>>, ts: seq<Tally>, k: nat) returns (encrypted: seq<seq<Byte>>)
      requires publicKey.Valid() && SameChoices(ts, Choices(ts)) && k < |ts|
      requires Folded(sums, ts, ToNum(publicKey.n2), k)
      ensures Folded(encrypted, ts, ToNum(publicKey.n2), k + 1)
    {
      encrypted := sums;
      for i := 0 to |sums|
        invariant |encrypted| == |sums|
        invariant forall j :: 0 <= j < i ==> encrypted[j] == FoldChoice(Entries(ts, j)[..k + 1], ToNum(publicKey.n2))
        invariant forall j :: i <= j < |sums| ==> encrypted[j] == sums[j]
      {
        var sum := ExtendChoice(encrypted[i], Entries(ts, i), k);
        encrypted := encrypted[i := sum];
      }
    }

    method ExtendChoice(sum: seq<Byte>, entries: seq<seq<Byte>>, k: nat) returns (r: seq<Byte>)
      requires publicKey.Valid() && k < |entries| && sum == FoldChoice(entries[..k], ToNum(publicKey.n2))
      ensures r == FoldChoice(entries[..k + 1], ToNum(publicKey.n2))
    {
      assert entries[..k + 1][..k] == entries[..k];
      if sum == [] {
        r := entries[k];
      } else {
        var result := publicKey.Addition([sum, entries[k]]);
        assert Nums([sum, entries[k]]) == [ToNum(sum), ToNum(entries[k])];
        r := result.value;
      }
    }
  }

  // ----- what the aggregate decrypts to

  /** A stored ciphertext: nonempty, and a unit. */
  predicate Ciphertext(e: seq<Byte>, n: nat) {
    e != [] && Unit(ToNum(e), n)
  }

  function Plain(n: nat, lambda: nat, mu: nat, e: seq<Byte>): nat
    requires n > 0
  {
    Decrypted(n, lambda, mu, ToNum(e))
  }

  function Plains(n: nat, lambda: nat, mu: nat, es: seq<seq<Byte>>): (ms: seq<nat>)
    requires n > 0
    ensures |ms| == |es|
  {
    seq(|es|, k requires 0 <= k < |es| => Plain(n, lambda, mu, es[k]))
  }

  lemma PairProduct(a: nat, b: nat, m: nat)
    requires m > 0
    ensures a * b >= 0 && ProductMod([a, b], m) == (1 * a % m) * b % m
  {
    MulMono(0, a, b);
    assert [a, b][..1] == [a] && [a][..0] == [];
    assert ProductMod([a], m) == 1 * a % m;
  }

  /** Adding one ciphertext to a running sum. */
  lemma PairDecrypts(p: nat, q: nat, n: nat, m: nat, lambda: nat, mu: nat, a: seq<Byte>, b: seq<Byte>)
    requires Modulus(p, q, n, m, lambda) && Ciphertext(a, n) && Ciphertext(b, n)
    ensures n > 1 && m > 0
    ensures var c := ToBytes(ProductMod([ToNum(a), ToNum(b)], m));
      Ciphertext(c, n) && Plain(n, lambda, mu, c) == (Plain(n, lambda, mu, a) + Plain(n, lambda, mu, b)) % n
  {
    hide Modulus, Decrypted, Unit, ProductMod;
    ModulusFacts(p, q, n, m, lambda);
    var cs := [ToNum(a), ToNum(b)];
    assert Units(cs, n);
    DecryptProductMod(p, q, n, m, lambda, mu, cs);
    NumOfBytes(ProductMod(cs, m));
    SumOfTwo(Decryptions(n, lambda, mu, cs));
  }

  lemma SumOfTwo(vs: seq<nat>)
    requires |vs| == 2
    ensures Sum(vs) == vs[0] + vs[1]
  {
    assert vs[..1] == [vs[0]] && [vs[0]][..0] == [];
    assert Sum(vs) == Sum(vs[..1]) + vs[1];
    assert Sum([vs[0]]) == Sum([vs[0]][..0]) + vs[0];
  }

  lemma {:induction false} FoldDecrypts(p: nat, q: nat, n: nat, m: nat, lambda: nat, mu: nat, es: seq<seq<Byte>>)
    requires Modulus(p, q, n, m, lambda) && es != [] && forall k :: 0 <= k < |es| ==> Ciphertext(es[k], n)
    ensures n > 1 && m > 0 && Ciphertext(FoldChoice(es, m), n)
    ensures Plain(n, lambda, mu, FoldChoice(es, m)) == Sum(Plains(n, lambda, mu, es)) % n
  {
    hide Modulus, Plain, Ciphertext;
    ModulusFacts(p, q, n, m, lambda);
    var front, e := es[..|es| - 1], es[|es| - 1];
    assert Plains(n, lambda, mu, es)[..|es| - 1] == Plains(n, lambda, mu, front);
    PlainSmall(n, lambda, mu, e);
    if |es| == 1 {
      assert front == [] && Sum(Plains(n, lambda, mu, [])) == 0;
      SmallMod(Plain(n, lambda, mu, e), n);
    } else {
      FoldDecrypts(p, q, n, m, lambda, mu, front);
      CiphertextNonempty(FoldChoice(front, m), n);
      PairDecrypts(p, q, n, m, lambda, mu, FoldChoice(front, m), e);
      AddMod(Sum(Plains(n, lambda, mu, front)), Plain(n, lambda, mu, e), n);
    }
  }

  lemma PlainSmall(n: nat, lambda: nat, mu: nat, e: seq<Byte>)
    requires n > 0
    ensures Plain(n, lambda, mu, e) < n
  {}

  lemma CiphertextNonempty(e: seq<Byte>, n: nat)
    requires Ciphertext(e, n)
    ensures e != []
  {}

  /** Leading empty entries do no harm. */
  lemma {:induction false} LeadingEmpty(es: seq<seq<Byte>>, m: nat)
    requires m > 0
    ensures FoldChoice([[]] + es, m) == FoldChoice(es, m)
  {
    var t := [[]] + es;
    if es == [] {
      assert t == [[]] && t[..0] == [];
    } else {
      LeadingEmpty(es[..|es| - 1], m);
      assert t[..|t| - 1] == [[]] + es[..|es| - 1];
    }
  }

  /** But an empty entry behind a nonempty one erases the choice: the sum becomes the single byte 0. */
  lemma {:induction false} LaterEmpty(es: seq<seq<Byte>>, j: nat, k: nat, m: nat)
    requires m > 0 && j < k < |es| && es[j] != [] && es[k] == []
    ensures FoldChoice(es, m) == [0]
  {
    var front, e := es[..|es| - 1], es[|es| - 1];
    if k == |es| - 1 {
      FoldNonempty(front, j, m);
      PairProduct(ToNum(FoldChoice(front, m)), ToNum(e), m);
      TimesZero(1 * ToNum(FoldChoice(front, m)) % m, m);
    } else {
      LaterEmpty(front, j, k, m);
      PairProduct(ToNum([0]), ToNum(e), m);
      ZeroByte();
      TimesZero(ToNum(e), m);
    }
  }

  lemma ZeroByte()
    ensures ToNum([0]) == 0
  {
    var zero: seq<Byte> := [0];
    assert zero[..0] == [];
  }

  lemma TimesZero(a: nat, m: nat)
    requires m > 0
    ensures a * 0 % m == 0 && (1 * 0 % m) * a % m == 0
  {}

  lemma {:induction false} FoldNonempty(es: seq<seq<Byte>>, j: nat, m: nat)
    requires m > 0 && j < |es| && es[j] != []
    ensures FoldChoice(es, m) != []
  {
    if j < |es| - 1 {
      FoldNonempty(es[..|es| - 1], j, m);
    }
  }

  // ----- the hierarchy

  /** Precinct tallies grouped, to any depth and in any order, under aggregators. */
  datatype Region = Leaf(entry: seq<Byte>, voters: nat) | Group(children: seq<Region>)

  /** The aggregate of one choice over a region. */
  function Aggregate(r: Region, m: nat): seq<Byte>
    requires m > 0
  {
    match r
    case Leaf(entry, _) => entry
    case Group(children) =>
      FoldChoice(seq(|children|, k requires 0 <= k < |children| => Aggregate(children[k], m)), m)
  }

  function VoterCount(r: Region): nat {
    match r
    case Leaf(_, voters) => voters
    case Group(children) => VoterCounts(children)
  }

  function VoterCounts(rs: seq<Region>): nat {
    if rs == [] then 0 else VoterCounts(rs[..|rs| - 1]) + VoterCount(rs[|rs| - 1])
  }

  /** The precinct entries of a region, left to right. */
  function Leaves(r: Region): seq<(seq<Byte>, nat)> {
    match r
    case Leaf(entry, voters) => [(entry, voters)]
    case Group(children) => AllLeaves(children)
  }

  function AllLeaves(rs: seq<Region>): seq<(seq<Byte>, nat)> {
    if rs == [] then [] else AllLeaves(rs[..|rs| - 1]) + Leaves(rs[|rs| - 1])
  }

  /** Every group reports something, and every precinct holds ciphertexts. */
  predicate Proper(r: Region, n: nat) {
    match r
    case Leaf(entry, _) => Ciphertext(entry, n)
    case Group(children) => children != [] && forall k :: 0 <= k < |children| ==> Proper(children[k], n)
  }

  function PlainSum(n: nat, lambda: nat, mu: nat, ls: seq<(seq<Byte>, nat)>): nat
    requires n > 0
  {
    if ls == [] then 0 else PlainSum(n, lambda, mu, ls[..|ls| - 1]) + Plain(n, lambda, mu, ls[|ls| - 1].0)
  }

  function VoterSum(ls: seq<(seq<Byte>, nat)>): nat {
    if ls == [] then 0 else VoterSum(ls[..|ls| - 1]) + ls[|ls| - 1].1
  }

  lemma {:induction false} PlainSumAppend(n: nat, lambda: nat, mu: nat, a: seq<(seq<Byte>, nat)>, b: seq<(seq<Byte>, nat)>)
    requires n > 0
    ensures PlainSum(n, lambda, mu, a + b) == PlainSum(n, lambda, mu, a) + PlainSum(n, lambda, mu, b)
    ensures VoterSum(a + b) == VoterSum(a) + VoterSum(b)
    decreases |b|
  {
    hide Plain;
    if b == [] {
      assert a + b == a;
    } else {
      PlainSumAppend(n, lambda, mu, a, b[..|b| - 1]);
      assert (a + b)[..|a + b| - 1] == a + b[..|b| - 1];
    }
  }

  lemma SingleLeaf(n: nat, lambda: nat, mu: nat, x: (seq<Byte>, nat))
    requires n > 0
    ensures PlainSum(n, lambda, mu, [x]) == Plain(n, lambda, mu, x.0) && VoterSum([x]) == x.1
  {
    hide Plain;
    var ls := [x];
    assert ls[..0] == [];
    assert PlainSum(n, lambda, mu, ls) == PlainSum(n, lambda, mu, ls[..0]) + Plain(n, lambda, mu, x.0);
    assert VoterSum(ls) == VoterSum(ls[..0]) + x.1;
  }

  /**
   Conservation through the hierarchy: whatever the grouping, the aggregate of a choice decrypts to the
   sum of all precinct plaintexts modulo n, and the voters are counted exactly.
   */
  lemma {:induction false} RegionDecrypts(p: nat, q: nat, n: nat, m: nat, lambda: nat, mu: nat, r: Region)
    requires Modulus(p, q, n, m, lambda) && Proper(r, n)
    ensures n > 1 && m > 0 && Ciphertext(Aggregate(r, m), n)
    ensures Plain(n, lambda, mu, Aggregate(r, m)) == PlainSum(n, lambda, mu, Leaves(r)) % n
    ensures VoterCount(r) == VoterSum(Leaves(r))
    decreases r, 0
  {
    hide Modulus, Plain, Ciphertext, FoldChoice;
    ModulusFacts(p, q, n, m, lambda);
    match r
    case Leaf(entry, voters) =>
      PlainSmall(n, lambda, mu, entry);
      SmallMod(Plain(n, lambda, mu, entry), n);
      SingleLeaf(n, lambda, mu, (entry, voters));
    case Group(children) =>
      var es := seq(|children|, k requires 0 <= k < |children| => Aggregate(children[k], m));
      forall k | 0 <= k < |children|
        ensures Ciphertext(es[k], n) && Plain(n, lambda, mu, es[k]) == PlainSum(n, lambda, mu, Leaves(children[k])) % n
        ensures VoterCount(children[k]) == VoterSum(Leaves(children[k]))
      {
        RegionDecrypts(p, q, n, m, lambda, mu, children[k]);
      }
      FoldDecrypts(p, q, n, m, lambda, mu, es);
      RegionsAdd(n, lambda, mu, children, es);
  }

  lemma {:induction false} RegionsAdd(n: nat, lambda: nat, mu: nat, rs: seq<Region>, es: seq<seq<Byte>>)
    requires n > 0 && |rs| == |es|
    requires forall k :: 0 <= k < |rs| ==> Plain(n, lambda, mu, es[k]) == PlainSum(n, lambda, mu, Leaves(rs[k])) % n
    requires forall k :: 0 <= k < |rs| ==> VoterCount(rs[k]) == VoterSum(Leaves(rs[k]))
    ensures Sum(Plains(n, lambda, mu, es)) % n == PlainSum(n, lambda, mu, AllLeaves(rs)) % n
    ensures VoterCounts(rs) == VoterSum(AllLeaves(rs))
    decreases |rs|
  {
    hide Plain, Leaves, VoterCount;
    if rs != [] {
      var k := |rs| - 1;
      RegionsAdd(n, lambda, mu, rs[..k], es[..k]);
      PlainSumAppend(n, lambda, mu, AllLeaves(rs[..k]), Leaves(rs[k]));
      assert Plains(n, lambda, mu, es)[..k] == Plains(n, lambda, mu, es[..k]);
      var a, b := Sum(Plains(n, lambda, mu, es[..k])), PlainSum(n, lambda, mu, AllLeaves(rs[..k]));
      var c := PlainSum(n, lambda, mu, Leaves(rs[k]));
      AddMod(a, c % n, n);
      AddMod(b, c % n, n);
      AddMod(c, b, n);
    }
  }

  /** Only the precincts matter: two groupings of the same tallies agree. */
  lemma GroupingIrrelevant(p: nat, q: nat, n: nat, m: nat, lambda: nat, mu: nat, r: Region, s: Region)
    requires Modulus(p, q, n, m, lambda) && Proper(r, n) && Proper(s, n)
    requires multiset(Leaves(r)) == multiset(Leaves(s))
    ensures n > 0 && m > 0
    ensures Plain(n, lambda, mu, Aggregate(r, m)) == Plain(n, lambda, mu, Aggregate(s, m))
    ensures VoterCount(r) == VoterCount(s)
  {
    hide Modulus, Plain, Proper;
    RegionDecrypts(p, q, n, m, lambda, mu, r);
    RegionDecrypts(p, q, n, m, lambda, mu, s);
    SumPermuted(n, lambda, mu, Leaves(r), Leaves(s));
  }

  lemma {:induction false} SumPermuted(n: nat, lambda: nat, mu: nat, a: seq<(seq<Byte>, nat)>, b: seq<(seq<Byte>, nat)>)
    requires n > 0 && multiset(a) == multiset(b)
    ensures PlainSum(n, lambda, mu, a) == PlainSum(n, lambda, mu, b) && VoterSum(a) == VoterSum(b)
    decreases |a|
  {
    hide Plain;
    if a == [] {
      assert |b| == |multiset(b)| == 0;
    } else {
      var x := a[|a| - 1];
      assert x in multiset(b);
      var k :| 0 <= k < |b| && b[k] == x;
      var rest := b[..k] + b[k + 1..];
      RemoveOne(a, b, k);
      SumPermuted(n, lambda, mu, a[..|a| - 1], rest);
      PlainSumAppend(n, lambda, mu, b[..k], [x] + b[k + 1..]);
      PlainSumAppend(n, lambda, mu, [x], b[k + 1..]);
      PlainSumAppend(n, lambda, mu, b[..k], b[k + 1..]);
      SingleLeaf(n, lambda, mu, x);
      assert b == b[..k] + ([x] + b[k + 1..]);
    }
  }

  /** What an aggregator makes of tallies that aggregate regions is the aggregate of the group of these regions. */
  lemma CombineNests(id: seq<Byte>, level: Level, ts: seq<Tally>, rs: seq<Region>, m: nat, i: nat)
    requires m > 0 && |ts| == |rs| && SameChoices(ts, Choices(ts)) && i < Choices(ts)
    requires forall k :: 0 <= k < |ts| ==> i < |ts[k].encrypted| && ts[k].encrypted[i] == Aggregate(rs[k], m)
    requires forall k :: 0 <= k < |ts| ==> ts[k].voterCount == VoterCount(rs[k])
    ensures Combine(id, level, ts, m).encrypted[i] == Aggregate(Group(rs), m)
    ensures Combine(id, level, ts, m).voterCount == VoterCount(Group(rs))
  {
    hide FoldChoice;
    assert seq(|rs|, k requires 0 <= k < |rs| => Aggregate(rs[k], m)) == Entries(ts, i);
    CountsNest(ts, rs);
  }

  lemma {:induction false} CountsNest(ts: seq<Tally>, rs: seq<Region>)
    requires |ts| == |rs| && forall k :: 0 <= k < |ts| ==> ts[k].voterCount == VoterCount(rs[k])
    ensures Voters(ts) == VoterCounts(rs)
    decreases |ts|
  {
    if ts != [] {
      CountsNest(ts[..|ts| - 1], rs[..|rs| - 1]);
    }
  }

  // ----- the order of the map

  /** A choice of a list of tallies as a region of depth one. */
  function AsRegion(ts: seq<Tally>, i: nat): Region
    requires forall k :: 0 <= k < |ts| ==> i < |ts[k].encrypted|
  {
    Group(seq(|ts|, k requires 0 <= k < |ts| => Leaf(ts[k].encrypted[i], ts[k].voterCount)))
  }

  function Pair(t: Tally, i: nat): (seq<Byte>, nat) {
    if i < |t.encrypted| then (t.encrypted[i], t.voterCount) else ([], t.voterCount)
  }

  lemma {:induction false} VotersOfRegion(ts: seq<Tally>, i: nat)
    requires forall k :: 0 <= k < |ts| ==> i < |ts[k].encrypted|
    ensures VoterCounts(AsRegion(ts, i).children) == Voters(ts)
  {
    if ts != [] {
      var front, cs := ts[..|ts| - 1], AsRegion(ts, i).children;
      VotersOfRegion(front, i);
      assert AsRegion(front, i).children == cs[..|cs| - 1];
    }
  }

  lemma {:induction false} LeavesOfRegion(ts: seq<Tally>, i: nat)
    requires forall k :: 0 <= k < |ts| ==> i < |ts[k].encrypted|
    ensures AllLeaves(AsRegion(ts, i).children) == Map((t: Tally) => Pair(t, i), ts)
  {
    if ts != [] {
      var front, cs := ts[..|ts| - 1], AsRegion(ts, i).children;
      LeavesOfRegion(front, i);
      assert AsRegion(front, i).children == cs[..|cs| - 1];
      assert Leaves(cs[|cs| - 1]) == [Pair(ts[|ts| - 1], i)];
    }
  }

  lemma AggregateOfRegion(ts: seq<Tally>, i: nat, m: nat)
    requires m > 0 && forall k :: 0 <= k < |ts| ==> i < |ts[k].encrypted|
    ensures Aggregate(AsRegion(ts, i), m) == FoldChoice(Entries(ts, i), m)
  {
    hide FoldChoice;
    var cs := AsRegion(ts, i).children;
    assert seq(|cs|, k requires 0 <= k < |cs| => Aggregate(cs[k], m)) == Entries(ts, i);
  }

  /** Permuted tallies have permuted leaves. */
  lemma RegionsPermuted(ts: seq<Tally>, us: seq<Tally>, i: nat)
    requires multiset(ts) == multiset(us)
    requires forall k :: 0 <= k < |ts| ==> i < |ts[k].encrypted|
    requires forall k :: 0 <= k < |us| ==> i < |us[k].encrypted|
    ensures multiset(Leaves(AsRegion(ts, i))) == multiset(Leaves(AsRegion(us, i)))
  {
    hide AllLeaves, Pair;
    MapPermuted((t: Tally) => Pair(t, i), ts, us);
    LeavesOfRegion(ts, i);
    LeavesOfRegion(us, i);
  }

  lemma OrdersPermuted(o1: seq<string>, o2: seq<string>, tallies: map<string, Tally>)
    requires Lists(o1, tallies) && Lists(o2, tallies)
    ensures multiset(o1) == multiset(o2)
  {
    forall x ensures multiset(o1)[x] == multiset(o2)[x] {
      DistinctCount(o1, x);
      DistinctCount(o2, x);
      assert x in o1 <==> x in Elems(o1);
      assert x in o2 <==> x in Elems(o2);
    }
  }

  lemma ListedPermuted(o1: seq<string>, o2: seq<string>, tallies: map<string, Tally>)
    requires Elems(o1) <= tallies.Keys && Elems(o2) <= tallies.Keys && multiset(o1) == multiset(o2) && o1 != []
    ensures multiset(Listed(o1, tallies)) == multiset(Listed(o2, tallies))
  {
    var default := Listed(o1, tallies)[0];
    var f := (k: string) => if k in tallies then tallies[k] else default;
    MapPermuted(f, o1, o2);
    assert Listed(o1, tallies) == Map(f, o1) && Listed(o2, tallies) == Map(f, o2);
  }

  lemma PermutedTallies(p: nat, q: nat, n: nat, m: nat, lambda: nat, mu: nat, ts: seq<Tally>, us: seq<Tally>, i: nat)
    requires Modulus(p, q, n, m, lambda) && ts != [] && multiset(ts) == multiset(us)
    requires forall k :: 0 <= k < |ts| ==> i < |ts[k].encrypted| && Ciphertext(ts[k].encrypted[i], n)
    requires forall k :: 0 <= k < |us| ==> i < |us[k].encrypted| && Ciphertext(us[k].encrypted[i], n)
    ensures n > 0 && m > 0
    ensures Plain(n, lambda, mu, FoldChoice(Entries(ts, i), m)) == Plain(n, lambda, mu, FoldChoice(Entries(us, i), m))
    ensures Voters(ts) == Voters(us)
  {
    hide Modulus, Plain, Ciphertext, FoldChoice, Leaves, Aggregate;
    ModulusFacts(p, q, n, m, lambda);
    RegionsPermuted(ts, us, i);
    VotersOfRegion(ts, i);
    VotersOfRegion(us, i);
    AggregateOfRegion(ts, i, m);
    AggregateOfRegion(us, i, m);
    assert |ts| == |multiset(ts)| == |multiset(us)| == |us|;
    GroupingIrrelevant(p, q, n, m, lambda, mu, AsRegion(ts, i), AsRegion(us, i));
  }

  /** The iteration order of the map matters neither to the plaintext nor to the voter count. */
  lemma OrderIrrelevant(p: nat, q: nat, n: nat, m: nat, lambda: nat, mu: nat,
                        o1: seq<string>, o2: seq<string>, tallies: map<string, Tally>, i: nat)
    requires Modulus(p, q, n, m, lambda) && o1 != [] && Lists(o1, tallies) && Lists(o2, tallies)
    requires forall k :: k in tallies ==> i < |tallies[k].encrypted| && Ciphertext(tallies[k].encrypted[i], n)
    ensures n > 0 && m > 0
    ensures Plain(n, lambda, mu, FoldChoice(Entries(Listed(o1, tallies), i), m))
         == Plain(n, lambda, mu, FoldChoice(Entries(Listed(o2, tallies), i), m))
    ensures Voters(Listed(o1, tallies)) == Voters(Listed(o2, tallies))
  {
    hide Modulus, Plain, Ciphertext, FoldChoice;
    OrdersPermuted(o1, o2, tallies);
    ListedPermuted(o1, o2, tallies);
    PermutedTallies(p, q, n, m, lambda, mu, Listed(o1, tallies), Listed(o2, tallies), i);
  }
}
