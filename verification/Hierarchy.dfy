/**
 Aggregators put to use: a tree of jurisdictions, each of which collects the tallies its parts report and reports
 their combination. A part that reports under an id used again later is replaced by the later one.
 */
module Hierarchy {
  import opened SetFacts
  import opened BigNumbers
  import opened PaillierScheme
  import opened NumberTheory
  import opened Paillier
  import opened Aggregation
  import opened Wrappers

  datatype Jurisdiction =
    | Reporting(tally: Tally)
    | Over(id: seq<Byte>, level: Level, parts: seq<Jurisdiction>)

  function IdOf(j: Jurisdiction): seq<Byte> {
    match j case Reporting(tally) => tally.id case Over(id, _, _) => id
  }

  /** The tallies without those replaced by a later one of the same jurisdiction. */
  function Kept(ts: seq<Tally>): (ks: seq<Tally>) {
    if ts == [] then []
    else if ts[0].id in Ids(ts[1..]) then Kept(ts[1..])
    else [ts[0]] + Kept(ts[1..])
  }

  function PartIds(js: seq<Jurisdiction>): (ids: seq<seq<Byte>>)
    ensures |ids| == |js|
  {
    seq(|js|, k requires 0 <= k < |js| => IdOf(js[k]))
  }

  /** The precinct tallies that count, left to right. */
  function Counted(j: Jurisdiction): seq<Tally> {
    match j
    case Reporting(tally) => [tally]
    case Over(_, _, parts) => AllCounted(parts)
  }

  function AllCounted(js: seq<Jurisdiction>): seq<Tally> {
    if js == [] then []
    else if IdOf(js[0]) in PartIds(js[1..]) then AllCounted(js[1..])
    else Counted(js[0]) + AllCounted(js[1..])
  }

  /** Every aggregator has something to aggregate. */
  predicate Populated(j: Jurisdiction) {
    match j
    case Reporting(_) => true
    case Over(_, _, parts) => parts != [] && forall k :: 0 <= k < |parts| ==> Populated(parts[k])
  }

  /** Every precinct tally covers the same choices, with ciphertexts. */
  predicate Wellformed(j: Jurisdiction, choices: nat, n: nat) {
    match j
    case Reporting(tally) => Encrypts(tally, choices, n)
    case Over(_, _, parts) => forall k :: 0 <= k < |parts| ==> Wellformed(parts[k], choices, n)
  }

  predicate Encrypts(t: Tally, choices: nat, n: nat) {
    |t.encrypted| == choices && forall i :: 0 <= i < choices ==> Ciphertext(t.encrypted[i], n)
  }

  // ----- repeated tallies

  /** What an aggregator holds after being given the tallies in order. */
  function Held(ts: seq<Tally>): map<string, Tally> {
    if ts == [] then map[] else
      var rest := Held(ts[1..]);
      if ToKey(ts[0].id) in rest then rest else rest[ToKey(ts[0].id) := ts[0]]
  }

  lemma {:induction false} HeldAppend(ts: seq<Tally>, t: Tally)
    ensures Held(ts + [t]) == Held(ts)[ToKey(t.id) := t]
  {
    if ts == [] {
      assert ts + [t] == [t] && [t][1..] == [];
    } else {
      HeldAppend(ts[1..], t);
      assert (ts + [t])[1..] == ts[1..] + [t];
    }
  }

  lemma {:induction false} HeldKeys(ts: seq<Tally>, id: seq<Byte>)
    ensures ToKey(id) in Held(ts) <==> id in Ids(ts)
  {
    if ts != [] {
      HeldKeys(ts[1..], id);
      assert Ids(ts) == [ts[0].id] + Ids(ts[1..]);
      if ToKey(id) == ToKey(ts[0].id) {
        KeyInjective(id, ts[0].id);
      }
    }
  }

  function Keys(ts: seq<Tally>): (ks: seq<string>)
    ensures |ks| == |ts| && forall k :: 0 <= k < |ts| ==> ks[k] == ToKey(ts[k].id)
  {
    seq(|ts|, k requires 0 <= k < |ts| => ToKey(ts[k].id))
  }

  /** The last tally of each jurisdiction is held, and nothing else. */
  lemma {:induction false} HeldIsKept(ts: seq<Tally>)
    ensures Lists(Keys(Kept(ts)), Held(ts)) && Listed(Keys(Kept(ts)), Held(ts)) == Kept(ts)
  {
    if ts == [] {
      assert Elems(Keys(Kept(ts))) == {};
    } else {
      HeldIsKept(ts[1..]);
      HeldKeys(ts[1..], ts[0].id);
      var rest := Kept(ts[1..]);
      if ts[0].id !in Ids(ts[1..]) {
        assert Keys(Kept(ts)) == [ToKey(ts[0].id)] + Keys(rest);
        ListsMore(Keys(rest), Held(ts[1..]), ToKey(ts[0].id), ts[0]);
      }
    }
  }

  lemma OneInFront(k: string, order: seq<string>)
    ensures Elems([k] + order) == {k} + Elems(order)
    ensures k !in Elems(order) && Distinct(order) ==> Distinct([k] + order)
  {
    var more := [k] + order;
    assert forall i :: 0 <= i < |order| ==> more[i + 1] == order[i];
    assert forall i :: 0 <= i < |order| ==> order[i] in Elems(order);
  }

  lemma ListsMore(order: seq<string>, tallies: map<string, Tally>, k: string, t: Tally)
    requires Lists(order, tallies) && k !in tallies
    ensures Lists([k] + order, tallies[k := t]) && Listed([k] + order, tallies[k := t]) == [t] + Listed(order, tallies)
  {
    hide Elems, Distinct;
    OneInFront(k, order);
    ListedMore([k] + order, order, tallies, k, t);
  }

  lemma ListedMore(more: seq<string>, order: seq<string>, tallies: map<string, Tally>, k: string, t: Tally)
    requires Elems(order) <= tallies.Keys && k !in tallies
    requires more == [k] + order && Elems(more) <= tallies[k := t].Keys
    ensures Listed(more, tallies[k := t]) == [t] + Listed(order, tallies)
  {
    hide Elems;
    var before, after := Listed(order, tallies), Listed(more, tallies[k := t]);
    forall i | 0 <= i < |more| ensures after[i] == ([t] + before)[i] {
      if i > 0 {
        assert more[i] == order[i - 1];
        assert before[i - 1] == tallies[order[i - 1]];
      }
    }
  }

  lemma {:induction false} KeptFrom(ts: seq<Tally>)
    ensures forall t :: t in Kept(ts) ==> t in ts
    ensures ts != [] ==> Kept(ts) != []
  {
    if ts != [] {
      KeptFrom(ts[1..]);
    }
  }

  lemma {:induction false} HeldFrom(ts: seq<Tally>)
    ensures forall k :: k in Held(ts) ==> Held(ts)[k] in ts
  {
    if ts != [] {
      HeldFrom(ts[1..]);
    }
  }

  // ----- totals

  /** The entries of one choice with their voter counts. */
  function Column(ts: seq<Tally>, i: nat): (ls: seq<(seq<Byte>, nat)>)
    ensures |ls| == |ts|
  {
    Map((t: Tally) => Pair(t, i), ts)
  }

  lemma {:induction false} VotersOfColumn(ts: seq<Tally>, i: nat)
    ensures VoterSum(Column(ts, i)) == Voters(ts)
  {
    if ts != [] {
      VotersOfColumn(ts[..|ts| - 1], i);
      assert Column(ts, i)[..|ts| - 1] == Column(ts[..|ts| - 1], i);
    }
  }

  lemma TotalDecrypts(p: nat, q: nat, n: nat, m: nat, lambda: nat, mu: nat, ts: seq<Tally>, i: nat)
    requires Modulus(p, q, n, m, lambda) && ts != []
    requires forall k :: 0 <= k < |ts| ==> i < |ts[k].encrypted| && Ciphertext(ts[k].encrypted[i], n)
    ensures n > 0 && m > 0 && Ciphertext(FoldChoice(Entries(ts, i), m), n)
    ensures Plain(n, lambda, mu, FoldChoice(Entries(ts, i), m)) == PlainSum(n, lambda, mu, Column(ts, i)) % n
  {
    hide Modulus, Plain, Ciphertext, FoldChoice, PlainSum, VoterCount;
    RegionDecrypts(p, q, n, m, lambda, mu, AsRegion(ts, i));
    AggregateOfRegion(ts, i, m);
    LeavesOfRegion(ts, i);
  }

  /** What an aggregator reports, in any order of its map, is the total of the tallies kept. */
  lemma HeldDecrypts(p: nat, q: nat, n: nat, m: nat, lambda: nat, mu: nat, ts: seq<Tally>, order: seq<string>, i: nat)
    requires Modulus(p, q, n, m, lambda) && ts != [] && Lists(order, Held(ts))
    requires forall k :: 0 <= k < |ts| ==> i < |ts[k].encrypted| && Ciphertext(ts[k].encrypted[i], n)
    ensures var us := Listed(order, Held(ts));
      && (forall k :: 0 <= k < |us| ==> i < |us[k].encrypted|)
      && n > 0 && m > 0 && Ciphertext(FoldChoice(Entries(us, i), m), n)
      && Plain(n, lambda, mu, FoldChoice(Entries(us, i), m)) == PlainSum(n, lambda, mu, Column(Kept(ts), i)) % n
  {
    hide Modulus, Plain, Ciphertext, FoldChoice, PlainSum, Lists, Held, Kept;
    HeldIsKept(ts);
    HeldFrom(ts);
    KeptFrom(ts);
    SameSize(order, Keys(Kept(ts)), Held(ts));
    var us := Listed(order, Held(ts));
    forall k | 0 <= k < |us| ensures us[k] in ts {
    }
    OrderIrrelevant(p, q, n, m, lambda, mu, order, Keys(Kept(ts)), Held(ts), i);
    TotalDecrypts(p, q, n, m, lambda, mu, us, i);
    TotalDecrypts(p, q, n, m, lambda, mu, Kept(ts), i);
  }

  lemma SameSize(o1: seq<string>, o2: seq<string>, tallies: map<string, Tally>)
    requires Lists(o1, tallies) && Lists(o2, tallies)
    ensures |o1| == |o2| && Elems(o1) <= tallies.Keys
  {
    DistinctElems(o1);
    DistinctElems(o2);
  }

  lemma HeldVoters(ts: seq<Tally>, order: seq<string>)
    requires ts != [] && Lists(order, Held(ts))
    ensures Elems(order) <= Held(ts).Keys && Voters(Listed(order, Held(ts))) == Voters(Kept(ts))
  {
    hide Held, Kept, Pair, Map, Voters, VoterSum, PlainSum;
    HeldIsKept(ts);
    KeptFrom(ts);
    var o2 := Keys(Kept(ts));
    SameSize(order, o2, Held(ts));
    OrdersPermuted(order, o2, Held(ts));
    ListedPermuted(order, o2, Held(ts));
    var us := Listed(order, Held(ts));
    MapPermuted((t: Tally) => Pair(t, 0), us, Kept(ts));
    SumPermuted(1, 0, 0, Column(us, 0), Column(Kept(ts), 0));
    VotersOfColumn(us, 0);
    VotersOfColumn(Kept(ts), 0);
  }

  // ----- the parts of a jurisdiction

  /** ts are reports of the parts js, correct for choice i. */
  ghost predicate Reports(n: nat, lambda: nat, mu: nat, js: seq<Jurisdiction>, ts: seq<Tally>, i: nat)
    requires n > 0
  {
    && |ts| == |js|
    && (forall k :: 0 <= k < |js| ==> ts[k].id == IdOf(js[k]) && i < |ts[k].encrypted|)
    && forall k :: 0 <= k < |js| ==>
      Plain(n, lambda, mu, ts[k].encrypted[i]) == PlainSum(n, lambda, mu, Column(Counted(js[k]), i)) % n
  }

  lemma SameIds(js: seq<Jurisdiction>, ts: seq<Tally>)
    requires |ts| == |js| && forall k :: 0 <= k < |js| ==> ts[k].id == IdOf(js[k])
    ensures Ids(ts) == PartIds(js)
  {}

  /** The first part counts unless its id is used again, on both sides. */
  lemma FirstPart(n: nat, lambda: nat, mu: nat, js: seq<Jurisdiction>, ts: seq<Tally>, i: nat)
    requires n > 0 && js != [] && Reports(n, lambda, mu, js, ts, i)
    ensures Reports(n, lambda, mu, js[1..], ts[1..], i)
    ensures ts[0].id == IdOf(js[0]) && Ids(ts[1..]) == PartIds(js[1..])
    ensures Plain(n, lambda, mu, Pair(ts[0], i).0) == PlainSum(n, lambda, mu, Column(Counted(js[0]), i)) % n
  {
    hide Plain, PlainSum, Counted, Column;
    SameIds(js[1..], ts[1..]);
  }

  lemma ColumnAppend(a: seq<Tally>, b: seq<Tally>, i: nat)
    ensures Column(a + b, i) == Column(a, i) + Column(b, i)
  {}

  lemma KeptColumn(ts: seq<Tally>, i: nat)
    requires ts != []
    ensures var rest := Column(Kept(ts[1..]), i);
      Column(Kept(ts), i) == if ts[0].id in Ids(ts[1..]) then rest else [Pair(ts[0], i)] + rest
  {
    ColumnAppend([ts[0]], Kept(ts[1..]), i);
    assert Column([ts[0]], i) == [Pair(ts[0], i)];
  }

  lemma CountedColumn(js: seq<Jurisdiction>, i: nat)
    requires js != []
    ensures var rest := Column(AllCounted(js[1..]), i);
      Column(AllCounted(js), i) == if IdOf(js[0]) in PartIds(js[1..]) then rest else Column(Counted(js[0]), i) + rest
  {
    hide Column, Counted;
    ColumnAppend(Counted(js[0]), AllCounted(js[1..]), i);
  }

  lemma OneReportMore(
    n: nat, lambda: nat, mu: nat, x: (seq<Byte>, nat), ls: seq<(seq<Byte>, nat)>,
    ks: seq<(seq<Byte>, nat)>, cs: seq<(seq<Byte>, nat)>)
    requires n > 0 && Plain(n, lambda, mu, x.0) == PlainSum(n, lambda, mu, ls) % n
    requires PlainSum(n, lambda, mu, ks) % n == PlainSum(n, lambda, mu, cs) % n
    ensures PlainSum(n, lambda, mu, [x] + ks) % n == PlainSum(n, lambda, mu, ls + cs) % n
  {
    hide Plain, PlainSum;
    PlainSumAppend(n, lambda, mu, [x], ks);
    PlainSumAppend(n, lambda, mu, ls, cs);
    SingleLeaf(n, lambda, mu, x);
    AddBoth(PlainSum(n, lambda, mu, ls), PlainSum(n, lambda, mu, ks), PlainSum(n, lambda, mu, cs), n);
  }

  lemma {:induction false} ReportsAdd(n: nat, lambda: nat, mu: nat, js: seq<Jurisdiction>, ts: seq<Tally>, i: nat)
    requires n > 0 && Reports(n, lambda, mu, js, ts, i)
    ensures PlainSum(n, lambda, mu, Column(Kept(ts), i)) % n == PlainSum(n, lambda, mu, Column(AllCounted(js), i)) % n
    decreases |js|
  {
    hide Plain, PlainSum, Counted, Column, Ids, PartIds;
    if js != [] {
      FirstPart(n, lambda, mu, js, ts, i);
      hide Kept, AllCounted, Reports;
      ReportsAdd(n, lambda, mu, js[1..], ts[1..], i);
      KeptColumn(ts, i);
      CountedColumn(js, i);
      if IdOf(js[0]) !in PartIds(js[1..]) {
        OneReportMore(n, lambda, mu, Pair(ts[0], i), Column(Counted(js[0]), i), Column(Kept(ts[1..]), i),
          Column(AllCounted(js[1..]), i));
      }
    }
  }

  lemma AddBoth(a: nat, b: nat, c: nat, n: nat)
    requires n > 0 && b % n == c % n
    ensures (a % n + b) % n == (a + c) % n
  {
    AddMod(a, b, n);
    AddMod(b, a, n);
    AddMod(c, a, n);
  }

  lemma {:induction false} ReportedVoters(js: seq<Jurisdiction>, ts: seq<Tally>)
    requires |ts| == |js| && forall k :: 0 <= k < |js| ==> ts[k].id == IdOf(js[k])
    requires forall k :: 0 <= k < |js| ==> ts[k].voterCount == Voters(Counted(js[k]))
    ensures Voters(Kept(ts)) == Voters(AllCounted(js))
    decreases |js|
  {
    hide Voters, Counted;
    if js != [] {
      ReportedVoters(js[1..], ts[1..]);
      SameIds(js[1..], ts[1..]);
      if IdOf(js[0]) !in PartIds(js[1..]) {
        VotersAppend([ts[0]], Kept(ts[1..]));
        VotersAppend(Counted(js[0]), AllCounted(js[1..]));
        OneVoters(ts[0]);
      }
    }
  }

  lemma OneVoters(t: Tally)
    ensures Voters([t]) == t.voterCount
  {
    assert [t][..0] == [];
  }

  lemma {:induction false} VotersAppend(a: seq<Tally>, b: seq<Tally>)
    ensures Voters(a + b) == Voters(a) + Voters(b)
    decreases |b|
  {
    if b == [] {
      assert a + b == a;
    } else {
      VotersAppend(a, b[..|b| - 1]);
      assert (a + b)[..|a + b| - 1] == a + b[..|b| - 1];
    }
  }

  // ----- collecting

  /** Some order of a map's keys. */
  method AnyOrder(keys: set<string>) returns (order: seq<string>)
    ensures Elems(order) == keys && Distinct(order)
  {
    order := [];
    var todo := keys;
    while todo != {}
      invariant todo <= keys && Elems(order) == keys - todo && Distinct(order)
      decreases |todo|
    {
      var k :| k in todo;
      assert k !in Elems(order) && Elems(order + [k]) == Elems(order) + {k};
      order := order + [k];
      todo := todo - {k};
    }
  }

  /** An aggregator's report carries its level and names each of its parts' ids once. */
  ghost predicate Named(j: Jurisdiction, t: Tally) {
    j.Over? ==>
      && t.level == j.level && Distinct(t.children)
      && forall id :: id in t.children <==> exists k :: 0 <= k < |j.parts| && IdOf(j.parts[k]) == id
  }

  /** A report is right: for every choice the sum of the counted precinct plaintexts, and all their voters. */
  ghost predicate Right(n: nat, lambda: nat, mu: nat, j: Jurisdiction, choices: nat, t: Tally)
    requires n > 0
  {
    && t.id == IdOf(j) && Named(j, t) && Encrypts(t, choices, n) && t.voterCount == Voters(Counted(j))
    && forall i :: 0 <= i < choices ==>
      Plain(n, lambda, mu, t.encrypted[i]) == PlainSum(n, lambda, mu, Column(Counted(j), i)) % n
  }

  /** A whole hierarchy at work: every aggregator is created, given the reports of its parts, and asked for its tally. */
  method Collect(
    j: Jurisdiction, publicKey: PaillierPublicKey, choices: nat,
    ghost p: nat, ghost q: nat, ghost lambda: nat, ghost mu: nat) returns (r: Result<Tally, string>)
    requires publicKey.Valid() && Modulus(p, q, ToNum(publicKey.n), ToNum(publicKey.n2), lambda)
    requires Wellformed(j, choices, ToNum(publicKey.n))
    ensures r.Ok? <==> Populated(j)
    ensures r.Ok? ==> Right(ToNum(publicKey.n), lambda, mu, j, choices, r.value)
    decreases j
  {
    hide Right, Modulus, Encrypts, Held, Lists;
    ghost var n, m := ToNum(publicKey.n), ToNum(publicKey.n2);
    match j
    case Reporting(tally) =>
      ReportingRight(n, lambda, mu, tally, choices);
      return Ok(tally);
    case Over(id, level, parts) =>
      var aggregator := new Aggregator(id, level, publicKey);
      ghost var ts: seq<Tally> := [];
      HeldNothing();
      for k := 0 to |parts|
        invariant forall l :: 0 <= l < k ==> Populated(parts[l])
        invariant |ts| == k && forall l :: 0 <= l < k ==> Right(n, lambda, mu, parts[l], choices, ts[l])
        invariant aggregator.tallies == Held(ts)
      {
        var part := Collect(parts[k], publicKey, choices, p, q, lambda, mu);
        if part.Err? {
          return part;
        }
        aggregator.AddTally(part.value);
        HeldAppend(ts, part.value);
        ts := ts + [part.value];
      }
      var order := AnyOrder(aggregator.tallies.Keys);
      OrderLists(order, aggregator.tallies);
      AllSame(n, lambda, mu, parts, choices, ts, order);
      r := aggregator.GetTally(order);
      NothingHeld(ts);
      if parts != [] {
        OverRight(p, q, n, m, lambda, mu, j, choices, ts, order);
      }
  }

  lemma OrderLists(order: seq<string>, tallies: map<string, Tally>)
    requires Elems(order) == tallies.Keys && Distinct(order)
    ensures Lists(order, tallies)
  {}

  lemma HeldNothing()
    ensures Held([]) == map[]
  {}

  lemma NothingHeld(ts: seq<Tally>)
    ensures Held(ts).Keys == {} <==> ts == []
  {
    if ts != [] {
      HeldKeys(ts, ts[0].id);
      assert Ids(ts)[0] == ts[0].id;
      assert ToKey(ts[0].id) in Held(ts).Keys;
    }
  }

  lemma ReportingRight(n: nat, lambda: nat, mu: nat, tally: Tally, choices: nat)
    requires n > 0 && Encrypts(tally, choices, n)
    ensures Right(n, lambda, mu, Reporting(tally), choices, tally)
  {
    hide Ciphertext, PlainSum, Plain;
    OneVoters(tally);
    forall i | 0 <= i < choices
      ensures Plain(n, lambda, mu, tally.encrypted[i]) == PlainSum(n, lambda, mu, Column([tally], i)) % n
    {
      assert Column([tally], i) == [Pair(tally, i)];
      SingleLeaf(n, lambda, mu, Pair(tally, i));
      PlainSmall(n, lambda, mu, tally.encrypted[i]);
      SmallMod(Plain(n, lambda, mu, tally.encrypted[i]), n);
    }
  }

  /** All reports cover the same choices. */
  lemma AllSame(n: nat, lambda: nat, mu: nat, parts: seq<Jurisdiction>, choices: nat, ts: seq<Tally>, order: seq<string>)
    requires n > 0 && |ts| == |parts| && Lists(order, Held(ts))
    requires forall l :: 0 <= l < |parts| ==> Right(n, lambda, mu, parts[l], choices, ts[l])
    ensures Elems(order) <= Held(ts).Keys
    ensures SameChoices(Listed(order, Held(ts)), Choices(Listed(order, Held(ts))))
    ensures ts != [] ==> Choices(Listed(order, Held(ts))) == choices
  {
    hide Plain, PlainSum, Held;
    HeldFrom(ts);
    NothingHeld(ts);
    var us := Listed(order, Held(ts));
    forall k | 0 <= k < |us| ensures |us[k].encrypted| == choices {
      assert us[k] in ts;
    }
  }

  lemma {:induction false} HeldUnderKey(ts: seq<Tally>)
    ensures forall k :: k in Held(ts) ==> ToKey(Held(ts)[k].id) == k
  {
    if ts != [] {
      HeldUnderKey(ts[1..]);
    }
  }

  /** The ids of what is held, each once, are the ids reported. */
  lemma HeldNames(ts: seq<Tally>, order: seq<string>)
    requires Lists(order, Held(ts))
    ensures Elems(order) <= Held(ts).Keys
    ensures var ids := Ids(Listed(order, Held(ts)));
      Distinct(ids) && forall id :: id in ids <==> id in Ids(ts)
  {
    hide Held, ToKey;
    HeldUnderKey(ts);
    var us := Listed(order, Held(ts));
    forall i, j | 0 <= i < j < |us| ensures us[i].id != us[j].id {
      assert ToKey(us[i].id) == order[i] && ToKey(us[j].id) == order[j];
    }
    forall id ensures id in Ids(us) <==> id in Ids(ts) {
      HeldKeys(ts, id);
      if id in Ids(us) {
        var i :| 0 <= i < |us| && us[i].id == id;
        assert ToKey(id) == order[i] && order[i] in Held(ts);
      }
      if id in Ids(ts) {
        assert ToKey(id) in Elems(order);
        var i :| 0 <= i < |order| && order[i] == ToKey(id);
        KeyInjective(us[i].id, id);
        assert Ids(us)[i] == id;
      }
    }
  }

  lemma OverNamed(j: Jurisdiction, ts: seq<Tally>, order: seq<string>, t: Tally)
    requires j.Over? && |ts| == |j.parts| && forall l :: 0 <= l < |ts| ==> ts[l].id == IdOf(j.parts[l])
    requires Lists(order, Held(ts)) && Elems(order) <= Held(ts).Keys
    requires t.level == j.level && t.children == Ids(Listed(order, Held(ts)))
    ensures Named(j, t)
  {
    hide Held, Lists, Distinct;
    HeldNames(ts, order);
    forall id ensures id in t.children <==> exists k :: 0 <= k < |j.parts| && IdOf(j.parts[k]) == id {
      if id in Ids(ts) {
        var k :| 0 <= k < |ts| && Ids(ts)[k] == id;
        assert IdOf(j.parts[k]) == id;
      }
      if k :| 0 <= k < |j.parts| && IdOf(j.parts[k]) == id {
        assert Ids(ts)[k] == id;
      }
    }
  }

  lemma OverRight(
    p: nat, q: nat, n: nat, m: nat, lambda: nat, mu: nat, j: Jurisdiction, choices: nat,
    ts: seq<Tally>, order: seq<string>)
    requires Modulus(p, q, n, m, lambda) && n > 0 && m > 0 && j.Over? && j.parts != [] && |ts| == |j.parts|
    requires forall l :: 0 <= l < |ts| ==> Right(n, lambda, mu, j.parts[l], choices, ts[l])
    requires Lists(order, Held(ts)) && Elems(order) <= Held(ts).Keys
    requires SameChoices(Listed(order, Held(ts)), Choices(Listed(order, Held(ts))))
    requires Choices(Listed(order, Held(ts))) == choices
    ensures Right(n, lambda, mu, j, choices, Combine(j.id, j.level, Listed(order, Held(ts)), m))
  {
    hide Modulus, Plain, PlainSum, Held, Lists, Ciphertext, FoldChoice, Kept, AllCounted, Voters, Column;
    hide Named, Ids;
    var us := Listed(order, Held(ts));
    OverNamed(j, ts, order, Combine(j.id, j.level, us, m));
    ReportedVoters(j.parts, ts);
    HeldVoters(ts, order);
    forall i | 0 <= i < choices
      ensures Ciphertext(FoldChoice(Entries(us, i), m), n)
      ensures Plain(n, lambda, mu, FoldChoice(Entries(us, i), m))
           == PlainSum(n, lambda, mu, Column(AllCounted(j.parts), i)) % n
    {
      HeldDecrypts(p, q, n, m, lambda, mu, ts, order, i);
      ReportsAdd(n, lambda, mu, j.parts, ts, i);
    }
  }
}
