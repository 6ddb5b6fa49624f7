/**
 What a run of calls by several instances guarantees: ids stay in their places as long as updates keep them, writes act
 one after the other on a single map as long as nobody drops it, and reads see that map as it was at an earlier time.
 */
module CollectionRuns {
  import opened Collections
  import opened SetFacts
  import opened SharedCollections
  import opened Wrappers

  /** The registered documents. */
  function Docs(w: World): Documents {
    match w.head case Some(head) => head.documents case None => map[]
  }

  // ----- ids in their places

  /** An update gives no document that it matches another id. */
  ghost predicate KeepsNames(w: World, i: nat, call: Call)
    requires i < |w.instances|
  {
    match call
    case Writing(UpdateOne(matches, update)) => KeepsIds(Base(w.head, w.instances[i]).documents, matches, update)
    case Writing(UpdateMany(matches, update)) => KeepsIds(Base(w.head, w.instances[i]).documents, matches, update)
    case _ => true
  }

  lemma InsertsOneNamed(m: Documents, doc: Document, id: string, r: Result<string, Error>, n: Documents)
    requires Named(m) && InsertsOne(m, doc, id, r, n)
    ensures Named(n)
  {
    var saved := WithId(doc, id);
    if saved.id.Text? {
      NamedAdd(m, saved.id.value, saved);
    }
  }

  lemma {:induction false} InsertsManyNamed(
    m: Documents, docs: seq<Document>, ids: seq<string>, r: Result<seq<string>, Error>, n: Documents)
    requires |docs| == |ids| && Named(m) && InsertsMany(m, docs, ids, r, n)
    ensures Named(n)
    decreases |docs|
  {
    if docs != [] {
      var saved := WithId(docs[0], ids[0]);
      if saved.id.Text? && saved.id.value !in m {
        NamedAdd(m, saved.id.value, saved);
        InsertsManyNamed(m[saved.id.value := saved], docs[1..], ids[1..], if r.Ok? then Ok(r.value[1..]) else r, n);
      }
    }
  }

  lemma EffectNamed(m: Documents, w: Write, o: Outcome, n: Documents)
    requires Sendable(w) && Effect(m, w, o, n) && Named(m)
    requires w.UpdateOne? ==> KeepsIds(m, w.matches, w.update)
    requires w.UpdateMany? ==> KeepsIds(m, w.matches, w.update)
    ensures Named(n)
  {
    match w
    case InsertOne(doc, id) => InsertsOneNamed(m, doc, id, o.one, n);
    case InsertMany(docs, ids) => InsertsManyNamed(m, docs, ids, o.all, n);
    case UpdateOne(matches, update) =>
      if o.count == 1 {
        UpdatesKeep(m, matches, update, n);
      }
    case UpdateMany(matches, update) => UpdatedNamed(m, matches, update);
    case DeleteOne(matches) =>
      if o.count == 1 {
        var id :| Hit(m, matches, id) && n == m - {id};
        FewerDocuments(m, {id});
      }
    case DeleteMany(matches) => FewerDocuments(m, Hits(m, matches));
  }

  /** The condition under which every call is a step is kept by all calls but updates that change an id. */
  lemma NamesKept(w: World, i: nat, call: Call, o: Outcome, n: World)
    requires Legal(call) && Step(w, i, call, o, n) && AllNamed(w) && KeepsNames(w, i, call)
    ensures AllNamed(n)
  {
    hide Named, Effect, KeepsIds, Answers, Without;
    NoneNamed();
    if call.Writing? {
      EffectNamed(Base(w.head, w.instances[i]).documents, call.write, o, n.instances[i].view);
    }
    forall j | 0 <= j < |n.instances| ensures Named(n.instances[j].view) {
      assert j != i ==> n.instances[j] == w.instances[j];
    }
  }

  lemma NoneNamed()
    ensures Named(map[])
  {
  }

  /** In a run whose updates keep ids every call is a step. */
  lemma {:induction false} AllSteps(history: seq<World>, calls: seq<(nat, Call)>, outcomes: seq<Outcome>, k: nat)
    requires Steps(history, calls, outcomes) && k <= |outcomes| && AllNamed(history[0])
    requires forall j :: 0 <= j < |outcomes| ==>
      calls[j].0 < |history[j].instances| && KeepsNames(history[j], calls[j].0, calls[j].1)
    ensures NamedUpTo(history, k)
    ensures forall j :: 0 <= j < k ==> Legal(calls[j].1) && Step(history[j], calls[j].0, calls[j].1, outcomes[j], history[j + 1])
    decreases k
  {
    hide AllNamed, Step, KeepsNames, Legal;
    if k > 0 {
      AllSteps(history, calls, outcomes, k - 1);
      NamesKept(history[k - 1], calls[k - 1].0, calls[k - 1].1, outcomes[k - 1], history[k]);
    }
  }

  // ----- one map

  ghost predicate InSync(w: World) {
    w.head.Some? || forall i :: 0 <= i < |w.instances| ==> w.instances[i].view == map[]
  }

  /** An insertMany that throws. */
  predicate FailedMany(o: Outcome) {
    o.InsertedAll? && o.all.Err?
  }

  /** Calls that can leave an instance with documents while none are registered. */
  predicate Parts(w: World, call: Call, o: Outcome) {
    call.Drop? || (FailedMany(o) && w.head.None?)
  }

  /** What a call means for the one map; one that throws changes nothing, nor does a read or an index call. */
  ghost predicate Serial(m: Documents, call: Call, o: Outcome, n: Documents)
    requires Legal(call)
  {
    if !call.Writing? || FailedMany(o) then n == m
    else Effect(m, call.write, o, n)
  }

  lemma StepSerial(w: World, i: nat, call: Call, o: Outcome, n: World)
    requires Legal(call) && Step(w, i, call, o, n) && InSync(w) && !Parts(w, call, o)
    ensures InSync(n) && Serial(Docs(w), call, o, Docs(n))
  {
    var me, me2 := w.instances[i], n.instances[i];
    assert Base(w.head, me).documents == Docs(w);
    if call.Writing? && !Registering(o) {
      Unregistered(Docs(w), call.write, o, me2.view);
    }
    if n.head.None? {
      forall j | 0 <= j < |n.instances| ensures n.instances[j].view == map[] {
        assert j != i ==> n.instances[j] == w.instances[j];
      }
    }
  }

  /** A write that registers nothing has changed nothing, except a failed insertMany the instance's own documents. */
  lemma Unregistered(m: Documents, w: Write, o: Outcome, n: Documents)
    requires Sendable(w) && Effect(m, w, o, n) && !Registering(o)
    ensures n == m || FailedMany(o)
  {
    match w
    case UpdateMany(matches, update) => WrittenHits(m, matches, update);
      assert Hits(m, matches) == {};
    case DeleteMany(matches) => assert Hits(m, matches) == {};
    case _ =>
  }

  ghost predicate Runs(history: seq<World>, calls: seq<(nat, Call)>, outcomes: seq<Outcome>) {
    && |history| == |outcomes| + 1 && |outcomes| == |calls|
    && forall k :: 0 <= k < |calls| ==>
      Legal(calls[k].1) && Step(history[k], calls[k].0, calls[k].1, outcomes[k], history[k + 1])
  }

  ghost predicate NoneParts(history: seq<World>, calls: seq<(nat, Call)>, outcomes: seq<Outcome>)
    requires |history| == |outcomes| + 1 && |outcomes| == |calls|
  {
    forall k :: 0 <= k < |calls| ==> !Parts(history[k], calls[k].1, outcomes[k])
  }

  /** Without a drop, or an insertMany that throws before there is a head, the calls act one after the other on one map. */
  lemma {:induction false} SerialRun(history: seq<World>, calls: seq<(nat, Call)>, outcomes: seq<Outcome>, k: nat)
    requires Runs(history, calls, outcomes) && InSync(history[0]) && NoneParts(history, calls, outcomes) && k <= |calls|
    ensures InSync(history[k])
    ensures forall j :: 0 <= j < k ==>
      Legal(calls[j].1) && Serial(Docs(history[j]), calls[j].1, outcomes[j], Docs(history[j + 1]))
    decreases k
  {
    hide Step, InSync, Parts, Serial, Legal;
    if k > 0 {
      SerialRun(history, calls, outcomes, k - 1);
      StepSerial(history[k - 1], calls[k - 1].0, calls[k - 1].1, outcomes[k - 1], history[k]);
    }
  }

  // ----- reads

  /** A call after which the instance has the registered documents: any but listIndexes and a read when loaded. */
  predicate Refreshes(w: World, i: nat, call: Call)
    requires i < |w.instances|
  {
    !call.ListIndexes? && !(call.Reading? && w.instances[i].loaded)
  }

  /** How many calls had been made when instance i last wrote, or loaded, before the k-th. */
  function Since(history: seq<World>, calls: seq<(nat, Call)>, i: nat, k: nat): (j: nat)
    requires k <= |calls| < |history| && forall l :: 0 <= l < |history| ==> i < |history[l].instances|
    ensures j <= k
    decreases k
  {
    if k == 0 then 0
    else if calls[k - 1].0 == i && Refreshes(history[k - 1], i, calls[k - 1].1) then k
    else Since(history, calls, i, k - 1)
  }

  /** It does not go back, and it is not before the instance's own writes. */
  lemma {:induction false} SinceGrows(history: seq<World>, calls: seq<(nat, Call)>, i: nat, j: nat, k: nat)
    requires j <= k <= |calls| < |history| && forall l :: 0 <= l < |history| ==> i < |history[l].instances|
    ensures Since(history, calls, i, j) <= Since(history, calls, i, k)
    ensures j > 0 && calls[j - 1].0 == i && calls[j - 1].1.Writing? ==> Since(history, calls, i, k) >= j
    decreases k
  {
    if j < k {
      SinceGrows(history, calls, i, j, k - 1);
    }
  }

  /** A loaded instance has the registered documents, or has not been heard of since it had them. */
  predicate UpToDate(w: World, i: nat, docs: Documents)
    requires i < |w.instances|
  {
    w.instances[i].loaded ==> w.instances[i].view == docs
  }

  lemma StepUpToDate(w: World, i: nat, call: Call, o: Outcome, n: World, j: nat, docs: Documents)
    requires Legal(call) && Step(w, i, call, o, n) && InSync(w) && !call.Drop? && !FailedMany(o)
    requires j < |w.instances| && UpToDate(w, j, docs)
    ensures UpToDate(n, j, if i == j && Refreshes(w, j, call) then Docs(n) else docs)
  {
    if i == j {
      assert Base(w.head, w.instances[i]).documents == Docs(w);
      if call.Writing? && !Registering(o) {
        Unregistered(Docs(w), call.write, o, n.instances[i].view);
      }
    } else {
      assert n.instances[j] == w.instances[j];
    }
  }

  /** Without a drop or an insertMany that throws. */
  ghost predicate Smooth(history: seq<World>, calls: seq<(nat, Call)>, outcomes: seq<Outcome>) {
    && Runs(history, calls, outcomes) && InSync(history[0])
    && forall k :: 0 <= k < |calls| ==> !calls[k].1.Drop? && !FailedMany(outcomes[k])
  }

  lemma {:induction false} ViewsAre(
    history: seq<World>, calls: seq<(nat, Call)>, outcomes: seq<Outcome>, i: nat, k: nat)
    requires Smooth(history, calls, outcomes) && k <= |calls|
    requires (forall l :: 0 <= l < |history| ==> i < |history[l].instances|) && UpToDate(history[0], i, Docs(history[0]))
    ensures UpToDate(history[k], i, Docs(history[Since(history, calls, i, k)]))
    decreases k
  {
    hide Step, InSync, UpToDate, Legal, Refreshes;
    if k > 0 {
      ViewsAre(history, calls, outcomes, i, k - 1);
      SerialRun(history, calls, outcomes, k - 1);
      StepUpToDate(history[k - 1], calls[k - 1].0, calls[k - 1].1, outcomes[k - 1], history[k], i,
        Docs(history[Since(history, calls, i, k - 1)]));
    }
  }

  /**
   Every read answers from the registered documents as they were when its instance last wrote or loaded: never from
   before its own writes, and never from before an earlier read of the same instance.
   */
  lemma ReadsAnswer(history: seq<World>, calls: seq<(nat, Call)>, outcomes: seq<Outcome>, k: nat)
    requires Smooth(history, calls, outcomes) && k < |calls| && calls[k].1.Reading?
    requires forall l :: 0 <= l < |history| ==> calls[k].0 < |history[l].instances|
    requires UpToDate(history[0], calls[k].0, Docs(history[0]))
    ensures Answers(calls[k].1.read, outcomes[k], Docs(history[Since(history, calls, calls[k].0, k + 1)]))
  {
    hide InSync, Answers;
    ViewsAre(history, calls, outcomes, calls[k].0, k + 1);
  }
}
