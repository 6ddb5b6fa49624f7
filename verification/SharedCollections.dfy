/**
 Several instances of one collection over one store and one registry. The state they share is a registered head, if
 any, and what each instance sees; every interleaving of whole calls, reads and index calls included, is a run of
 steps on it.
 */
module SharedCollections {
  import opened Collections
  import opened Wrappers

  datatype Write =
    | InsertOne(doc: Document, id: string)
    | InsertMany(docs: seq<Document>, ids: seq<string>)
    | UpdateOne(matches: Document -> bool, update: Document -> Document)
    | UpdateMany(matches: Document -> bool, update: Document -> Document)
    | DeleteOne(matches: Document -> bool)
    | DeleteMany(matches: Document -> bool)

  datatype Read =
    | FindOne(matches: Document -> bool)
    | Find(matches: Document -> bool, skip: nat, limit: Option<nat>)

  datatype Call =
    | Writing(write: Write)
    | Reading(read: Read)
    | CreateIndex(spec: IndexSpec)
    | DropIndex(name: string)
    | ListIndexes
    | Drop

  datatype Outcome =
    | Inserted(one: Result<string, Error>)
    | InsertedAll(all: Result<seq<string>, Error>)
    | Counted(count: nat)
    | Found(doc: Option<Document>)
    | FoundAll(docs: seq<Document>)
    | Listed(specs: seq<IndexSpec>)
    | Done

  /** What a registered head holds, and what an instance has. */
  datatype Head = Head(documents: Documents, indexes: seq<IndexSpec>)
  datatype Instance = Instance(view: Documents, indexes: seq<IndexSpec>, loaded: bool)
  datatype World = World(head: Option<Head>, instances: seq<Instance>)

  /** There is an id at hand for each document. */
  predicate Sendable(w: Write) {
    w.InsertMany? ==> |w.docs| == |w.ids|
  }

  predicate Legal(call: Call) {
    call.Writing? ==> Sendable(call.write)
  }

  /** What a call that reloads starts from: the registered head, and without one what the instance has. */
  function Base(h: Option<Head>, me: Instance): Head {
    match h case Some(head) => head case None => Head(me.view, me.indexes)
  }

  /** What the instance has after loading or not, for a read. */
  function Loaded(h: Option<Head>, me: Instance): Instance {
    if me.loaded then me else Instance(Base(h, me).documents, Base(h, me).indexes, true)
  }

  /** A write that came to the documents `me2.view`: registered or not. */
  predicate Wrote(h: Option<Head>, me: Instance, registers: bool, h2: Option<Head>, me2: Instance) {
    && me2.loaded && me2.indexes == Base(h, me).indexes
    && h2 == if registers then Some(Head(me2.view, me2.indexes)) else h
  }

  /** A change of the descriptors. */
  predicate Indexed(h: Option<Head>, me: Instance, specs: seq<IndexSpec>, h2: Option<Head>, me2: Instance) {
    me2 == Instance(Base(h, me).documents, specs, true) && h2 == Some(Head(me2.view, specs))
  }

  /** What a write makes of the documents m. */
  ghost predicate Effect(m: Documents, w: Write, o: Outcome, n: Documents)
    requires Sendable(w)
  {
    match w
    case InsertOne(doc, id) => o.Inserted? && InsertsOne(m, doc, id, o.one, n)
    case InsertMany(docs, ids) => o.InsertedAll? && InsertsMany(m, docs, ids, o.all, n)
    case UpdateOne(matches, update) => o.Counted? && UpdatesOne(m, matches, update, o.count, n)
    case UpdateMany(matches, update) => o.Counted? && UpdatesAll(m, matches, update, o.count, n)
    case DeleteOne(matches) => o.Counted? && DeletesOne(m, matches, o.count, n)
    case DeleteMany(matches) => o.Counted? && DeletesAll(m, matches, o.count, n)
  }

  /** What a read of the documents n answers. */
  ghost predicate Answers(r: Read, o: Outcome, n: Documents) {
    match r
    case FindOne(matches) =>
      && o.Found? && (o.doc.Some? ==> exists id :: Hit(n, matches, id) && n[id] == o.doc.value)
      && (o.doc.None? ==> forall id :: !Hit(n, matches, id))
    case Find(matches, skip, limit) => o.FoundAll? && exists ids :: Selects(n, matches, skip, limit, ids, o.docs)
  }

  /** Whether a write registered a head. */
  predicate Registering(o: Outcome) {
    match o
    case Inserted(r) => r.Ok?
    case InsertedAll(r) => r.Ok?
    case Counted(n) => n > 0
    case _ => false
  }

  /** What one call does to the head and to the instance it is made on. */
  ghost predicate Does(h: Option<Head>, me: Instance, call: Call, o: Outcome, h2: Option<Head>, me2: Instance)
    requires Legal(call)
  {
    match call
    case Writing(w) => Effect(Base(h, me).documents, w, o, me2.view) && Wrote(h, me, Registering(o), h2, me2)
    case Reading(r) => Answers(r, o, me2.view) && me2 == Loaded(h, me) && h2 == h
    case CreateIndex(spec) => o.Done? && Indexed(h, me, Base(h, me).indexes + [spec], h2, me2)
    case DropIndex(name) => o.Done? && Indexed(h, me, Without(Base(h, me).indexes, name), h2, me2)
    case ListIndexes => o == Listed(me.indexes) && me2 == me && h2 == h
    case Drop => o.Done? && me2 == Instance(map[], [], false) && h2 == None
  }

  /** A step of the world: one instance makes a call, and nothing else changes but the head. */
  ghost predicate Step(w: World, i: nat, call: Call, o: Outcome, n: World)
    requires Legal(call)
  {
    && i < |w.instances| == |n.instances| && n.instances == w.instances[i := n.instances[i]]
    && Does(w.head, w.instances[i], call, o, n.head, n.instances[i])
  }

  /** All documents, seen or registered, stand under their own ids. */
  predicate AllNamed(w: World) {
    && (w.head.Some? ==> Named(w.head.value.documents))
    && forall i :: 0 <= i < |w.instances| ==> Named(w.instances[i].view)
  }

  predicate NamedUpTo(history: seq<World>, k: nat)
    requires k < |history|
  {
    forall j :: 0 <= j <= k ==> AllNamed(history[j])
  }

  // ----- the objects and the world

  function HeadIn(key: string, heads: map<string, string>, blocks: Blocks): Option<Head>
    requires HeadOk(key, heads, blocks)
  {
    if key in heads then Some(Head(Registered(key, heads, blocks), RegisteredIndexes(key, heads, blocks))) else None
  }

  ghost function HeadOf(c: Collection): Option<Head>
    reads c, c.store, c.registry
    requires c.Shared()
  {
    if c.key in c.registry.heads then Some(Head(c.Durable(), c.DurableIndexes())) else None
  }

  ghost function Seen(c: Collection): Instance
    reads c, c.store, c.registry
    requires c.Stocked()
  {
    Instance(c.View(), c.indexes, c.loaded)
  }

  method ApplyOne(c: Collection, w: Write) returns (o: Outcome)
    requires c.Stocked() && Sendable(w) && (w.InsertOne? || w.UpdateOne? || w.DeleteOne?)
    modifies c, c.store`blocks, c.registry`heads
    ensures c.Stocked() && if Registering(o) then c.Registers() else c.Leaves()
    ensures old(c.Valid()) ==> c.Whole() && Effect(old(c.Base()), w, o, c.View())
  {
    if c.Valid() {
      c.ValidReady();
    }
    hide Filed, Coherent, Contents, HeadOk, Registered, RegisteredIndexes, Extends, SameElsewhere;
    hide Injective, Named, Consistent, Own;
    hide Collection.Stocked, Collection.Shared, Collection.Whole, Collection.Sound, Collection.Ready;
    hide Collection.ReadsRight, Collection.ReadyForAll, Collection.Valid;
    hide Collection.View, Collection.Durable, Collection.DurableIndexes;
    hide Collection.Base, Collection.BaseIndexes, Collection.Registers, Collection.Leaves;
    hide WithId, Hits, Hit, InsertsOne, InsertsMany, UpdatesOne, UpdatesAll, DeletesOne, DeletesAll, SameIds, Loses;
    match w {
      case InsertOne(doc, id) =>
        var r := c.InsertOne(doc, id);
        return Inserted(r);
      case UpdateOne(matches, update) =>
        var n := c.UpdateOne(matches, update);
        return Counted(n);
      case DeleteOne(matches) =>
        var n := c.DeleteOne(matches);
        return Counted(n);
    }
  }

  method ApplyMany(c: Collection, w: Write) returns (o: Outcome)
    requires c.Stocked() && Sendable(w) && (w.InsertMany? || w.UpdateMany? || w.DeleteMany?)
    modifies c, c.store`blocks, c.registry`heads
    ensures c.Stocked() && if Registering(o) then c.Registers() else c.Leaves()
    ensures old(c.Valid()) ==> c.Whole() && Effect(old(c.Base()), w, o, c.View())
  {
    if c.Valid() {
      c.ValidReady();
    }
    hide Filed, Coherent, Contents, HeadOk, Registered, RegisteredIndexes, Extends, SameElsewhere;
    hide Injective, Named, Consistent, Own;
    hide Collection.Stocked, Collection.Shared, Collection.Whole, Collection.Sound, Collection.Ready;
    hide Collection.ReadsRight, Collection.ReadyForAll, Collection.Valid;
    hide Collection.View, Collection.Durable, Collection.DurableIndexes;
    hide Collection.Base, Collection.BaseIndexes, Collection.Registers, Collection.Leaves;
    hide WithId, Hits, Hit, InsertsOne, InsertsMany, UpdatesOne, UpdatesAll, DeletesOne, DeletesAll, SameIds, Loses;
    match w {
      case InsertMany(docs, ids) =>
        var r := c.InsertMany(docs, ids);
        return InsertedAll(r);
      case UpdateMany(matches, update) =>
        var n := c.UpdateMany(matches, update);
        return Counted(n);
      case DeleteMany(matches) =>
        var n := c.DeleteMany(matches);
        return Counted(n);
    }
  }

  method ApplyWrite(c: Collection, w: Write) returns (o: Outcome)
    requires c.Stocked() && Sendable(w)
    modifies c, c.store`blocks, c.registry`heads
    ensures c.Stocked() && if Registering(o) then c.Registers() else c.Leaves()
    ensures old(c.Valid()) ==> c.Whole() && Effect(old(c.Base()), w, o, c.View())
  {
    hide Filed, Coherent, Contents, HeadOk, Registered, RegisteredIndexes, Extends, SameElsewhere;
    hide Injective, Named, Consistent, Own;
    hide Collection.Stocked, Collection.Shared, Collection.Whole, Collection.Sound, Collection.Ready;
    hide Collection.ReadsRight, Collection.ReadyForAll, Collection.Valid;
    hide Collection.View, Collection.Durable, Collection.DurableIndexes;
    hide Collection.Base, Collection.BaseIndexes, Collection.Registers, Collection.Leaves;
    hide Effect, Registering, InsertsOne, InsertsMany, UpdatesOne, UpdatesAll, DeletesOne, DeletesAll, SameIds, Loses;
    match w {
      case InsertMany(_, _) => o := ApplyMany(c, w);
      case UpdateMany(_, _) => o := ApplyMany(c, w);
      case DeleteMany(_) => o := ApplyMany(c, w);
      case _ => o := ApplyOne(c, w);
    }
  }

  method ApplyRead(c: Collection, r: Read) returns (o: Outcome)
    requires c.Stocked()
    modifies c
    ensures c.Stocked() && c.Reads()
    ensures old(c.Valid()) ==> c.Whole() && Answers(r, o, c.View())
  {
    if c.Valid() {
      c.ValidReady();
    }
    hide Filed, Coherent, Contents, HeadOk, Registered, RegisteredIndexes, Extends, SameElsewhere;
    hide Injective, Named, Consistent, Own;
    hide Collection.Stocked, Collection.Shared, Collection.Whole, Collection.Sound, Collection.Ready;
    hide Collection.ReadsRight, Collection.ReadyForAll, Collection.Valid;
    hide Collection.View, Collection.Durable, Collection.DurableIndexes;
    hide Collection.Base, Collection.BaseIndexes, Collection.Reads, Hit, Selects;
    match r {
      case FindOne(matches) =>
        var doc := c.FindOne(matches);
        return Found(doc);
      case Find(matches, skip, limit) =>
        var docs, ids := c.Find(matches, skip, limit);
        return FoundAll(docs);
    }
  }

  method MakeWrite(c: Collection, call: Call) returns (o: Outcome)
    requires c.Stocked() && Legal(call) && call.Writing?
    modifies c, c.store`blocks, c.registry`heads
    ensures c.Stocked() && c.Keeps()
    ensures old(c.Valid()) ==> c.Whole() && Does(old(HeadOf(c)), old(Seen(c)), call, o, HeadOf(c), Seen(c))
  {
    Unchanged(c.key, c.registry.heads, c.store.blocks);
    hide Filed, Coherent, Contents, HeadOk, Registered, RegisteredIndexes, Extends, SameElsewhere;
    hide Injective, Named, Consistent, Own;
    hide Collection.Stocked, Collection.Shared, Collection.Whole, Collection.Sound, Collection.Ready;
    hide Collection.ReadsRight, Collection.ReadyForAll, Collection.Valid;
    hide Collection.View, Collection.Durable, Collection.DurableIndexes;
    hide Effect, Answers, Without;
    o := ApplyWrite(c, call.write);
  }

  method MakeRead(c: Collection, call: Call) returns (o: Outcome)
    requires c.Stocked() && call.Reading?
    modifies c, c.store`blocks, c.registry`heads
    ensures c.Stocked() && c.Keeps()
    ensures old(c.Valid()) ==> c.Whole() && Does(old(HeadOf(c)), old(Seen(c)), call, o, HeadOf(c), Seen(c))
  {
    Unchanged(c.key, c.registry.heads, c.store.blocks);
    hide Filed, Coherent, Contents, HeadOk, Registered, RegisteredIndexes, Extends, SameElsewhere;
    hide Injective, Named, Consistent, Own;
    hide Collection.Stocked, Collection.Shared, Collection.Whole, Collection.Sound, Collection.Ready;
    hide Collection.ReadsRight, Collection.ReadyForAll, Collection.Valid;
    hide Collection.View, Collection.Durable, Collection.DurableIndexes;
    hide Effect, Answers, Without;
    o := ApplyRead(c, call.read);
  }

  method MakeIndexCall(c: Collection, call: Call) returns (o: Outcome)
    requires c.Stocked() && !call.Writing? && !call.Reading?
    modifies c, c.store`blocks, c.registry`heads
    ensures c.Stocked() && c.Keeps()
    ensures old(c.Valid()) ==> c.Whole() && Does(old(HeadOf(c)), old(Seen(c)), call, o, HeadOf(c), Seen(c))
  {
    if c.Valid() {
      c.ValidReady();
    }
    Unchanged(c.key, c.registry.heads, c.store.blocks);
    hide Filed, Coherent, Contents, HeadOk, Registered, RegisteredIndexes, Extends, SameElsewhere;
    hide Injective, Named, Consistent, Own;
    hide Collection.Stocked, Collection.Shared, Collection.Whole, Collection.Sound, Collection.Ready;
    hide Collection.ReadsRight, Collection.ReadyForAll, Collection.Valid;
    hide Collection.View, Collection.Durable, Collection.DurableIndexes;
    hide Effect, Answers, Without;
    match call {
      case CreateIndex(spec) =>
        c.CreateIndex(spec);
        return Done;
      case DropIndex(name) =>
        c.DropIndex(name);
        return Done;
      case ListIndexes =>
        var specs := c.ListIndexes();
        return Listed(specs);
      case Drop =>
        c.Drop();
        return Done;
    }
  }

  /** Makes a call, which is a step of the world if all documents stand under their own ids. */
  method Apply(c: Collection, call: Call) returns (o: Outcome)
    requires c.Stocked() && Legal(call)
    modifies c, c.store`blocks, c.registry`heads
    ensures c.Stocked() && c.Keeps()
    ensures old(c.Valid()) ==> c.Whole() && Does(old(HeadOf(c)), old(Seen(c)), call, o, HeadOf(c), Seen(c))
  {
    hide Does;
    match call
    case Writing(_) => o := MakeWrite(c, call);
    case Reading(_) => o := MakeRead(c, call);
    case _ => o := MakeIndexCall(c, call);
  }

  // ----- any number of instances

  ghost predicate Belongs(c: Collection, key: string, store: BlockStore, registry: HeadRegistry)
    reads c, store, registry
  {
    c.key == key && c.store == store && c.registry == registry && c.Stocked()
  }

  /** Different instances of this collection. */
  ghost predicate Sharing(cs: seq<Collection>, key: string, store: BlockStore, registry: HeadRegistry)
    reads cs, store, registry
  {
    && (forall i, j :: 0 <= i < j < |cs| ==> cs[i] != cs[j])
    && forall i :: 0 <= i < |cs| ==> Belongs(cs[i], key, store, registry)
  }

  /** w is what they share and see. */
  ghost predicate IsWorld(w: World, cs: seq<Collection>, key: string, store: BlockStore, registry: HeadRegistry)
    reads cs, store, registry
    requires Sharing(cs, key, store, registry) && HeadOk(key, registry.heads, store.blocks)
  {
    && |w.instances| == |cs| && w.head == HeadIn(key, registry.heads, store.blocks)
    && forall i :: 0 <= i < |cs| ==> w.instances[i] == Seen(cs[i])
  }

  /** Every cache agrees with its index. */
  ghost predicate AllWhole(cs: seq<Collection>)
    reads cs, set c | c in cs :: c.store, set c | c in cs :: c.registry
  {
    forall i :: 0 <= i < |cs| ==> cs[i].Whole()
  }

  /** An instance that did nothing sees what it saw while another adds blocks. */
  lemma Undisturbed(index: map<string, string>, cache: Documents, a: Blocks, b: Blocks)
    requires Filed(index, a) && Extends(a, b)
    ensures Filed(index, b) && Contents(index, b) == Contents(index, a)
    ensures Coherent(cache, index, a) ==> Coherent(cache, index, b)
  {
    ContentsExtends(index, a, b);
  }

  /** What the instances share and see. */
  method Observe(cs: seq<Collection>, key: string, store: BlockStore, registry: HeadRegistry) returns (ghost w: World)
    requires Sharing(cs, key, store, registry) && HeadOk(key, registry.heads, store.blocks)
    ensures IsWorld(w, cs, key, store, registry)
  {
    hide Collection.Stocked, Collection.View;
    ghost var seen: seq<Instance> := [];
    for i := 0 to |cs|
      invariant |seen| == i && forall j :: 0 <= j < i ==> seen[j] == Seen(cs[j])
    {
      assert Belongs(cs[i], key, store, registry);
      seen := seen + [Seen(cs[i])];
    }
    w := World(HeadIn(key, registry.heads, store.blocks), seen);
  }

  /** One call by one of them. */
  method OneCall(
    cs: seq<Collection>, key: string, store: BlockStore, registry: HeadRegistry, i: nat, call: Call, ghost w: World)
    returns (o: Outcome, ghost n: World)
    requires Sharing(cs, key, store, registry) && HeadOk(key, registry.heads, store.blocks)
    requires i < |cs| && Legal(call) && IsWorld(w, cs, key, store, registry)
    modifies cs, store`blocks, registry`heads
    ensures Sharing(cs, key, store, registry) && HeadOk(key, registry.heads, store.blocks)
    ensures IsWorld(n, cs, key, store, registry)
    ensures old(AllWhole(cs)) && AllNamed(w) ==> Step(w, i, call, o, n) && AllWhole(cs)
  {
    var c := cs[i];
    ghost var before := store.blocks;
    ghost var whole := AllWhole(cs);
    assert Belongs(c, key, store, registry);
    hide Does, Named, Coherent, Contents, Injective, Registered, RegisteredIndexes;
    o := Apply(c, call);
    n := World(HeadIn(key, registry.heads, store.blocks), w.instances[i := Seen(c)]);
    forall j | 0 <= j < |cs|
      ensures Belongs(cs[j], key, store, registry) && n.instances[j] == Seen(cs[j])
      ensures whole && (j == i ==> c.Whole()) ==> cs[j].Whole()
    {
      if j != i {
        assert old(Belongs(cs[j], key, store, registry));
        Undisturbed(cs[j].docIndex, cs[j].docCache, before, store.blocks);
      }
    }
  }

  /** The steps of a history, as long as all documents have stood under their own ids. */
  ghost predicate Steps(history: seq<World>, calls: seq<(nat, Call)>, outcomes: seq<Outcome>) {
    && |history| == |outcomes| + 1 && |outcomes| <= |calls|
    && forall k :: 0 <= k < |outcomes| && NamedUpTo(history, k) ==>
      Legal(calls[k].1) && Step(history[k], calls[k].0, calls[k].1, outcomes[k], history[k + 1])
  }

  lemma NamedAppend(history: seq<World>, n: World, k: nat)
    requires k < |history|
    ensures NamedUpTo(history + [n], k) == NamedUpTo(history, k)
  {
    assert forall j :: 0 <= j <= k ==> (history + [n])[j] == history[j];
  }

  lemma StepsAppend(history: seq<World>, calls: seq<(nat, Call)>, outcomes: seq<Outcome>, o: Outcome, n: World)
    requires Steps(history, calls, outcomes) && |outcomes| < |calls|
    requires var k := |outcomes|;
      NamedUpTo(history, k) ==> Legal(calls[k].1) && Step(history[k], calls[k].0, calls[k].1, o, n)
    ensures Steps(history + [n], calls, outcomes + [o])
  {
    hide NamedUpTo, Step, Legal;
    var h, os := history + [n], outcomes + [o];
    forall k: nat | k < |os| && NamedUpTo(h, k) ensures Legal(calls[k].1) && Step(h[k], calls[k].0, calls[k].1, os[k], h[k + 1]) {
      NamedAppend(history, n, k);
      if k < |outcomes| {
        assert h[k] == history[k] && h[k + 1] == history[k + 1] && os[k] == outcomes[k];
      }
    }
  }

  /**
   Makes the calls in order, each on the instance it names. The worlds before, between and after them form a history.
   Each call is a step of it as long as all documents have stood under their own ids.
   */
  method Interleave(cs: seq<Collection>, key: string, store: BlockStore, registry: HeadRegistry, calls: seq<(nat, Call)>)
    returns (outcomes: seq<Outcome>, ghost history: seq<World>)
    requires Sharing(cs, key, store, registry) && HeadOk(key, registry.heads, store.blocks) && AllWhole(cs)
    requires forall k :: 0 <= k < |calls| ==> calls[k].0 < |cs| && Legal(calls[k].1)
    modifies cs, store`blocks, registry`heads
    ensures Sharing(cs, key, store, registry) && HeadOk(key, registry.heads, store.blocks)
    ensures |outcomes| == |calls| && Steps(history, calls, outcomes)
    ensures old(IsWorld(history[0], cs, key, store, registry)) && IsWorld(history[|calls|], cs, key, store, registry)
  {
    hide Step, Filed, AllNamed, HeadOk, Sharing, IsWorld, AllWhole, NamedUpTo, Steps;
    ghost var w := Observe(cs, key, store, registry);
    outcomes, history := [], [w];
    NothingDone(history, calls);
    for k := 0 to |calls|
      invariant Sharing(cs, key, store, registry) && HeadOk(key, registry.heads, store.blocks)
      invariant |outcomes| == k && |history| == k + 1 && Steps(history, calls, outcomes)
      invariant old(IsWorld(history[0], cs, key, store, registry)) && IsWorld(history[k], cs, key, store, registry)
      invariant (k == 0 || NamedUpTo(history, k - 1)) ==> AllWhole(cs)
    {
      var o: Outcome;
      ghost var n: World;
      o, n := OneCall(cs, key, store, registry, calls[k].0, calls[k].1, history[k]);
      NamedLast(history, k);
      StepsAppend(history, calls, outcomes, o, n);
      NamedAppend(history, n, k);
      outcomes, history := outcomes + [o], history + [n];
    }
  }

  lemma NothingDone(history: seq<World>, calls: seq<(nat, Call)>)
    requires |history| == 1
    ensures Steps(history, calls, [])
  {
  }

  lemma NamedLast(history: seq<World>, k: nat)
    requires k < |history|
    ensures NamedUpTo(history, k) ==> AllNamed(history[k]) && (k > 0 ==> NamedUpTo(history, k - 1))
  {
  }

  /** A new instance, once loaded, sees the registered documents and index descriptors. */
  method Reopen(key: string, store: BlockStore, registry: HeadRegistry) returns (c: Collection)
    requires store.Valid() && HeadOk(key, registry.heads, store.blocks)
    ensures fresh(c) && Belongs(c, key, store, registry) && c.InSync() && c.Whole()
    ensures c.View() == Registered(key, registry.heads, store.blocks)
    ensures c.indexes == RegisteredIndexes(key, registry.heads, store.blocks)
  {
    hide Filed, Coherent, Contents, HeadOk, Named, Injective;
    c := new Collection(key, store, registry);
    c.BaseIsDurable();
    c.EnsureLoaded();
  }

  /**
   After another instance drops the collection, an instance that had seen documents is out of sync: its next
   insertion starts from the documents it kept and registers them again.
   */
  method DropThenInsert(c: Collection, d: Collection, doc: Document, id: string) returns (r: Result<string, Error>)
    requires c != d && c.store == d.store && c.registry == d.registry && c.key == d.key && c.Stocked() && d.Stocked()
    modifies c, d, c.store`blocks, c.registry`heads
    ensures c.Stocked() && InsertsOne(old(c.View()), doc, id, r, c.View())
    ensures r.Ok? ==> c.Durable() == c.View() && old(c.View()).Keys <= c.Durable().Keys
  {
    d.Drop();
    r := c.InsertOne(doc, id);
  }
}
