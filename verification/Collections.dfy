/**
 A document collection over a content-addressed block store: an index from ids to block names, a cache of
 documents, and a registered head block from which any instance reloads the index.

 Serialised documents and index blocks are modelled by the values they encode, and the hash by any injective
 function. Filters and updates are arbitrary functions, also updates that change the id of a document.
 */
module Collections {
  import opened SetFacts
  import opened Wrappers

  /** The _id field of a document: missing, a string, or some other JSON value. */
  datatype IdField = Missing | Text(value: string) | Other

  datatype Document = Document(id: IdField, body: string)

  datatype IndexSpec = IndexSpec(name: string, spec: string, unique: bool, sparse: bool)

  datatype Block = Doc(document: Document) | Meta(mappings: map<string, string>, indexes: seq<IndexSpec>)

  datatype Error = DuplicateKey(id: string) | IdNotText

  type Blocks = map<string, Block>
  type Documents = map<string, Document>

  ghost predicate Injective(hash: Block -> string) {
    forall a, b :: hash(a) == hash(b) ==> a == b
  }

  // ----- the map that an index stands for

  /** Every entry names a stored document. */
  predicate Filed(index: map<string, string>, blocks: Blocks) {
    forall id :: id in index ==> index[id] in blocks && blocks[index[id]].Doc?
  }

  function Contents(index: map<string, string>, blocks: Blocks): (m: Documents)
    requires Filed(index, blocks)
    ensures m.Keys == index.Keys
  {
    map id | id in index :: blocks[index[id]].document
  }

  /** Every document is listed under its own id. */
  predicate Named(m: Documents) {
    forall id :: id in m ==> m[id].id == Text(id)
  }

  /** No document names the id of a different one. */
  predicate Consistent(m: Documents) {
    forall id :: id in m && m[id].id.Text? && m[id].id.value in m ==> m[m[id].id.value] == m[id]
  }

  /** A document listed under an id does not name another of these ids. */
  predicate OwnName(doc: Document, id: string, ids: set<string>) {
    doc.id.Text? && doc.id.value in ids ==> doc.id.value == id
  }

  predicate Own(m: Documents) {
    forall id :: id in m ==> OwnName(m[id], id, m.Keys)
  }

  lemma NamedOwn(m: Documents)
    ensures (Named(m) ==> Own(m)) && (Own(m) ==> Consistent(m))
  {
  }

  /** A cached document of an indexed id is the one its block holds. */
  predicate Coherent(cache: Documents, index: map<string, string>, blocks: Blocks)
    requires Filed(index, blocks)
  {
    forall id :: id in cache && id in index ==> cache[id] == Contents(index, blocks)[id]
  }

  predicate Published(head: string, blocks: Blocks) {
    head in blocks && blocks[head].Meta? && Filed(blocks[head].mappings, blocks)
  }

  predicate Extends(a: Blocks, b: Blocks) {
    forall h :: h in a ==> h in b && b[h] == a[h]
  }

  /** The heads of other collections are the same. */
  predicate SameElsewhere(key: string, a: map<string, string>, b: map<string, string>) {
    a - {key} == b - {key}
  }

  lemma Unchanged(key: string, heads: map<string, string>, blocks: Blocks)
    ensures SameElsewhere(key, heads, heads) && Extends(blocks, blocks)
  {
  }

  lemma ExtendsFurther(a: Blocks, b: Blocks, c: Blocks)
    ensures Extends(a, a)
    ensures Extends(a, b) && Extends(b, c) ==> Extends(a, c)
  {
  }

  /** Blocks added later change nothing. */
  lemma ContentsExtends(index: map<string, string>, a: Blocks, b: Blocks)
    requires Filed(index, a) && Extends(a, b)
    ensures Filed(index, b) && Contents(index, b) == Contents(index, a)
  {
  }

  /** The documents and the index descriptors registered under a key. */
  predicate HeadOk(key: string, heads: map<string, string>, blocks: Blocks) {
    key in heads ==> Published(heads[key], blocks)
  }

  function Registered(key: string, heads: map<string, string>, blocks: Blocks): Documents
    requires HeadOk(key, heads, blocks)
  {
    if key in heads then Contents(blocks[heads[key]].mappings, blocks) else map[]
  }

  function RegisteredIndexes(key: string, heads: map<string, string>, blocks: Blocks): seq<IndexSpec>
    requires HeadOk(key, heads, blocks)
  {
    if key in heads then blocks[heads[key]].indexes else []
  }

  lemma HeadExtends(key: string, heads: map<string, string>, a: Blocks, b: Blocks)
    requires HeadOk(key, heads, a) && Extends(a, b)
    ensures HeadOk(key, heads, b) && Registered(key, heads, b) == Registered(key, heads, a)
    ensures RegisteredIndexes(key, heads, b) == RegisteredIndexes(key, heads, a)
  {
  }

  lemma Saved(
    index: map<string, string>, cache: Documents, a: Blocks, b: Blocks, id: string, name: string, doc: Document)
    requires Filed(index, a) && Extends(a, b) && name in b && b[name] == Doc(doc)
    ensures Filed(index[id := name], b) && Contents(index[id := name], b) == Contents(index, a)[id := doc]
    ensures Coherent(cache, index, a) ==> Coherent(cache[id := doc], index[id := name], b)
  {
  }

  /** Equal names are equal documents. */
  lemma SameName(store: BlockStore, index: map<string, string>, a: string, b: string)
    requires store.Valid() && Filed(index, store.blocks) && a in index && b in index
    ensures index[a] == index[b] <==> Contents(index, store.blocks)[a] == Contents(index, store.blocks)[b]
  {
  }

  lemma NamedAdd(m: Documents, id: string, doc: Document)
    requires Named(m)
    ensures Named(m[id := doc]) <==> doc.id == Text(id)
  {
    assert m[id := doc][id] == doc;
  }

  // ----- what the operations do to a map

  predicate Hit(m: Documents, matches: Document -> bool, id: string) {
    id in m && matches(m[id])
  }

  function Hits(m: Documents, matches: Document -> bool): (s: set<string>) {
    set id | id in m && matches(m[id])
  }

  /** The document with the id it will have: its own, or a generated one. */
  function WithId(doc: Document, generated: string): Document {
    if doc.id.Missing? then doc.(id := Text(generated)) else doc
  }

  /** insertOne: fails on a present id or an id that is no string, and else adds the document. */
  predicate InsertsOne(m: Documents, doc: Document, generated: string, r: Result<string, Error>, n: Documents) {
    match WithId(doc, generated).id
    case Text(id) =>
      if id in m then r == Err(DuplicateKey(id)) && n == m
      else r == Ok(id) && n == m[id := WithId(doc, generated)]
    case _ => r == Err(IdNotText) && n == m
  }

  /** insertMany: each in turn; a failure keeps the ones before it. */
  predicate InsertsMany(
    m: Documents, docs: seq<Document>, generated: seq<string>, r: Result<seq<string>, Error>, n: Documents)
    requires |docs| == |generated|
    decreases |docs|
  {
    if docs == [] then r == Ok([]) && n == m
    else
      var doc := WithId(docs[0], generated[0]);
      match doc.id
      case Text(id) =>
        if id in m then r == Err(DuplicateKey(id)) && n == m
        else
          && (r.Ok? ==> r.value != [] && r.value[0] == id)
          && InsertsMany(m[id := doc], docs[1..], generated[1..], if r.Ok? then Ok(r.value[1..]) else r, n)
      case _ => r == Err(IdNotText) && n == m
  }

  /** insertOne, case by case: without an id the generated one is used, a text is kept, anything else is refused. */
  lemma InsertsOneMeans(m: Documents, doc: Document, generated: string, r: Result<string, Error>, n: Documents)
    requires InsertsOne(m, doc, generated, r, n)
    ensures match doc.id
      case Missing =>
        if generated in m then r == Err(DuplicateKey(generated)) && n == m
        else r == Ok(generated) && n == m[generated := Document(Text(generated), doc.body)]
      case Text(id) =>
        if id in m then r == Err(DuplicateKey(id)) && n == m
        else r == Ok(id) && n == m[id := Document(Text(id), doc.body)]
      case Other => r == Err(IdNotText) && n == m
  {
  }

  /** The ids that the documents get: their own, or else the generated ones. */
  function IdsFor(docs: seq<Document>, generated: seq<string>): (ids: seq<string>)
    requires |docs| == |generated|
    ensures |ids| == |docs|
    ensures forall k :: 0 <= k < |docs| ==> ids[k] == if docs[k].id.Text? then docs[k].id.value else generated[k]
  {
    seq(|docs|, k requires 0 <= k < |docs| => if docs[k].id.Text? then docs[k].id.value else generated[k])
  }

  ghost predicate Insertable(m: Documents, docs: seq<Document>, ids: seq<string>) {
    (forall d :: d in docs ==> !d.id.Other?) && Distinct(ids) && forall x :: x in ids ==> x !in m
  }

  lemma InsertableNext(m: Documents, docs: seq<Document>, generated: seq<string>, doc: Document)
    requires |docs| == |generated| && docs != [] && doc == WithId(docs[0], generated[0])
    ensures var ids := IdsFor(docs, generated);
      && ids == [ids[0]] + IdsFor(docs[1..], generated[1..])
      && (Insertable(m, docs, ids) <==>
        doc.id.Text? && ids[0] !in m && Insertable(m[ids[0] := doc], docs[1..], IdsFor(docs[1..], generated[1..])))
    ensures doc.id.Text? ==> doc == Document(Text(IdsFor(docs, generated)[0]), docs[0].body)
  {
    hide Insertable, IdsFor;
    IdsForFirst(docs, generated);
    assert docs == [docs[0]] + docs[1..];
    var ids, rest := IdsFor(docs, generated), IdsFor(docs[1..], generated[1..]);
    InsertableCons(m, docs[0], docs[1..], ids[0], rest, doc);
  }

  lemma IdsForFirst(docs: seq<Document>, generated: seq<string>)
    requires |docs| == |generated| && docs != []
    ensures IdsFor(docs, generated)
         == [if docs[0].id.Text? then docs[0].id.value else generated[0]] + IdsFor(docs[1..], generated[1..])
  {
  }

  lemma InsertableCons(m: Documents, d: Document, ds: seq<Document>, x: string, xs: seq<string>, doc: Document)
    ensures Insertable(m, [d] + ds, [x] + xs) <==> !d.id.Other? && x !in m && Insertable(m[x := doc], ds, xs)
  {
    hide Distinct;
    FirstDistinct([x] + xs);
    assert ([x] + xs)[1..] == xs;
    assert forall e :: e in [d] + ds <==> e == d || e in ds;
    assert forall y :: y in [x] + xs <==> y == x || y in xs;
    assert forall y :: y in m[x := doc] <==> y == x || y in m;
  }

  lemma FirstDistinct(ids: seq<string>)
    requires ids != []
    ensures Distinct(ids) <==> Distinct(ids[1..]) && ids[0] !in ids[1..]
  {
    var rest := ids[1..];
    assert forall k :: 0 < k < |ids| ==> ids[k] == rest[k - 1];
    if Distinct(rest) && ids[0] !in rest {
      forall i, j | 0 <= i < j < |ids| ensures ids[i] != ids[j] {
        assert ids[j] == rest[j - 1] && ids[j] in rest;
        assert i > 0 ==> ids[i] == rest[i - 1];
      }
    }
  }

  lemma {:induction false} InsertsManyWhen(
    m: Documents, docs: seq<Document>, generated: seq<string>, r: Result<seq<string>, Error>, n: Documents)
    requires |docs| == |generated| && InsertsMany(m, docs, generated, r, n)
    ensures r.Ok? <==> Insertable(m, docs, IdsFor(docs, generated))
    ensures r.Ok? ==> r.value == IdsFor(docs, generated)
    decreases |docs|
  {
    if docs != [] {
      hide Insertable, IdsFor;
      var doc := WithId(docs[0], generated[0]);
      InsertableNext(m, docs, generated, doc);
      if doc.id.Text? && doc.id.value !in m {
        var rest := if r.Ok? then Ok(r.value[1..]) else r;
        InsertsManyWhen(m[doc.id.value := doc], docs[1..], generated[1..], rest, n);
        assert r.Ok? ==> r.value == [r.value[0]] + r.value[1..];
      }
    }
  }

  lemma {:induction false} InsertsManyPuts(
    m: Documents, docs: seq<Document>, generated: seq<string>, ids: seq<string>, n: Documents)
    requires |docs| == |generated| && InsertsMany(m, docs, generated, Ok(ids), n)
    ensures |ids| == |docs| && n.Keys == m.Keys + Elems(ids) && forall x :: x in m ==> n[x] == m[x]
    ensures forall k :: 0 <= k < |ids| ==> n[ids[k]] == Document(Text(ids[k]), docs[k].body)
    decreases |docs|
  {
    if docs == [] {
      assert Elems(ids) == {};
    } else {
      var doc := WithId(docs[0], generated[0]);
      var x, rest := ids[0], ids[1..];
      assert doc == Document(Text(x), docs[0].body);
      InsertsManyPuts(m[x := doc], docs[1..], generated[1..], rest, n);
      hide InsertsMany;
      assert n[x] == doc by {
        assert x in m[x := doc];
      }
      assert ids == [x] + rest && Elems(ids) == Elems(rest) + {x};
      forall k | 0 < k < |ids| ensures n[ids[k]] == Document(Text(ids[k]), docs[k].body) {
        assert ids[k] == rest[k - 1] && docs[k] == docs[1..][k - 1];
      }
    }
  }

  /**
   insertMany succeeds exactly when the ids, own or else generated, are texts, new and different from each other. Then
   each document is there under its id, with that id and its own body, and nothing else is touched.
   */
  lemma InsertsManyMeans(
    m: Documents, docs: seq<Document>, generated: seq<string>, r: Result<seq<string>, Error>, n: Documents)
    requires |docs| == |generated| && InsertsMany(m, docs, generated, r, n)
    ensures var ids := IdsFor(docs, generated);
      && (r.Ok? <==> (forall d :: d in docs ==> !d.id.Other?) && Distinct(ids) && forall x :: x in ids ==> x !in m)
      && (r.Ok? ==>
        && r.value == ids && n.Keys == m.Keys + Elems(ids) && (forall x :: x in m ==> n[x] == m[x])
        && forall k :: 0 <= k < |ids| ==> n[ids[k]] == Document(Text(ids[k]), docs[k].body))
  {
    hide InsertsMany, IdsFor;
    InsertsManyWhen(m, docs, generated, r, n);
    if r.Ok? {
      InsertsManyPuts(m, docs, generated, r.value, n);
    }
  }

  /** One that fails has inserted the documents before the first that cannot be. */
  lemma {:induction false} InsertsManyFails(
    m: Documents, docs: seq<Document>, generated: seq<string>, r: Result<seq<string>, Error>, n: Documents)
    returns (k: nat, ids: seq<string>)
    requires |docs| == |generated| && InsertsMany(m, docs, generated, r, n) && r.Err?
    ensures k < |docs| && InsertsMany(m, docs[..k], generated[..k], Ok(ids), n)
    ensures match docs[k].id
      case Missing => generated[k] in n && r == Err(DuplicateKey(generated[k]))
      case Text(id) => id in n && r == Err(DuplicateKey(id))
      case Other => r == Err(IdNotText)
    decreases |docs|
  {
    var doc := WithId(docs[0], generated[0]);
    if !doc.id.Text? || doc.id.value in m {
      k, ids := 0, [];
      assert docs[..0] == [] && n == m;
    } else {
      var x := doc.id.value;
      k, ids := InsertsManyFails(m[x := doc], docs[1..], generated[1..], r, n);
      k, ids := k + 1, [x] + ids;
      assert docs[..k][1..] == docs[1..][..k - 1] && generated[..k][1..] == generated[1..][..k - 1];
      assert ids[1..] == ids[1..] && docs[..k][0] == docs[0] && generated[..k][0] == generated[0];
    }
  }

  /** updateOne: one of the matching documents, if any. */
  ghost predicate UpdatesOne(
    m: Documents, matches: Document -> bool, update: Document -> Document, count: nat, n: Documents)
  {
    || (count == 0 && n == m && forall id :: !Hit(m, matches, id))
    || (count == 1 && exists id :: Hit(m, matches, id) && n == m[id := update(m[id])])
  }

  function Updated(m: Documents, matches: Document -> bool, update: Document -> Document): Documents {
    map id | id in m :: if matches(m[id]) then update(m[id]) else m[id]
  }

  /** The update gives no matching document another id. */
  ghost predicate KeepsIds(m: Documents, matches: Document -> bool, update: Document -> Document) {
    forall id :: Hit(m, matches, id) ==> update(m[id]).id == m[id].id
  }

  /** The condition is exact for updateMany. */
  lemma UpdatedNamed(m: Documents, matches: Document -> bool, update: Document -> Document)
    requires Named(m)
    ensures Named(Updated(m, matches, update)) <==> KeepsIds(m, matches, update)
  {
    var n := Updated(m, matches, update);
    if Named(n) {
      forall id | Hit(m, matches, id) ensures update(m[id]).id == m[id].id {
        assert n[id] == update(m[id]);
      }
    }
  }

  lemma UpdatesKeep(m: Documents, matches: Document -> bool, update: Document -> Document, n: Documents)
    requires Named(m) && UpdatesOne(m, matches, update, 1, n)
    ensures KeepsIds(m, matches, update) ==> Named(n)
  {
    var id :| Hit(m, matches, id) && n == m[id := update(m[id])];
    NamedAdd(m, id, update(m[id]));
  }

  /** And for updateOne, whichever match it meets first. */
  lemma UpdatesOneNamed(m: Documents, matches: Document -> bool, update: Document -> Document)
    requires Named(m)
    ensures (forall count, n :: UpdatesOne(m, matches, update, count, n) ==> Named(n)) <==> KeepsIds(m, matches, update)
  {
    if forall count, n :: UpdatesOne(m, matches, update, count, n) ==> Named(n) {
      forall id | Hit(m, matches, id) ensures update(m[id]).id == m[id].id {
        assert UpdatesOne(m, matches, update, 1, m[id := update(m[id])]);
        NamedAdd(m, id, update(m[id]));
      }
    }
  }

  ghost predicate DeletesOne(m: Documents, matches: Document -> bool, count: nat, n: Documents) {
    || (count == 0 && n == m && forall id :: !Hit(m, matches, id))
    || (count == 1 && exists id :: Hit(m, matches, id) && n == m - {id})
  }

  /** updateMany and deleteMany: all matching documents, and their number. */
  predicate UpdatesAll(
    m: Documents, matches: Document -> bool, update: Document -> Document, count: nat, n: Documents)
  {
    n == Updated(m, matches, update) && count == |Hits(m, matches)|
  }

  predicate DeletesAll(m: Documents, matches: Document -> bool, count: nat, n: Documents) {
    n == m - Hits(m, matches) && count == |Hits(m, matches)|
  }

  /** The same ids are in use. */
  predicate SameIds(m: Documents, n: Documents) {
    m.Keys == n.Keys
  }

  /** Some documents, count of them, are gone and the others as they were. */
  ghost predicate Loses(m: Documents, n: Documents, count: nat) {
    exists ids :: ids <= m.Keys && |ids| == count && n == m - ids
  }

  lemma LosesThese(m: Documents, ids: set<string>)
    requires ids <= m.Keys
    ensures Loses(m, m - ids, |ids|) && Loses(m, m, 0)
  {
    assert m - {} == m;
  }

  /** How many of `hits` matching documents find returns; a limit of zero still returns one. */
  function Window(hits: nat, skip: nat, limit: Option<nat>): (n: nat)
  {
    var left := if hits <= skip then 0 else hits - skip;
    match limit
    case None => left
    case Some(l) => if left <= l then left else if l == 0 then 1 else l
  }

  /** As many documents of different matching ids as skip and limit leave; which ones is up to the map's order. */
  predicate Selects(
    m: Documents, matches: Document -> bool, skip: nat, limit: Option<nat>, ids: seq<string>, results: seq<Document>)
  {
    && |results| == |ids| == Window(|Hits(m, matches)|, skip, limit) && Distinct(ids)
    && forall k :: 0 <= k < |ids| ==> Hit(m, matches, ids[k]) && results[k] == m[ids[k]]
  }

  // ----- the same in plain terms

  /** One matching document is changed in its place if there is one, and nothing else. */
  lemma UpdatesOneMeans(
    m: Documents, matches: Document -> bool, update: Document -> Document, count: nat, n: Documents)
    requires UpdatesOne(m, matches, update, count, n)
    ensures n.Keys == m.Keys
    ensures if exists id :: id in m && matches(m[id])
      then count == 1 && (exists id ::
        id in m && matches(m[id]) && n[id] == update(m[id]) && forall x :: x in m && x != id ==> n[x] == m[x])
      else count == 0 && n == m
  {
    if count == 1 {
      var id :| Hit(m, matches, id) && n == m[id := update(m[id])];
      assert id in m && matches(m[id]) && n[id] == update(m[id]);
    } else {
      forall id | id in m ensures !matches(m[id]) {
        assert !Hit(m, matches, id);
      }
    }
  }

  lemma DeletesOneMeans(m: Documents, matches: Document -> bool, count: nat, n: Documents)
    requires DeletesOne(m, matches, count, n)
    ensures forall x :: x in n ==> x in m && n[x] == m[x]
    ensures if exists id :: id in m && matches(m[id])
      then count == 1 && exists id :: id in m && matches(m[id]) && n.Keys == m.Keys - {id}
      else count == 0 && n == m
  {
    if count == 1 {
      var id :| Hit(m, matches, id) && n == m - {id};
      assert id in m && matches(m[id]) && n.Keys == m.Keys - {id};
    } else {
      forall id | id in m ensures !matches(m[id]) {
        assert !Hit(m, matches, id);
      }
    }
  }

  /** Exactly the matching documents are changed, or gone, and they are counted. */
  lemma ChangesAllMean(m: Documents, matches: Document -> bool, update: Document -> Document, count: nat, n: Documents)
    ensures UpdatesAll(m, matches, update, count, n) <==>
      && n.Keys == m.Keys && count == |set id | id in m && matches(m[id])|
      && forall id :: id in m ==> n[id] == if matches(m[id]) then update(m[id]) else m[id]
    ensures DeletesAll(m, matches, count, n) <==>
      && (forall id :: id in n <==> id in m && !matches(m[id])) && (forall id :: id in n ==> n[id] == m[id])
      && count == |set id | id in m && matches(m[id])|
  {
    assert Hits(m, matches) == set id | id in m && matches(m[id]);
  }

  /** Different matching documents, as many as skip leaves, and no more than the limit if it is positive, else one. */
  lemma SelectsMeans(
    m: Documents, matches: Document -> bool, skip: nat, limit: Option<nat>, ids: seq<string>, results: seq<Document>)
    requires Selects(m, matches, skip, limit, ids, results)
    ensures |results| == |ids| && Distinct(ids)
    ensures forall k :: 0 <= k < |ids| ==> ids[k] in m && matches(m[ids[k]]) && results[k] == m[ids[k]]
    ensures var hits := |set id | id in m && matches(m[id])|;
      && (hits <= skip ==> results == [])
      && (hits > skip && limit.None? ==> |results| == hits - skip)
      && (hits > skip && limit.Some? && limit.value > 0 ==>
        |results| <= limit.value && |results| <= hits - skip && (|results| == limit.value || |results| == hits - skip))
      && (hits > skip && limit == Some(0) ==> |results| == 1)
  {
    assert Hits(m, matches) == set id | id in m && matches(m[id]);
    forall k | 0 <= k < |ids| ensures ids[k] in m && matches(m[ids[k]]) && results[k] == m[ids[k]] {
      assert Hit(m, matches, ids[k]);
    }
  }

  class BlockStore {
    const hash: Block -> string
    var blocks: Blocks

    ghost predicate Valid()
      reads this
    {
      Injective(hash) && forall h :: h in blocks ==> hash(blocks[h]) == h
    }

    constructor (h: Block -> string)
      requires Injective(h)
      ensures Valid() && blocks == map[] && hash == h
    {
      hash, blocks := h, map[];
    }

    method Put(b: Block) returns (name: string)
      requires Valid()
      modifies this`blocks
      ensures Valid() && name in blocks && blocks[name] == b
      ensures Extends(old(blocks), blocks)
    {
      name := hash(b);
      blocks := blocks[name := b];
    }
  }

  class HeadRegistry {
    var heads: map<string, string>

    constructor ()
      ensures heads == map[]
    {
      heads := map[];
    }
  }

  class Collection {
    const key: string
    const store: BlockStore
    const registry: HeadRegistry
    var docIndex: map<string, string>
    var docCache: Documents
    var indexes: seq<IndexSpec>
    var loaded: bool

    /** What this instance needs of the shared store and registry. */
    ghost predicate Shared()
      reads store, registry
    {
      store.Valid() && HeadOk(key, registry.heads, store.blocks)
    }

    /** The index can be followed. */
    ghost predicate Stocked(): (r: bool)
      reads this, store, registry
      ensures r ==> Shared()
    {
      Shared() && Filed(docIndex, store.blocks)
    }

    /** And the cache agrees with it. */
    ghost predicate Whole()
      reads this, store, registry
    {
      Stocked() && Coherent(docCache, docIndex, store.blocks)
    }

    /** Documents are read as they are indexed. */
    ghost predicate Sound(): (r: bool)
      reads this, store, registry
      ensures r ==> Whole()
    {
      Whole() && Consistent(View())
    }

    /** They will be after a reload. */
    ghost predicate Ready()
      reads this, store, registry
    {
      Stocked() && if key in registry.heads then Consistent(Durable()) else Sound()
    }

    /** And no document will name the id of another while the documents are updated one after the other. */
    ghost predicate ReadyForAll()
      reads this, store, registry
    {
      Ready() && Own(Base())
    }

    /** They will be in a read. */
    ghost predicate ReadsRight()
      reads this, store, registry
    {
      if loaded then Sound() else Ready()
    }

    /** And all documents, seen or registered, are listed under their own ids. */
    ghost predicate Valid()
      reads this, store, registry
    {
      Whole() && Named(View()) && Named(Durable())
    }

    lemma ValidReady()
      requires Valid()
      ensures Sound() && Ready() && ReadsRight() && ReadyForAll()
    {
      NamedOwn(View());
      NamedOwn(Durable());
    }

    /** The documents this instance sees. */
    ghost function View(): (m: Documents)
      reads this, store, registry
      requires Stocked()
      ensures m.Keys == docIndex.Keys
    {
      Contents(docIndex, store.blocks)
    }

    /** The documents a new instance would see. */
    ghost function Durable(): Documents
      reads store, registry
      requires Shared()
    {
      Registered(key, registry.heads, store.blocks)
    }

    /** The index descriptors a new instance would see. */
    ghost function DurableIndexes(): seq<IndexSpec>
      reads store, registry
      requires Shared()
    {
      RegisteredIndexes(key, registry.heads, store.blocks)
    }

    /** The index descriptors a write call starts from. */
    ghost function BaseIndexes(): seq<IndexSpec>
      reads this, store, registry
      requires Stocked()
    {
      if key in registry.heads then DurableIndexes() else indexes
    }

    /** The documents a write call starts from: without a registered head the instance keeps its own. */
    ghost function Base(): Documents
      reads this, store, registry
      requires Stocked()
    {
      if key in registry.heads then Durable() else View()
    }

    ghost predicate InSync()
      reads this, registry
    {
      key in registry.heads || docIndex == map[]
    }

    /** A write call starts from the durable documents exactly when the instance is in sync. */
    lemma BaseIsDurable()
      requires Stocked()
      ensures Base() == Durable() <==> InSync()
    {
      if !InSync() {
        var id :| id in docIndex;
        assert id in View();
      }
    }

    /** What every call leaves alone: stored blocks and the heads of other collections. */
    twostate predicate Keeps()
      reads store, registry
    {
      Extends(old(store.blocks), store.blocks) && SameElsewhere(key, old(registry.heads), registry.heads)
    }

    /** A write call has registered what the instance now sees, with the index descriptors it started from. */
    twostate predicate Registers()
      reads this, store, registry
      requires old(Stocked()) && Stocked()
    {
      && Keeps() && loaded && key in registry.heads
      && Durable() == View() && DurableIndexes() == indexes == old(BaseIndexes())
    }

    /** Or it has registered nothing. */
    twostate predicate Leaves()
      reads this, store, registry
      requires old(Stocked()) && Stocked()
    {
      && Keeps() && loaded && registry.heads == old(registry.heads)
      && Durable() == old(Durable()) && DurableIndexes() == old(DurableIndexes()) && indexes == old(BaseIndexes())
    }

    constructor (k: string, s: BlockStore, r: HeadRegistry)
      requires s.Valid() && HeadOk(k, r.heads, s.blocks)
      ensures Whole() && key == k && store == s && registry == r && InSync() && !loaded && docIndex == map[] && indexes == []
      ensures Named(Durable()) ==> Valid()
    {
      key, store, registry := k, s, r;
      docIndex, docCache, indexes, loaded := map[], map[], [], false;
    }

    method EnsureLoaded()
      requires Stocked()
      modifies this`docIndex, this`docCache, this`indexes, this`loaded
      ensures Stocked() && loaded && Durable() == old(Durable()) && DurableIndexes() == old(DurableIndexes())
      ensures View() == if old(loaded) then old(View()) else old(Base())
      ensures indexes == if old(loaded) then old(indexes) else old(BaseIndexes())
      ensures old(ReadsRight()) ==> Sound()
      ensures old(Whole()) ==> Whole()
    {
      if !loaded {
        LoadFromStore();
        loaded := true;
      }
    }

    method LoadFromStore()
      requires Stocked()
      modifies this`docIndex, this`docCache, this`indexes
      ensures Stocked() && View() == old(Base()) && Durable() == old(Durable()) && DurableIndexes() == old(DurableIndexes())
      ensures indexes == old(BaseIndexes())
      ensures key in registry.heads ==> docCache == map[] && Whole()
      ensures key !in registry.heads ==> unchanged(this)
    {
      if key !in registry.heads {
        return;
      }
      var meta := store.blocks[registry.heads[key]];
      docIndex := meta.mappings;
      indexes := meta.indexes;
      docCache := map[];
    }

    /** Reload before a write, whether loaded or not. */
    method Reload()
      requires Stocked()
      modifies this`docIndex, this`docCache, this`indexes, this`loaded
      ensures Stocked() && loaded && View() == old(Base())
      ensures Durable() == old(Durable()) && DurableIndexes() == old(DurableIndexes())
      ensures indexes == old(BaseIndexes())
      ensures old(Ready()) ==> Sound()
      ensures old(Whole()) ==> Whole()
    {
      loaded := false;
      EnsureLoaded();
    }

    method PersistMeta()
      requires Stocked()
      modifies store`blocks, registry`heads
      ensures Stocked() && Keeps() && key in registry.heads
      ensures View() == old(View()) && Durable() == View() && DurableIndexes() == indexes
      ensures old(Whole()) ==> Whole()
    {
      ghost var before := store.blocks;
      var name := store.Put(Meta(docIndex, indexes));
      ContentsExtends(docIndex, before, store.blocks);
      registry.heads := registry.heads[key := name];
    }

    /** Stores a document under an id, in the store, the index and the cache. */
    method Save(id: string, doc: Document)
      requires Stocked()
      modifies store`blocks, this`docIndex, this`docCache
      ensures Stocked() && Extends(old(store.blocks), store.blocks) && View() == old(View())[id := doc]
      ensures Durable() == old(Durable()) && DurableIndexes() == old(DurableIndexes())
      ensures old(Whole()) ==> Whole()
    {
      ghost var before := store.blocks;
      hide Filed, Coherent, Contents, HeadOk, Registered, RegisteredIndexes;
      hide Extends, Injective, BlockStore.Valid;
      var name := store.Put(Doc(doc));
      Saved(docIndex, docCache, before, store.blocks, id, name, doc);
      HeadExtends(key, registry.heads, before, store.blocks);
      docIndex := docIndex[id := name];
      docCache := docCache[id := doc];
      assert registry.heads == old(registry.heads) && HeadOk(key, registry.heads, store.blocks);
      assert Filed(docIndex, store.blocks) && Shared() && Stocked();
      hide Shared;
      assert old(Whole()) ==> Whole();
    }

    method SaveRegistered(id: string, doc: Document)
      requires Stocked()
      modifies store`blocks, registry`heads, this`docIndex, this`docCache
      ensures Stocked() && Keeps() && key in registry.heads
      ensures View() == old(View())[id := doc] == Durable() && DurableIndexes() == indexes
      ensures old(Whole()) ==> Whole()
      ensures old(Sound()) ==> Whole()
    {
      hide Filed, Coherent, Contents, HeadOk, Registered, RegisteredIndexes, Injective, Extends;
      ghost var blocks := store.blocks;
      Save(id, doc);
      ghost var more := store.blocks;
      PersistMeta();
      ExtendsFurther(blocks, more, store.blocks);
    }

    method EraseRegistered(ids: seq<string>)
      requires Stocked()
      modifies store`blocks, registry`heads, this`docIndex, this`docCache
      ensures Stocked() && Keeps() && key in registry.heads
      ensures View() == old(View()) - Elems(ids) == Durable() && DurableIndexes() == indexes
      ensures old(Sound()) ==> Sound()
    {
      FewerDocuments(View(), Elems(ids));
      hide Filed, Coherent, Contents, HeadOk, Registered, RegisteredIndexes, Injective, Consistent;
      EraseAll(ids);
      PersistMeta();
    }

    /** The first cached document of an indexed id with this block, and else the block's, which is then cached. */
    method LoadDocument(name: string, ghost id: string) returns (doc: Document)
      requires Stocked() && id in docIndex && docIndex[id] == name
      modifies this`docCache
      ensures Stocked() && View() == old(View())
      ensures
        || (exists k :: k in old(docCache) && k in docIndex && docIndex[k] == name
              && doc == old(docCache)[k] && docCache == old(docCache))
        || ((forall k :: k in old(docCache) && k in docIndex ==> docIndex[k] != name) && doc == View()[id]
              && docCache == if doc.id.Text? then old(docCache)[doc.id.value := doc] else old(docCache))
      ensures old(Whole()) ==> doc == View()[id] && (OwnName(doc, id, docIndex.Keys) ==> Whole())
      ensures old(Sound()) ==> Sound() && doc == View()[id]
    {
      var todo := docCache.Keys;
      while todo != {}
        invariant todo <= docCache.Keys
        invariant forall k :: k in docCache && k in docIndex && docIndex[k] == name ==> k in todo
        decreases |todo|
      {
        var k :| k in todo;
        if k in docIndex && docIndex[k] == name {
          return docCache[k];
        }
        todo := todo - {k};
      }
      doc := store.blocks[name].document;
      if doc.id.Text? {
        docCache := docCache[doc.id.value := doc];
      }
    }

    /** Forgets an id. */
    method Erase(id: string)
      requires Stocked()
      modifies this`docIndex, this`docCache
      ensures Stocked() && View() == old(View()) - {id}
      ensures old(Whole()) ==> Whole()
    {
      docCache := docCache - {id};
      docIndex := docIndex - {id};
    }

    method InsertOne(doc: Document, generated: string) returns (r: Result<string, Error>)
      requires Stocked()
      modifies this, store`blocks, registry`heads
      ensures Stocked() && if r.Ok? then Registers() else Leaves()
      ensures InsertsOne(old(Base()), doc, generated, r, View())
      ensures old(Whole()) ==> Whole()
    {
      hide Filed, Coherent, Contents, HeadOk, Registered, RegisteredIndexes;
      hide Injective, Named, Shared;
      Reload();
      var saved := WithId(doc, generated);
      if !saved.id.Text? {
        return Err(IdNotText);
      }
      var id := saved.id.value;
      if id in docIndex {
        return Err(DuplicateKey(id));
      }
      if Named(View()) {
        NamedAdd(View(), id, saved);
      }
      SaveRegistered(id, saved);
      return Ok(id);
    }

    /** A call that throws part-way leaves the ones before in the index and the cache, unregistered. */
    method InsertMany(docs: seq<Document>, generated: seq<string>) returns (r: Result<seq<string>, Error>)
      requires Stocked() && |docs| == |generated|
      modifies this, store`blocks, registry`heads
      ensures Stocked() && if r.Ok? then Registers() else Leaves()
      ensures InsertsMany(old(Base()), docs, generated, r, View())
      ensures old(Whole()) ==> Whole()
    {
      hide Filed, Coherent, Contents, HeadOk, Registered, RegisteredIndexes;
      hide Injective, Named, Shared, Inserting, InsertsMany;
      Reload();
      ghost var base := View();
      var ids: seq<string> := [];
      InsertBegins(base, docs, generated);
      for i := 0 to |docs|
        invariant Stocked() && Durable() == old(Durable()) && loaded
        invariant DurableIndexes() == old(DurableIndexes()) && indexes == old(BaseIndexes())
        invariant Extends(old(store.blocks), store.blocks) && registry.heads == old(registry.heads)
        invariant Inserting(base, docs, generated, ids, View(), docs[i..], generated[i..])
        invariant old(Whole()) ==> Whole()
      {
        var saved := WithId(docs[i], generated[i]);
        assert docs[i..][0] == docs[i] && generated[i..][0] == generated[i];
        assert docs[i..][1..] == docs[i + 1..] && generated[i..][1..] == generated[i + 1..];
        if !saved.id.Text? {
          InsertStops(base, docs, generated, ids, View(), docs[i..], generated[i..], IdNotText);
          return Err(IdNotText);
        }
        var id := saved.id.value;
        if id in docIndex {
          InsertStops(base, docs, generated, ids, View(), docs[i..], generated[i..], DuplicateKey(id));
          return Err(DuplicateKey(id));
        }
        InsertGoesOn(base, docs, generated, ids, View(), docs[i..], generated[i..]);
        if Named(View()) {
          NamedAdd(View(), id, saved);
        }
        Save(id, saved);
        ids := ids + [id];
      }
      InsertEnds(base, docs, generated, ids, View());
      PersistMeta();
      return Ok(ids);
    }

    /** The first matching document met in the order of an unordered map. */
    method FirstMatch(matches: Document -> bool) returns (id: Option<string>, doc: Option<Document>)
      requires Stocked()
      modifies this`docCache
      ensures Stocked() && View() == old(View()) && (id.Some? <==> doc.Some?)
      ensures id.Some? ==> id.value in View() && matches(doc.value)
      ensures old(Sound()) ==> Sound()
      ensures old(Sound()) && id.Some? ==> doc.value == View()[id.value]
      ensures old(Sound()) && id.None? ==> forall k :: !Hit(View(), matches, k)
    {
      hide Filed, Coherent, Contents, HeadOk, Registered, RegisteredIndexes, Injective, Extends, Consistent, Named;
      hide Stocked, Shared, Whole, Sound, Ready, View, Durable, DurableIndexes, Base, BaseIndexes;
      var todo := docIndex.Keys;
      while todo != {}
        invariant Stocked() && todo <= docIndex.Keys && View() == old(View())
        invariant old(Sound()) ==> Sound()
        invariant old(Sound()) ==> forall k :: k in docIndex && k !in todo ==> !Hit(View(), matches, k)
        decreases |todo|
      {
        var k :| k in todo;
        todo := todo - {k};
        var found := LoadDocument(docIndex[k], k);
        if matches(found) {
          return Some(k), Some(found);
        }
      }
      return None, None;
    }

    /** Reads take no lock and do not reload: they see what the instance last loaded or wrote. */
    method FindOne(matches: Document -> bool) returns (doc: Option<Document>)
      requires Stocked()
      modifies this
      ensures Stocked() && Reads() && (doc.Some? ==> matches(doc.value))
      ensures old(ReadsRight()) ==> Sound()
      ensures old(ReadsRight()) && doc.Some? ==> exists id :: Hit(View(), matches, id) && View()[id] == doc.value
      ensures old(ReadsRight()) && doc.None? ==> forall id :: !Hit(View(), matches, id)
    {
      hide Filed, Coherent, Contents, HeadOk, Registered, RegisteredIndexes, Injective, Extends, Consistent, Named;
      hide Stocked, Shared, Whole, Sound, Ready, View, Durable, DurableIndexes;
      EnsureLoaded();
      var id: Option<string>;
      id, doc := FirstMatch(matches);
    }

    /** What the instance sees in a read, and that nothing else changes. */
    twostate predicate Reads()
      reads this, store, registry
      requires old(Stocked()) && Stocked()
    {
      && loaded && View() == (if old(loaded) then old(View()) else old(Base()))
      && indexes == (if old(loaded) then old(indexes) else old(BaseIndexes()))
      && Durable() == old(Durable()) && DurableIndexes() == old(DurableIndexes())
    }

    /** The scan of find over the loaded index, in the order of an unordered map. */
    method Scan(matches: Document -> bool, skip: nat, limit: Option<nat>)
      returns (results: seq<Document>, ghost ids: seq<string>)
      requires Stocked()
      modifies this`docCache
      ensures Stocked() && View() == old(View()) && forall d :: d in results ==> matches(d)
      ensures old(Sound()) ==> Sound() && Selects(View(), matches, skip, limit, ids, results)
    {
      hide Filed, Coherent, Contents, HeadOk, Registered, RegisteredIndexes, Injective, Extends, Consistent, Named;
      hide Stocked, Shared, Whole, Sound, Ready, View, Durable, DurableIndexes, Base, BaseIndexes, Page, Selects;
      results, ids := [], [];
      var skipped := 0;
      ghost var view := View();
      var todo := docIndex.Keys;
      PageStart(view, matches, skip);
      while todo != {}
        invariant Stocked() && View() == view && todo <= docIndex.Keys
        invariant forall d :: d in results ==> matches(d)
        invariant old(Sound()) ==> Sound() && Page(view, matches, todo, skip, skipped, ids, results)
        invariant limit.Some? ==> results == [] || |results| < limit.value
        decreases |todo|
      {
        var id :| id in todo;
        var doc := LoadDocument(docIndex[id], id);
        if old(Sound()) {
          PageNext(view, matches, todo, skip, skipped, ids, results, id);
        }
        todo := todo - {id};
        if !matches(doc) {
          continue;
        }
        if skipped < skip {
          skipped := skipped + 1;
          continue;
        }
        results := results + [doc];
        ids := ids + [id];
        if limit.Some? && |results| >= limit.value {
          break;
        }
      }
      if old(Sound()) {
        PageEnd(view, matches, todo, skip, skipped, ids, results, limit);
      }
    }

    /** Also a read: see FindOne. */
    method Find(matches: Document -> bool, skip: nat, limit: Option<nat>)
      returns (results: seq<Document>, ghost ids: seq<string>)
      requires Stocked()
      modifies this
      ensures Stocked() && Reads() && forall d :: d in results ==> matches(d)
      ensures old(ReadsRight()) ==> Sound() && Selects(View(), matches, skip, limit, ids, results)
    {
      hide Filed, Coherent, Contents, HeadOk, Registered, RegisteredIndexes, Injective, Extends, Consistent, Named;
      hide Stocked, Shared, Whole, Sound, Ready, View, Durable, DurableIndexes, Selects;
      EnsureLoaded();
      results, ids := Scan(matches, skip, limit);
    }

    /** Updates one matching document in its place, also if that changes its id. */
    method UpdateOne(matches: Document -> bool, update: Document -> Document) returns (count: nat)
      requires Stocked()
      modifies this, store`blocks, registry`heads
      ensures Stocked() && (if count > 0 then Registers() else Leaves()) && SameIds(old(Base()), View())
      ensures old(Ready()) ==> Whole() && UpdatesOne(old(Base()), matches, update, count, View())
    {
      hide Filed, Coherent, Contents, HeadOk, Registered, RegisteredIndexes, Injective, Extends, Consistent, Named;
      hide Stocked, Shared, Whole, Sound, Ready, View, Durable, DurableIndexes, Base, BaseIndexes;
      ExtendsFurther(store.blocks, store.blocks, store.blocks);
      Reload();
      var id, doc := FirstMatch(matches);
      if id.None? {
        return 0;
      }
      SaveRegistered(id.value, update(doc.value));
      return 1;
    }

    /** The ids of the matching documents. */
    method Matching(matches: Document -> bool) returns (ids: seq<string>)
      requires Stocked()
      modifies this`docCache
      ensures Stocked() && View() == old(View()) && Distinct(ids) && Elems(ids) <= View().Keys
      ensures old(Sound()) ==> Sound() && Elems(ids) == Hits(View(), matches)
    {
      hide Filed, Coherent, Contents, HeadOk, Registered, RegisteredIndexes, Injective, Extends, Consistent, Named;
      hide Stocked, Shared, Whole, Sound, Ready, View, Durable, DurableIndexes, Base, BaseIndexes, Hits, Elems, Distinct;
      ids := [];
      var todo := docIndex.Keys;
      CollectStarts(View(), matches);
      while todo != {}
        invariant Stocked() && View() == old(View()) && todo <= docIndex.Keys && Distinct(ids)
        invariant Elems(ids) <= docIndex.Keys - todo
        invariant old(Sound()) ==> Sound() && Elems(ids) == Hits(View(), matches) - todo
        decreases |todo|
      {
        var id :| id in todo;
        CollectNext(View(), matches, todo, ids, id);
        todo := todo - {id};
        var doc := LoadDocument(docIndex[id], id);
        if matches(doc) {
          ids := ids + [id];
        }
      }
    }

    /** Updates a document in its place. */
    method Rewrite(id: string, update: Document -> Document)
      requires Stocked() && id in docIndex
      modifies store`blocks, this`docIndex, this`docCache
      ensures Stocked() && Extends(old(store.blocks), store.blocks) && View().Keys == old(View()).Keys
      ensures old(Whole()) && OwnName(old(View())[id], id, old(View()).Keys) ==>
        Whole() && View() == old(View())[id := update(old(View())[id])]
    {
      hide Filed, Coherent, Contents, HeadOk, Registered, RegisteredIndexes;
      hide Injective, Named, Stocked, Extends, Consistent, OwnName;
      var doc := LoadDocument(docIndex[id], id);
      Save(id, update(doc));
    }

    /** Updates the documents of distinct ids, without registering the change. */
    method UpdateAll(ids: seq<string>, update: Document -> Document)
      requires Stocked() && Distinct(ids) && Elems(ids) <= docIndex.Keys
      modifies store`blocks, this`docIndex, this`docCache
      ensures Stocked() && Extends(old(store.blocks), store.blocks) && View().Keys == old(View()).Keys
      ensures Durable() == old(Durable()) && DurableIndexes() == old(DurableIndexes())
      ensures old(Whole()) && Own(old(View())) ==> Whole() && View() == Written(old(View()), Elems(ids), update)
    {
      ghost var base := View();
      ghost var good := Whole() && Own(base);
      assert HeadOk(key, registry.heads, store.blocks);
      ExtendsFurther(store.blocks, store.blocks, store.blocks);
      WrittenFirst(base, ids, update);
      hide Filed, Coherent, Contents, HeadOk, Registered, RegisteredIndexes;
      hide Injective, Named, Stocked, Written, Distinct, Extends, Consistent, OwnName, Own;
      for i := 0 to |ids|
        invariant Stocked() && Extends(old(store.blocks), store.blocks) && View().Keys == base.Keys
        invariant good ==> Whole() && View() == Written(base, Elems(ids[..i]), update)
      {
        assert ids[i] in Elems(ids);
        if good {
          WrittenNext(base, ids, i, update);
        }
        ghost var before := store.blocks;
        Rewrite(ids[i], update);
        ExtendsFurther(old(store.blocks), before, store.blocks);
      }
      HeadExtends(key, registry.heads, old(store.blocks), store.blocks);
    }

    /** Updates the matching documents in their places; the index stays one of ids exactly if they keep theirs. */
    method UpdateMany(matches: Document -> bool, update: Document -> Document) returns (count: nat)
      requires Stocked()
      modifies this, store`blocks, registry`heads
      ensures Stocked() && (if count > 0 then Registers() else Leaves()) && SameIds(old(Base()), View())
      ensures old(ReadyForAll()) ==> Whole() && UpdatesAll(old(Base()), matches, update, count, View())
    {
      hide Filed, Coherent, Contents, HeadOk, Registered, RegisteredIndexes;
      hide Injective, Named, Stocked, Hits, Elems, Updated, Written, KeepsIds, Consistent, Own;
      Reload();
      ghost var base := View();
      var ids := Matching(matches);
      DistinctElems(ids);
      UpdateAll(ids, update);
      WrittenHits(base, matches, update);
      count := |ids|;
      if count > 0 {
        PersistMeta();
      }
    }

    method DeleteOne(matches: Document -> bool) returns (count: nat)
      requires Stocked()
      modifies this, store`blocks, registry`heads
      ensures Stocked() && if count > 0 then Registers() else Leaves()
      ensures count <= 1 && Loses(old(Base()), View(), count)
      ensures old(Ready()) ==> Sound() && DeletesOne(old(Base()), matches, count, View())
    {
      hide Filed, Coherent, Contents, HeadOk, Registered, RegisteredIndexes, Injective, Extends, Consistent, Named;
      hide Stocked, Shared, Whole, Sound, Ready, View, Durable, DurableIndexes, Base, BaseIndexes;
      ExtendsFurther(store.blocks, store.blocks, store.blocks);
      LosesThese(Base(), {});
      Reload();
      var id, _ := FirstMatch(matches);
      if id.None? {
        return 0;
      }
      assert Elems([id.value]) == {id.value};
      LosesThese(View(), {id.value});
      EraseRegistered([id.value]);
      return 1;
    }

    /** Forgets several ids, without registering the change. */
    method EraseAll(ids: seq<string>)
      requires Stocked()
      modifies this`docIndex, this`docCache
      ensures Stocked() && View() == old(View()) - Elems(ids)
      ensures old(Whole()) ==> Whole()
    {
      hide Filed, Coherent, Contents, HeadOk, Registered, RegisteredIndexes, Injective, Named, Stocked;
      for i := 0 to |ids|
        invariant Stocked() && View() == old(View()) - Elems(ids[..i])
        invariant old(Whole()) ==> Whole()
      {
        assert Elems(ids[..i + 1]) == Elems(ids[..i]) + {ids[i]};
        Erase(ids[i]);
      }
      assert ids[..|ids|] == ids;
    }

    method DeleteMany(matches: Document -> bool) returns (count: nat)
      requires Stocked()
      modifies this, store`blocks, registry`heads
      ensures Stocked() && if count > 0 then Registers() else Leaves()
      ensures Loses(old(Base()), View(), count)
      ensures old(Ready()) ==> Sound() && DeletesAll(old(Base()), matches, count, View())
    {
      hide Filed, Coherent, Contents, HeadOk, Registered, RegisteredIndexes, Injective, Extends, Consistent, Named;
      hide Stocked, Shared, Whole, Sound, Ready, View, Durable, DurableIndexes, Base, BaseIndexes, Hits, Elems;
      ExtendsFurther(store.blocks, store.blocks, store.blocks);
      Reload();
      var ids := Matching(matches);
      DistinctElems(ids);
      LosesThese(View(), Elems(ids));
      if ids == [] {
        return 0;
      }
      EraseRegistered(ids);
      return |ids|;
    }

    /** Unregisters the head. Other instances keep their own index, and so come out of sync. */
    method Drop()
      requires Stocked()
      modifies this, registry`heads
      ensures Valid() && registry.heads == old(registry.heads) - {key}
      ensures Durable() == map[] && View() == map[] && InSync() && indexes == [] && !loaded
    {
      registry.heads := registry.heads - {key};
      docIndex, docCache, indexes, loaded := map[], map[], [], false;
    }

    method CreateIndex(spec: IndexSpec)
      requires Stocked()
      modifies this, store`blocks, registry`heads
      ensures Stocked() && RegistersIndexes(old(BaseIndexes()) + [spec])
      ensures old(Whole()) ==> Whole()
    {
      hide Filed, Coherent, Contents, HeadOk, Registered, RegisteredIndexes, Injective, Named;
      Reload();
      indexes := indexes + [spec];
      PersistMeta();
    }

    /** Removes all descriptors of a name. */
    method DropIndex(name: string)
      requires Stocked()
      modifies this, store`blocks, registry`heads
      ensures Stocked() && RegistersIndexes(Without(old(BaseIndexes()), name))
      ensures old(Whole()) ==> Whole()
    {
      hide Filed, Coherent, Contents, HeadOk, Registered, RegisteredIndexes, Injective, Named;
      Reload();
      indexes := Without(indexes, name);
      PersistMeta();
    }

    /** The documents stay and these descriptors are registered with them. */
    twostate predicate RegistersIndexes(specs: seq<IndexSpec>)
      reads this, store, registry
      requires old(Stocked()) && Stocked()
    {
      && Keeps() && loaded && key in registry.heads
      && View() == old(Base()) == Durable() && indexes == DurableIndexes() == specs
    }

    /** Neither loads nor locks. */
    method ListIndexes() returns (specs: seq<IndexSpec>)
      ensures specs == indexes
    {
      return indexes;
    }
  }

  function Without(specs: seq<IndexSpec>, name: string): (rest: seq<IndexSpec>)
    ensures forall s :: s in rest <==> s in specs && s.name != name
  {
    if specs == [] then []
    else (if specs[0].name == name then [] else [specs[0]]) + Without(specs[1..], name)
  }

  /** Fewer documents are as consistent and as well named. */
  lemma FewerDocuments(m: Documents, ids: set<string>)
    ensures Consistent(m) ==> Consistent(m - ids)
    ensures Named(m) ==> Named(m - ids)
  {
  }

  // ----- the matching ids, one document at a time

  lemma CollectStarts(m: Documents, matches: Document -> bool)
    ensures Distinct<string>([]) && Elems<string>([]) == {} == Hits(m, matches) - m.Keys
  {
  }

  lemma CollectNext(m: Documents, matches: Document -> bool, todo: set<string>, ids: seq<string>, id: string)
    requires id in todo && todo <= m.Keys && Distinct(ids) && Elems(ids) <= m.Keys - todo
    ensures Distinct(ids + [id]) && Elems(ids + [id]) == Elems(ids) + {id} <= m.Keys - (todo - {id})
    ensures Elems(ids) == Hits(m, matches) - todo ==>
      (if matches(m[id]) then Elems(ids + [id]) else Elems(ids)) == Hits(m, matches) - (todo - {id})
    ensures Hits(m, matches) - {} == Hits(m, matches)
  {
    assert id !in Elems(ids) && Elems(ids + [id]) == Elems(ids) + {id};
  }

  // ----- updateMany, one document at a time

  function Written(m: Documents, ids: set<string>, update: Document -> Document): Documents {
    map id | id in m :: if id in ids then update(m[id]) else m[id]
  }

  lemma WrittenNext(m: Documents, ids: seq<string>, i: nat, update: Document -> Document)
    requires Own(m) && Distinct(ids) && Elems(ids) <= m.Keys && i < |ids|
    ensures var n := Written(m, Elems(ids[..i]), update);
      ids[i] in n && OwnName(n[ids[i]], ids[i], n.Keys)
      && Written(m, Elems(ids[..i + 1]), update) == n[ids[i] := update(n[ids[i]])]
  {
    assert ids[i] in Elems(ids) && ids[i] !in Elems(ids[..i]);
    assert Elems(ids[..i + 1]) == Elems(ids[..i]) + {ids[i]};
  }

  lemma WrittenFirst(m: Documents, ids: seq<string>, update: Document -> Document)
    ensures Written(m, Elems(ids[..0]), update) == m && ids[..|ids|] == ids
  {
    assert Elems(ids[..0]) == {};
  }

  lemma WrittenHits(m: Documents, matches: Document -> bool, update: Document -> Document)
    ensures Written(m, Hits(m, matches), update) == Updated(m, matches, update)
    ensures Hits(m, matches) <= m.Keys && (Hits(m, matches) == {} ==> Updated(m, matches, update) == m)
  {
  }

  // ----- find, one document at a time

  /** Outside todo, `skipped` matching documents were passed over and the others picked. */
  ghost predicate Page(
    m: Documents, matches: Document -> bool, todo: set<string>, skip: nat, skipped: nat,
    ids: seq<string>, results: seq<Document>)
  {
    && Distinct(ids) && |ids| == |results| && skipped <= skip && (skipped < skip ==> ids == [])
    && |Hits(m, matches) - todo| == skipped + |ids|
    && forall k :: 0 <= k < |ids| ==> ids[k] in Hits(m, matches) - todo && results[k] == m[ids[k]]
  }

  lemma PageStart(m: Documents, matches: Document -> bool, skip: nat)
    ensures Page(m, matches, m.Keys, skip, 0, [], [])
  {
    assert Hits(m, matches) - m.Keys == {};
  }

  lemma PageNext(
    m: Documents, matches: Document -> bool, todo: set<string>, skip: nat, skipped: nat,
    ids: seq<string>, results: seq<Document>, id: string)
    requires Page(m, matches, todo, skip, skipped, ids, results) && id in todo && id in m
    ensures !matches(m[id]) ==> Page(m, matches, todo - {id}, skip, skipped, ids, results)
    ensures matches(m[id]) && skipped < skip ==> Page(m, matches, todo - {id}, skip, skipped + 1, ids, results)
    ensures matches(m[id]) && skipped == skip ==>
      Page(m, matches, todo - {id}, skip, skipped, ids + [id], results + [m[id]])
    ensures skipped <= skip
  {
    var seen, next := Hits(m, matches) - todo, Hits(m, matches) - (todo - {id});
    if matches(m[id]) {
      assert next == seen + {id};
    } else {
      assert next == seen;
    }
  }

  lemma PageEnd(
    m: Documents, matches: Document -> bool, todo: set<string>, skip: nat, skipped: nat,
    ids: seq<string>, results: seq<Document>, limit: Option<nat>)
    requires Page(m, matches, todo, skip, skipped, ids, results)
    requires (todo == {} && (limit.Some? ==> results == [] || |results| < limit.value))
             || (limit.Some? && results != [] && (|results| == 1 || |results| - 1 < limit.value) && |results| >= limit.value)
    ensures Selects(m, matches, skip, limit, ids, results)
  {
    SubsetSize(Hits(m, matches) - todo, Hits(m, matches));
    assert todo == {} ==> Hits(m, matches) - todo == Hits(m, matches);
  }

  // ----- insertMany, one document at a time

  function Prepend(ids: seq<string>, r: Result<seq<string>, Error>): Result<seq<string>, Error> {
    if r.Ok? then Ok(ids + r.value) else r
  }

  /** Inserting the rest into m completes inserting all the documents into base. */
  ghost predicate Inserting(
    base: Documents, docs: seq<Document>, generated: seq<string>, ids: seq<string>, m: Documents,
    rest: seq<Document>, restGenerated: seq<string>)
  {
    && |docs| == |generated| && |rest| == |restGenerated|
    && forall r, n :: InsertsMany(m, rest, restGenerated, r, n) ==>
      InsertsMany(base, docs, generated, Prepend(ids, r), n)
  }

  lemma InsertBegins(base: Documents, docs: seq<Document>, generated: seq<string>)
    requires |docs| == |generated|
    ensures Inserting(base, docs, generated, [], base, docs[0..], generated[0..])
  {
    assert docs[0..] == docs && generated[0..] == generated;
    forall r, n | InsertsMany(base, docs, generated, r, n) ensures InsertsMany(base, docs, generated, Prepend([], r), n) {
      assert r.Ok? ==> [] + r.value == r.value;
    }
  }

  lemma InsertStops(
    base: Documents, docs: seq<Document>, generated: seq<string>, ids: seq<string>, m: Documents,
    rest: seq<Document>, restGenerated: seq<string>, e: Error)
    requires Inserting(base, docs, generated, ids, m, rest, restGenerated) && rest != []
    requires var id := WithId(rest[0], restGenerated[0]).id;
      if id.Text? then id.value in m && e == DuplicateKey(id.value) else e == IdNotText
    ensures InsertsMany(base, docs, generated, Err(e), m)
  {
    assert InsertsMany(m, rest, restGenerated, Err(e), m);
  }

  lemma InsertEnds(base: Documents, docs: seq<Document>, generated: seq<string>, ids: seq<string>, m: Documents)
    requires Inserting(base, docs, generated, ids, m, [], [])
    ensures InsertsMany(base, docs, generated, Ok(ids), m)
  {
    assert InsertsMany(m, [], [], Ok([]), m);
    assert ids + [] == ids;
  }

  lemma InsertGoesOn(
    base: Documents, docs: seq<Document>, generated: seq<string>, ids: seq<string>, m: Documents,
    rest: seq<Document>, restGenerated: seq<string>)
    requires Inserting(base, docs, generated, ids, m, rest, restGenerated) && rest != []
    requires WithId(rest[0], restGenerated[0]).id.Text? && WithId(rest[0], restGenerated[0]).id.value !in m
    ensures var doc := WithId(rest[0], restGenerated[0]);
      Inserting(base, docs, generated, ids + [doc.id.value], m[doc.id.value := doc], rest[1..], restGenerated[1..])
  {
    var doc := WithId(rest[0], restGenerated[0]);
    var id := doc.id.value;
    forall r, n | InsertsMany(m[id := doc], rest[1..], restGenerated[1..], r, n)
      ensures InsertsMany(base, docs, generated, Prepend(ids + [id], r), n)
    {
      var q := Prepend([id], r);
      if r.Ok? {
        assert q.value[1..] == r.value && ids + q.value == ids + [id] + r.value;
      }
      assert InsertsMany(m, rest, restGenerated, q, n);
      assert Prepend(ids, q) == Prepend(ids + [id], r);
    }
  }
}
