/**
 What happens to reads once an update has given a document another id: it stays where it is indexed, but the cache
 of an instance that reloads files it under the id it names.
 */
module Renaming {
  import opened Collections
  import opened Wrappers

  /** After reading `first` into an empty cache, reading `second` answers with the first document. */
  predicate Misleads(m: Documents, first: string, second: string) {
    && first in m && second in m && m[first] != m[second]
    && m[first].id.Text? && m[first].id.value in m && m[m[first].id.value] == m[second]
  }

  /** Documents under their own ids are consistent, and consistent documents are those that never mislead. */
  lemma NoneMisleads(m: Documents)
    ensures Named(m) ==> Consistent(m)
    ensures Consistent(m) <==> forall a, b :: !Misleads(m, a, b)
  {
    if forall a, b :: !Misleads(m, a, b) {
      forall id | id in m && m[id].id.Text? && m[id].id.value in m ensures m[m[id].id.value] == m[id] {
        assert !Misleads(m, id, m[id].id.value);
      }
    }
  }

  /** The second of two reads is right exactly if the first does not mislead it. */
  method ReadTwice(c: Collection, first: string, second: string) returns (doc: Document)
    requires c.Stocked() && c.docCache == map[] && first in c.docIndex && second in c.docIndex
    modifies c`docCache
    ensures c.Stocked() && c.View() == old(c.View())
    ensures doc == c.View()[if Misleads(c.View(), first, second) then first else second]
  {
    var one := c.LoadDocument(c.docIndex[first], first);
    doc := c.LoadDocument(c.docIndex[second], second);
    if one.id.Text? && one.id.value in c.docIndex {
      SameName(c.store, c.docIndex, one.id.value, second);
    }
  }

  /** All reads after a reload are right, in any order and number, when the documents are consistent. */
  method ReadAll(c: Collection, ids: seq<string>) returns (docs: seq<Document>)
    requires c.Stocked() && c.docCache == map[] && forall k :: 0 <= k < |ids| ==> ids[k] in c.docIndex
    modifies c`docCache
    ensures c.Stocked() && c.View() == old(c.View()) && |docs| == |ids|
    ensures Consistent(c.View()) ==> forall k :: 0 <= k < |ids| ==> docs[k] == c.View()[ids[k]]
  {
    docs := [];
    ghost var view := c.View();
    for i := 0 to |ids|
      invariant c.Stocked() && c.View() == view && |docs| == i
      invariant Consistent(view) ==> c.Whole() && forall k :: 0 <= k < i ==> docs[k] == view[ids[k]]
    {
      var doc := c.LoadDocument(c.docIndex[ids[i]], ids[i]);
      docs := docs + [doc];
    }
  }

  const NAMES_A := (d: Document) => d.id == Text("A")
  const RENAME_B := (d: Document) => d.(id := Text("B"))

  function TwoOf(one: string, two: string): Documents {
    map["A" := Document(Text("A"), one), "B" := Document(Text("B"), two)]
  }

  lemma TwoInserted(one: string, two: string, r: Result<string, Error>, m: Documents, q: Result<string, Error>, n: Documents)
    requires InsertsOne(map[], Document(Text("A"), one), "", r, m) && InsertsOne(m, Document(Text("B"), two), "", q, n)
    ensures r.Ok? && q.Ok? && n == TwoOf(one, two) && Consistent(n)
  {
  }

  /** A new collection of two documents. */
  method TwoDocuments(store: BlockStore, registry: HeadRegistry, key: string, one: string, two: string)
    returns (c: Collection)
    requires store.Valid() && registry.heads == map[]
    modifies store, registry
    ensures fresh(c) && c.store == store && c.registry == registry && c.key == key && c.Ready()
    ensures c.Base() == TwoOf(one, two)
  {
    c := new Collection(key, store, registry);
    assert c.Base() == map[];
    hide Filed, Coherent, Contents, HeadOk, Registered, RegisteredIndexes, Injective, InsertsOne, Consistent, Extends;
    hide Collection.Shared, Collection.View, Collection.Durable, Collection.DurableIndexes;
    var r := c.InsertOne(Document(Text("A"), one), "");
    ghost var m := c.View();
    assert r.Ok? ==> c.Base() == m;
    var q := c.InsertOne(Document(Text("B"), two), "");
    assert InsertsOne(map[], Document(Text("A"), one), "", r, m);
    FirstInserted(Document(Text("A"), one), r, m);
    TwoInserted(one, two, r, m, q, c.View());
  }

  lemma FirstInserted(doc: Document, r: Result<string, Error>, m: Documents)
    requires InsertsOne(map[], doc, "", r, m) && doc.id.Text?
    ensures r.Ok?
  {
  }

  lemma RenamedMisleads(one: string, two: string, count: nat, n: Documents)
    requires one != two
    requires UpdatesOne(TwoOf(one, two), NAMES_A, RENAME_B, count, n)
    ensures count == 1 && n.Keys == {"A", "B"} && n["A"] == Document(Text("B"), one) && Misleads(n, "A", "B")
  {
    var m := TwoOf(one, two);
    assert Hit(m, NAMES_A, "A") && !Hit(m, NAMES_A, "B");
  }

  /** Two documents, the first renamed to the second's id: a new instance that reads both gets the first one twice. */
  method Renamed(hash: Block -> string, key: string, one: string, two: string) returns (doc: Document)
    requires Injective(hash) && one != two
    ensures doc == Document(Text("B"), one)
  {
    hide Filed, Coherent, Contents, HeadOk, RegisteredIndexes, Injective, UpdatesOne, Misleads, Registered;
    hide Named, Consistent, TwoOf;
    var store := new BlockStore(hash);
    var registry := new HeadRegistry();
    var c := TwoDocuments(store, registry, key, one, two);
    var count := c.UpdateOne(NAMES_A, RENAME_B);
    RenamedMisleads(one, two, count, c.View());
    var another := new Collection(key, store, registry);
    another.LoadFromStore();
    doc := ReadTwice(another, "A", "B");
  }
}
