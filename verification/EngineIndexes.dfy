/** The indexes of all collections as the engine keeps them (crates/nova-server/src/engine.rs), as values. */
module EngineIndexes {
  import opened Core
  import opened Documents
  import opened DocumentIds
  import opened Indexes
  import opened Planner
  import opened EngineState

  // ---- the index managers of a collection, as values ----

  function MgrInserted(mgr: Manager, doc: Document): Manager {
    map n | n in mgr :: mgr[n].(entries := DocInserted(mgr[n].entries, mgr[n].field, doc))
  }

  function MgrUpdated(mgr: Manager, before: Document, after: Document): Manager {
    map n | n in mgr :: mgr[n].(entries := DocUpdated(mgr[n].entries, mgr[n].field, before, after))
  }

  function MgrRemoved(mgr: Manager, doc: Document): Manager {
    map n | n in mgr :: mgr[n].(entries := DocRemoved(mgr[n].entries, mgr[n].field, doc))
  }

  function MgrOf(indexes: map<CollectionKey, Manager>, key: CollectionKey): Manager {
    if key in indexes then indexes[key] else map[]
  }

  /** The name `execute_create_index` gives an index. */
  function IndexName(coll: string, field: string): string {
    "idx_" + coll + "_" + field
  }

  lemma IndexNameInjective(coll: string, a: string, b: string)
    requires IndexName(coll, a) == IndexName(coll, b)
    ensures a == b
  {
    var prefix := "idx_" + coll + "_";
    assert IndexName(coll, a)[|prefix|..] == a && IndexName(coll, b)[|prefix|..] == b;
  }

  /** `find_index_for_field` in a manager filled by `execute_create_index`: the name tells the field. */
  function FinderOf(mgr: Manager, coll: string): Finder {
    field =>
      var name := IndexName(coll, field);
      if name in mgr && mgr[name].field == field then Some(IndexRef(name, mgr[name].kind)) else None
  }

  /** Every index is filed under the name of its field. */
  ghost predicate ProperlyNamed(mgr: Manager, coll: string) {
    forall n :: n in mgr ==> n == IndexName(coll, mgr[n].field)
  }

  lemma FinderConsistent(mgr: Manager, coll: string)
    ensures Consistent(FinderOf(mgr, coll), mgr)
    ensures ProperlyNamed(mgr, coll) ==>
              forall n :: n in mgr ==> FinderOf(mgr, coll)(mgr[n].field) == Some(IndexRef(n, mgr[n].kind))
  {
  }

  ghost predicate ManagerExact(mgr: Manager, coll: string, store: Store) {
    ExactIndexes(mgr, store) && ProperlyNamed(mgr, coll)
  }

  lemma InsertedExact(mgr: Manager, coll: string, store: Store, doc: Document)
    requires ManagerExact(mgr, coll, store) && doc.id !in store
    ensures ManagerExact(MgrInserted(mgr, doc), coll, store[doc.id := doc])
  {
    hide IsDocumentId;
    hide DocInserted;
    hide EntriesOf;
    hide IndexName;
    forall n | n in mgr
      ensures MgrInserted(mgr, doc)[n].entries == EntriesOf(store[doc.id := doc], mgr[n].field)
    {
      InsertKeepsExact(store, mgr[n].field, doc);
    }
  }

  lemma UpdatedExact(mgr: Manager, coll: string, store: Store, after: Document)
    requires ManagerExact(mgr, coll, store) && after.id in store && store[after.id].id == after.id
    requires ExactDocument(store[after.id]) && ExactDocument(after)
    ensures ManagerExact(MgrUpdated(mgr, store[after.id], after), coll, store[after.id := after])
  {
    hide IsDocumentId;
    hide ExactDocument;
    hide DocUpdated;
    hide EntriesOf;
    hide IndexName;
    forall n | n in mgr
      ensures MgrUpdated(mgr, store[after.id], after)[n].entries == EntriesOf(store[after.id := after], mgr[n].field)
    {
      UpdateKeepsExact(store, mgr[n].field, after);
    }
  }

  lemma RemovedExact(mgr: Manager, coll: string, store: Store, id: DocumentId)
    requires ManagerExact(mgr, coll, store) && id in store && store[id].id == id
    ensures ManagerExact(MgrRemoved(mgr, store[id]), coll, store - {id})
  {
    hide IsDocumentId;
    hide DocRemoved;
    hide EntriesOf;
    hide IndexName;
    forall n | n in mgr
      ensures MgrRemoved(mgr, store[id])[n].entries == EntriesOf(store - {id}, mgr[n].field)
    {
      RemoveKeepsExact(store, mgr[n].field, id);
    }
  }

  /** Every index holds exactly what its collection's documents say, all of them exact values. */
  ghost predicate AllIndexed(collections: Collections, indexes: map<CollectionKey, Manager>) {
    && (forall key :: key in collections ==> ExactStore(collections[key]))
    && (forall key :: key in indexes ==> ManagerExact(indexes[key], key.1, StoreOf(collections, key)))
  }

  ghost predicate AllExact(collections: Collections) {
    forall key :: key in collections ==> ExactStore(collections[key])
  }

  /** A manager without indexes for every collection. */
  function NoIndexes(collections: Collections): map<CollectionKey, Manager> {
    map key | key in collections :: map[]
  }

  /** Where there is no index, all of them are exact. */
  lemma NoIndexesExact(collections: Collections)
    requires AllExact(collections)
    ensures AllIndexed(collections, NoIndexes(collections))
  {
    hide IsDocumentId;
    hide ExactStore;
  }

  /** One collection and its indexes change together. */
  lemma ReplaceCollection(collections: Collections, indexes: map<CollectionKey, Manager>, key: CollectionKey, store: Store, mgr: Manager)
    requires AllIndexed(collections, indexes) && ExactStore(store) && ManagerExact(mgr, key.1, store)
    ensures AllIndexed(collections[key := store], indexes[key := mgr])
  {
    hide IsDocumentId;
    hide ExactStore;
    hide ManagerExact;
    forall k | k in indexes && k != key
      ensures ManagerExact(indexes[k], k.1, StoreOf(collections[key := store], k))
    {
      assert StoreOf(collections[key := store], k) == StoreOf(collections, k);
    }
  }

  /** A collection without indexes has exact ones. */
  lemma ManagerOfExact(collections: Collections, indexes: map<CollectionKey, Manager>, key: CollectionKey)
    requires AllIndexed(collections, indexes)
    ensures ExactStore(StoreOf(collections, key)) && ManagerExact(MgrOf(indexes, key), key.1, StoreOf(collections, key))
  {
    hide IsDocumentId;
    hide ExactDocument;
    hide EntriesOf;
  }

  lemma InsertKeepsIndexed(collections: Collections, indexes: map<CollectionKey, Manager>, key: CollectionKey, doc: Document)
    requires AllIndexed(collections, indexes) && doc.id !in StoreOf(collections, key) && ExactDocument(doc)
    ensures AllIndexed(WithDocument(collections, key, doc), indexes[key := MgrInserted(MgrOf(indexes, key), doc)])
  {
    hide IsDocumentId;
    hide ExactDocument;
    hide ManagerExact;
    hide AllIndexed;
    hide MgrInserted;
    ManagerOfExact(collections, indexes, key);
    InsertedExact(MgrOf(indexes, key), key.1, StoreOf(collections, key), doc);
    ReplaceCollection(collections, indexes, key, StoreOf(collections, key)[doc.id := doc], MgrInserted(MgrOf(indexes, key), doc));
  }

  lemma UpdateKeepsIndexed(collections: Collections, indexes: map<CollectionKey, Manager>, key: CollectionKey, after: Document)
    requires AllIndexed(collections, indexes) && AllWellKeyed(collections) && after.id in StoreOf(collections, key) && ExactDocument(after)
    ensures AllIndexed(WithDocument(collections, key, after),
                       indexes[key := MgrUpdated(MgrOf(indexes, key), StoreOf(collections, key)[after.id], after)])
  {
    hide IsDocumentId;
    hide ExactDocument;
    hide ManagerExact;
    hide MgrUpdated;
    var store := StoreOf(collections, key);
    ManagerOfExact(collections, indexes, key);
    hide AllIndexed;
    UpdatedExact(MgrOf(indexes, key), key.1, store, after);
    ReplaceCollection(collections, indexes, key, store[after.id := after], MgrUpdated(MgrOf(indexes, key), store[after.id], after));
  }

  lemma RemoveKeepsIndexed(collections: Collections, indexes: map<CollectionKey, Manager>, key: CollectionKey, id: DocumentId)
    requires AllIndexed(collections, indexes) && AllWellKeyed(collections) && id in StoreOf(collections, key)
    ensures AllIndexed(WithoutDocument(collections, key, id),
                       indexes[key := MgrRemoved(MgrOf(indexes, key), StoreOf(collections, key)[id])])
  {
    hide IsDocumentId;
    hide ExactDocument;
    hide ManagerExact;
    hide MgrRemoved;
    var store: Store := StoreOf(collections, key);
    ManagerOfExact(collections, indexes, key);
    hide AllIndexed;
    RemovedExact(MgrOf(indexes, key), key.1, store, id);
    var rest: Store := store - {id};
    ReplaceCollection(collections, indexes, key, rest, MgrRemoved(MgrOf(indexes, key), store[id]));
  }

  lemma CreateKeepsIndexed(collections: Collections, indexes: map<CollectionKey, Manager>, key: CollectionKey, index: Index)
    requires AllIndexed(collections, indexes) && index.entries == EntriesOf(StoreOf(collections, key), index.field)
    ensures AllIndexed(collections, indexes[key := MgrOf(indexes, key)[IndexName(key.1, index.field) := index]])
  {
    hide IsDocumentId;
    hide ExactDocument;
    hide EntriesOf;
    hide IndexName;
    ManagerOfExact(collections, indexes, key);
    hide ExactStore;
    var mgr := MgrOf(indexes, key)[IndexName(key.1, index.field) := index];
    assert ManagerExact(mgr, key.1, StoreOf(collections, key));
    hide ManagerExact;
  }

  lemma DropKeepsIndexed(collections: Collections, indexes: map<CollectionKey, Manager>, key: CollectionKey, name: string)
    requires AllIndexed(collections, indexes) && key in indexes
    ensures AllIndexed(collections, indexes[key := indexes[key] - {name}])
  {
    hide IsDocumentId;
    hide ExactDocument;
    hide EntriesOf;
    hide IndexName;
    hide ExactStore;
    assert ManagerExact(indexes[key] - {name}, key.1, StoreOf(collections, key)) by {
      assert ManagerExact(indexes[key], key.1, StoreOf(collections, key));
    }
    hide ManagerExact;
  }

  /** Filling a new index from the stored documents. */
  method BuildIndex(store: Store, field: string) returns (entries: Entries)
    requires WellKeyed(store)
    ensures entries == EntriesOf(store, field)
  {
    hide IsDocumentId;
    hide EntriesOf;
    hide DocInserted;
    entries := map[];
    EmptyStoreEmptyIndex();
    var todo := store.Keys;
    ghost var done: Store := map[];
    while todo != {}
      invariant todo <= store.Keys
      invariant forall id :: id in done <==> id in store && id !in todo
      invariant forall id :: id in done ==> done[id] == store[id]
      invariant entries == EntriesOf(done, field)
      decreases todo
    {
      var id :| id in todo;
      entries := DocInserted(entries, field, store[id]);
      InsertKeepsExact(done, field, store[id]);
      todo := todo - {id};
      done := done[id := store[id]];
    }
    assert done == store;
  }
}
