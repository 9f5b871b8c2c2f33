/**
 Secondary indexes (crates/nova-index/src/ordered.rs, hash.rs, traits.rs, manager.rs). A B-tree map
 identifies keys that compare `Equal`, a hash map keys that are `==` and hash alike; on the values
 where those relations agree (`ValueLaws.Coherent`) both are the identity of canonical forms, so the
 entries are a map over canonical keys.
 */
module Indexes {
  import opened Core
  import opened Values
  import opened ValueLaws
  import opened Documents
  import opened DocumentIds
  import opened Grouping

  type Entries = map<Value, set<DocumentId>>

  datatype Kind = HashKind | OrderedKind

  datatype IndexType = HashType | OrderedType | PrimaryKeyType

  function KindOf(t: IndexType): Kind {
    if t.HashType? then HashKind else OrderedKind
  }

  datatype Bound = Unbounded | Included(value: Value) | Excluded(value: Value)

  datatype IndexRange = IndexRange(start: Bound, end: Bound)

  // ---- what the notifications do to the entries of one index ----

  /** `on_insert` for one index. */
  function DocInserted(e: Entries, field: string, doc: Document): Entries {
    match FieldValue(doc, field)
    case Some(v) => Add(e, Canon(v), doc.id)
    case None => e
  }

  /** `on_remove` for one index. */
  function DocRemoved(e: Entries, field: string, doc: Document): Entries {
    match FieldValue(doc, field)
    case Some(v) => Drop(e, Canon(v), doc.id)
    case None => e
  }

  predicate SameOption(a: Option<Value>, b: Option<Value>) {
    match (a, b)
    case (Some(x), Some(y)) => Eq(x, y)
    case (_, _) => a.None? && b.None?
  }

  /** `on_update` for one index: nothing happens if the two values are `==`. */
  function DocUpdated(e: Entries, field: string, before: Document, after: Document): Entries {
    if SameOption(FieldValue(before, field), FieldValue(after, field)) then e
    else DocInserted(DocRemoved(e, field, before), field, after)
  }

  // ---- what an index should hold ----

  function IndexKey(doc: Document, field: string): Option<Value> {
    match FieldValue(doc, field)
    case Some(v) => Some(Canon(v))
    case None => None
  }

  predicate WellKeyed(store: Store) {
    forall id :: id in store ==> store[id].id == id
  }

  /** The canonical value of the field, for the documents that have it. */
  function KeyMap(store: Store, field: string): map<DocumentId, Value> {
    map id | id in store && IndexKey(store[id], field).Some? :: IndexKey(store[id], field).value
  }

  /** The exact index of a store: under each key the documents that have it, and no empty entry. */
  function EntriesOf(store: Store, field: string): Entries {
    Group(KeyMap(store, field))
  }

  // ---- every operation keeps the index exact ----

  lemma InsertKeepsExact(store: Store, field: string, doc: Document)
    requires doc.id !in store
    ensures DocInserted(EntriesOf(store, field), field, doc) == EntriesOf(store[doc.id := doc], field)
  {
    hide IsDocumentId;
    hide FieldValue;
    hide Canon;
    var (keys, keys') := (KeyMap(store, field), KeyMap(store[doc.id := doc], field));
    match FieldValue(doc, field) {
      case Some(v) =>
        assert keys' == keys[doc.id := Canon(v)];
        AddKeepsGroups(keys, doc.id, Canon(v));
      case None =>
        assert keys' == keys;
    }
  }

  lemma RemoveKeepsExact(store: Store, field: string, id: DocumentId)
    requires id in store && store[id].id == id
    ensures DocRemoved(EntriesOf(store, field), field, store[id]) == EntriesOf(store - {id}, field)
  {
    hide IsDocumentId;
    hide FieldValue;
    hide Canon;
    var (keys, keys') := (KeyMap(store, field), KeyMap(store - {id}, field));
    match FieldValue(store[id], field) {
      case Some(v) =>
        assert keys' == keys - {id};
        DropKeepsGroups(keys, id);
      case None =>
        assert keys' == keys;
    }
  }

  /** Every value in the document is one on which equality, order and hash agree. */
  predicate ExactDocument(doc: Document) {
    forall f :: f in doc.fields ==> Exact(f.value)
  }

  lemma {:induction false} GetExact(fields: seq<Field>, key: string)
    requires forall f :: f in fields ==> Exact(f.value)
    ensures Get(fields, key).Some? ==> Exact(Get(fields, key).value)
  {
    if fields != [] && fields[0].key != key {
      GetExact(fields[1..], key);
    }
  }

  lemma {:induction false} WalkExact(v: Value, parts: seq<string>)
    requires Exact(v)
    ensures Walk(v, parts).Some? ==> Exact(Walk(v, parts).value)
    decreases |parts|
  {
    if parts != [] && v.Object? {
      GetExact(v.fields, parts[0]);
      match Get(v.fields, parts[0]) {
        case Some(inner) => WalkExact(inner, parts[1..]);
        case None =>
      }
    }
  }

  lemma FieldValueExact(doc: Document, field: string)
    requires ExactDocument(doc)
    ensures FieldValue(doc, field).Some? ==> Exact(FieldValue(doc, field).value)
  {
    GetExact(doc.fields, field);
    var parts := SplitDots(field);
    GetExact(doc.fields, parts[0]);
    match Get(doc.fields, parts[0]) {
      case Some(v) => WalkExact(v, parts[1..]);
      case None =>
    }
  }

  /** The update's shortcut for equal values is sound, because equal exact values share their key. */
  lemma SameOptionSameKey(before: Document, after: Document, field: string)
    requires ExactDocument(before) && ExactDocument(after)
    requires SameOption(FieldValue(before, field), FieldValue(after, field))
    ensures IndexKey(before, field) == IndexKey(after, field)
  {
    FieldValueExact(before, field);
    FieldValueExact(after, field);
    if FieldValue(before, field).Some? {
      EqCanon(FieldValue(before, field).value, FieldValue(after, field).value);
    }
  }

  lemma UpdateKeepsExact(store: Store, field: string, after: Document)
    requires after.id in store && store[after.id].id == after.id
    requires ExactDocument(store[after.id]) && ExactDocument(after)
    ensures DocUpdated(EntriesOf(store, field), field, store[after.id], after) == EntriesOf(store[after.id := after], field)
  {
    hide IsDocumentId;
    hide FieldValue;
    hide Canon;
    var id := after.id;
    if SameOption(FieldValue(store[id], field), FieldValue(after, field)) {
      SameOptionSameKey(store[id], after, field);
      assert KeyMap(store[id := after], field) == KeyMap(store, field);
    } else {
      hide EntriesOf;
      RemoveKeepsExact(store, field, id);
      InsertKeepsExact(store - {id}, field, after);
      assert (store - {id})[id := after] == store[id := after];
    }
  }

  function WithField(store: Store, field: string): set<DocumentId> {
    set id | id in store && FieldValue(store[id], field).Some?
  }

  /** An exact index lists every document that has the field exactly once, so its length is their number. */
  lemma LengthCountsDocuments(store: Store, field: string)
    ensures Bag(EntriesOf(store, field)) == multiset(WithField(store, field))
    ensures |Bag(EntriesOf(store, field))| == |WithField(store, field)|
  {
    hide IsDocumentId;
    hide FieldValue;
    BagOfGroup(KeyMap(store, field));
    assert KeyMap(store, field).Keys == WithField(store, field);
  }

  lemma EmptyStoreEmptyIndex()
    ensures forall field: string :: EntriesOf(map[], field) == map[]
  {
    forall field: string ensures EntriesOf(map[], field) == map[] {
      assert KeyMap(map[], field) == map[];
    }
  }
}
