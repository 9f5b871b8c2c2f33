/**
 One index under concurrent statements. An insert stores its document in one step and tells the
 indexes in a later one (crates/nova-server/src/engine.rs, `execute_insert`), so updates and removals
 may come in between.
 */
module IndexRaces {
  import opened Core
  import opened Values
  import opened ValueLaws
  import opened Documents
  import opened DocumentIds
  import opened Grouping
  import opened Indexes
  import opened Planner

  predicate Listed(e: Entries, field: string, doc: Document) {
    match IndexKey(doc, field)
    case Some(k) => doc.id in At(e, k)
    case None => true
  }

  /** An id listed under a key. */
  type Entry = (Value, DocumentId)

  predicate Current(store: Store, field: string, k: Value, id: DocumentId) {
    id in store && IndexKey(store[id], field) == Some(k)
  }

  /**
   Every stored document is listed under its current key, unless its own insert is still to do so; and
   `stale` are exactly the entries under keys that are not the document's current one.
   */
  ghost predicate RaceInv(e: Entries, field: string, store: Store, waiting: Store, stale: set<Entry>) {
    && NoEmptyGroup(e)
    && (forall id :: id in store ==>
          Listed(e, field, store[id]) || (id in waiting && IndexKey(waiting[id], field) == IndexKey(store[id], field)))
    && (forall k, id :: (k, id) in stale <==> id in At(e, k) && !Current(store, field, k, id))
  }

  /** Documents are filed under their ids, and those stored have exact values. */
  ghost predicate WaitingInv(store: Store, waiting: Store) {
    WellKeyed(store) && WellKeyed(waiting) && ExactStore(store)
  }

  /** When a document is stored or updated, an entry under its new key is no longer stale. */
  function Freshened(stale: set<Entry>, field: string, doc: Document): set<Entry> {
    match IndexKey(doc, field)
    case Some(k) => stale - {(k, doc.id)}
    case None => stale
  }

  /** The index step of an insert makes an entry that is stale at once unless the key of the first version is still current. */
  function Staled(stale: set<Entry>, field: string, store: Store, doc: Document): set<Entry> {
    match IndexKey(doc, field)
    case Some(k) => if Current(store, field, k, doc.id) then stale else stale + {(k, doc.id)}
    case None => stale
  }

  lemma StoreStep(e: Entries, field: string, store: Store, waiting: Store, stale: set<Entry>, doc: Document)
    requires RaceInv(e, field, store, waiting, stale) && doc.id !in store
    ensures RaceInv(e, field, store[doc.id := doc], waiting[doc.id := doc], Freshened(stale, field, doc))
  {
    hide IsDocumentId;
    hide IndexKey;
  }

  lemma IndexStep(e: Entries, field: string, store: Store, waiting: Store, stale: set<Entry>, id: DocumentId)
    requires RaceInv(e, field, store, waiting, stale) && WaitingInv(store, waiting) && id in waiting
    ensures RaceInv(DocInserted(e, field, waiting[id]), field, store, waiting - {id}, Staled(stale, field, store, waiting[id]))
  {
    hide IsDocumentId;
    hide FieldValue;
    hide Canon;
    hide ExactDocument;
    match FieldValue(waiting[id], field) {
      case Some(v) => AtAdd(e, Canon(v), id);
      case None =>
    }
  }

  /** An update that changes the key moves the id from the old group to the new one. */
  lemma UpdatedAt(e: Entries, field: string, before: Document, after: Document)
    requires before.id == after.id && !SameOption(FieldValue(before, field), FieldValue(after, field))
    ensures var e' := DocUpdated(e, field, before, after);
            && (NoEmptyGroup(e) ==> NoEmptyGroup(e'))
            && forall k, id :: id in At(e', k) <==>
                 (id == after.id && IndexKey(after, field) == Some(k))
                 || (id in At(e, k) && !(id == after.id && IndexKey(before, field) == Some(k)))
  {
    hide IsDocumentId;
    hide FieldValue;
    hide Canon;
    hide SameOption;
    if IndexKey(before, field).Some? { AtDrop(e, IndexKey(before, field).value, after.id); }
    if IndexKey(after, field).Some? { AtAdd(DocRemoved(e, field, before), IndexKey(after, field).value, after.id); }
  }

  lemma SameKeyStep(e: Entries, field: string, store: Store, waiting: Store, stale: set<Entry>, after: Document)
    requires RaceInv(e, field, store, waiting, stale) && after.id in store && store[after.id].id == after.id
    requires IndexKey(store[after.id], field) == IndexKey(after, field)
    ensures RaceInv(e, field, store[after.id := after], waiting, stale)
    ensures Freshened(stale, field, after) == stale
  {
    hide IsDocumentId;
    hide IndexKey;
  }

  lemma NewKeyStep(e: Entries, e': Entries, field: string, store: Store, waiting: Store, stale: set<Entry>, after: Document)
    requires RaceInv(e, field, store, waiting, stale) && WellKeyed(store) && after.id in store && NoEmptyGroup(e')
    requires forall k, id :: id in At(e', k) <==>
                 (id == after.id && IndexKey(after, field) == Some(k))
                 || (id in At(e, k) && !(id == after.id && IndexKey(store[after.id], field) == Some(k)))
    ensures RaceInv(e', field, store[after.id := after], waiting, Freshened(stale, field, after))
  {
    hide IsDocumentId;
    hide IndexKey;
  }

  lemma UpdateStep(e: Entries, field: string, store: Store, waiting: Store, stale: set<Entry>, after: Document)
    requires RaceInv(e, field, store, waiting, stale) && WaitingInv(store, waiting)
    requires after.id in store && ExactDocument(after)
    ensures RaceInv(DocUpdated(e, field, store[after.id], after), field, store[after.id := after], waiting, Freshened(stale, field, after))
  {
    hide IsDocumentId;
    hide RaceInv;
    hide Freshened;
    var before := store[after.id];
    if SameOption(FieldValue(before, field), FieldValue(after, field)) {
      SameOptionSameKey(before, after, field);
      hide IndexKey;
      SameKeyStep(e, field, store, waiting, stale, after);
    } else {
      hide SameOption;
      assert NoEmptyGroup(e) by { RaceNoEmpty(e, field, store, waiting, stale); }
      UpdatedAt(e, field, before, after);
      NewKeyStep(e, DocUpdated(e, field, before, after), field, store, waiting, stale, after);
    }
  }

  lemma RaceNoEmpty(e: Entries, field: string, store: Store, waiting: Store, stale: set<Entry>)
    requires RaceInv(e, field, store, waiting, stale)
    ensures NoEmptyGroup(e)
  {
  }

  lemma RemoveStep(e: Entries, field: string, store: Store, waiting: Store, stale: set<Entry>, id: DocumentId)
    requires RaceInv(e, field, store, waiting, stale) && WaitingInv(store, waiting) && id in store
    ensures RaceInv(DocRemoved(e, field, store[id]), field, store - {id}, waiting, stale)
  {
    hide IsDocumentId;
    hide FieldValue;
    hide Canon;
    hide ExactDocument;
    if IndexKey(store[id], field).Some? { AtDrop(e, IndexKey(store[id], field).value, id); }
  }

  lemma BuildStep(field: string, store: Store, waiting: Store)
    requires WellKeyed(store)
    ensures RaceInv(EntriesOf(store, field), field, store, waiting, {})
  {
    hide IsDocumentId;
    hide IndexKey;
    var keys := KeyMap(store, field);
    forall k: Value
      ensures At(EntriesOf(store, field), k) == Members(keys, k) && NoEmptyGroup(EntriesOf(store, field))
    {
      GroupAt(keys, k);
    }
  }

  /** With no insert in between, the index is the exact one exactly if it has no stale entry. */
  lemma QuietIsExact(e: Entries, field: string, store: Store, stale: set<Entry>)
    requires RaceInv(e, field, store, map[], stale) && WellKeyed(store)
    ensures e == EntriesOf(store, field) <==> stale == {}
  {
    hide IsDocumentId;
    hide IndexKey;
    if stale == {} {
      var keys := KeyMap(store, field);
      forall k: Value
        ensures At(e, k) == At(Group(keys), k) && NoEmptyGroup(Group(keys))
      {
        GroupAt(keys, k);
        assert forall id :: id in At(e, k) ==> (k, id) !in stale;
        assert forall id :: id in At(e, k) <==> id in Members(keys, k);
      }
      SameGroups(e, Group(keys));
    } else {
      var entry :| entry in stale;
      assert (entry.0, entry.1) in stale;
      ExactlyListed(store, field, entry.1, entry.0);
    }
  }

  /**
   The race itself: an update between the store step and the index step leaves the document listed
   under its first key as well, so a range scan over both keys lists it twice.
   */
  lemma {:induction false} StaleEntry(e: Entries, field: string, doc: Document, after: Document)
    requires after.id == doc.id && IndexKey(doc, field).Some?
    requires !SameOption(FieldValue(doc, field), FieldValue(after, field))
    ensures var raced := DocInserted(DocUpdated(e, field, doc, after), field, doc);
            && doc.id in At(raced, IndexKey(doc, field).value)
            && (IndexKey(after, field).Some? ==> doc.id in At(raced, IndexKey(after, field).value))
  {
    hide IsDocumentId;
    hide FieldValue;
    hide Canon;
    hide SameOption;
    var k := IndexKey(doc, field).value;
    AtDrop(e, k, doc.id);
    if IndexKey(after, field).Some? { AtAdd(DocRemoved(e, field, doc), IndexKey(after, field).value, doc.id); }
    AtAdd(DocUpdated(e, field, doc, after), k, doc.id);
  }

  lemma ExactlyListed(store: Store, field: string, id: DocumentId, k: Value)
    ensures id in At(EntriesOf(store, field), k) <==> Current(store, field, k, id)
  {
    hide IsDocumentId;
    hide IndexKey;
    GroupAt(KeyMap(store, field), k);
  }

  lemma SameKeySameOption(before: Document, after: Document, field: string)
    requires ExactDocument(before) && ExactDocument(after)
    ensures IndexKey(before, field) == IndexKey(after, field) <==> SameOption(FieldValue(before, field), FieldValue(after, field))
  {
    FieldValueExact(before, field);
    FieldValueExact(after, field);
    hide ExactDocument;
    hide FieldValue;
    if FieldValue(before, field).Some? && FieldValue(after, field).Some? {
      EqCanon(FieldValue(before, field).value, FieldValue(after, field).value);
    }
  }

  /**
   An insert whose index step an update overtook: the index is exact afterwards exactly if the first
   version of the document had no such field, or an equal value in it.
   */
  lemma {:induction false} OvertakenByUpdate(store: Store, field: string, doc: Document, after: Document)
    requires doc.id !in store && after.id == doc.id && ExactDocument(doc) && ExactDocument(after)
    ensures DocInserted(DocUpdated(EntriesOf(store, field), field, doc, after), field, doc) == EntriesOf(store[doc.id := after], field)
            <==> FieldValue(doc, field).None? || SameOption(FieldValue(doc, field), FieldValue(after, field))
  {
    hide IsDocumentId;
    SameKeySameOption(doc, after, field);
    hide ExactDocument;
    hide SameOption;
    hide FieldValue;
    hide Canon;
    var e := EntriesOf(store, field);
    InsertKeepsExact(store, field, after);
    if !SameOption(FieldValue(doc, field), FieldValue(after, field)) && FieldValue(doc, field).Some? {
      var k := IndexKey(doc, field).value;
      StaleEntry(e, field, doc, after);
      ExactlyListed(store[doc.id := after], field, doc.id, k);
    }
    hide EntriesOf;
  }

  /** An insert whose index step a removal overtook: exact afterwards exactly if the document had no such field. */
  lemma {:induction false} OvertakenByRemoval(store: Store, field: string, doc: Document)
    requires doc.id !in store
    ensures DocInserted(DocRemoved(EntriesOf(store, field), field, doc), field, doc) == EntriesOf(store, field)
            <==> FieldValue(doc, field).None?
  {
    hide IsDocumentId;
    hide FieldValue;
    hide Canon;
    var e := EntriesOf(store, field);
    if FieldValue(doc, field).Some? {
      var k := IndexKey(doc, field).value;
      AtAdd(DocRemoved(e, field, doc), k, doc.id);
      GroupAt(KeyMap(store, field), k);
    }
  }

  /** An overtaken insert is healed by a later update back to the first version: its stale entry is then the current one. */
  lemma HealedLater(store: Store, field: string, doc: Document, after: Document)
    requires WellKeyed(store) && ExactStore(store) && doc.id !in store && after.id == doc.id && ExactDocument(doc) && ExactDocument(after)
    ensures var raced := DocInserted(DocUpdated(EntriesOf(store, field), field, doc, after), field, doc);
            DocUpdated(raced, field, after, doc) == EntriesOf(store[doc.id := doc], field)
  {
    hide IsDocumentId;
    hide RaceInv;
    hide EntriesOf;
    hide ExactDocument;
    hide DocUpdated;
    hide DocInserted;
    hide Freshened;
    hide Staled;
    var id := doc.id;
    var (e, stored, changed, waiting) := (EntriesOf(store, field), store[id := doc], store[id := after], map[id := doc]);
    assert stored[id := after] == changed && changed[id := doc] == stored;
    assert waiting - {id} == map[] && map[][id := doc] == waiting;
    BuildStep(field, store, map[]);
    StoreStep(e, field, store, map[], {}, doc);
    var s1 := Freshened({}, field, doc);
    UpdateStep(e, field, stored, waiting, s1, after);
    var s2 := Freshened(s1, field, after);
    var updated := DocUpdated(e, field, doc, after);
    IndexStep(updated, field, changed, waiting, s2, id);
    var s3 := Staled(s2, field, changed, doc);
    var raced := DocInserted(updated, field, doc);
    UpdateStep(raced, field, changed, map[], s3, doc);
    FreshAgain(field, changed, doc, after);
    QuietIsExact(DocUpdated(raced, field, after, doc), field, stored, Freshened(s3, field, doc));
  }

  lemma FreshAgain(field: string, store: Store, doc: Document, after: Document)
    ensures Freshened(Staled(Freshened(Freshened({}, field, doc), field, after), field, store, doc), field, doc) == {}
  {
    hide IsDocumentId;
    hide IndexKey;
    hide Current;
  }
}
