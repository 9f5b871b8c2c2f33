/**
 Concurrent statements (crates/nova-server/src/engine.rs). `execute_insert` is four separate steps:
 check the id, append to the log, store, tell the indexes; any step of any other statement may come in
 between. UPDATE and REMOVE hold both write locks, so what they do to one document is a single step, and
 so is building or dropping an index.
 */
module Interleaving {
  import opened Core
  import opened Values
  import opened Documents
  import opened DocumentIds
  import opened Json
  import opened Indexes
  import opened IndexRaces
  import opened Planner
  import opened NbfFormat
  import opened EngineState
  import opened EngineIndexes

  /**
   The shared state, and the inserts in flight by the step they have reached. `stale` is a history
   variable: for each index, the entries that an index step made under a key that was no longer the
   document's, until the document is stored or updated with that key again or the index is rebuilt.
   */
  datatype System = System(
    memory: Collections,
    managers: map<CollectionKey, Manager>,
    records: seq<NbfRecord>,
    checked: Collections,
    logged: Collections,
    stored: Collections,
    stale: map<CollectionKey, map<string, set<Entry>>>)

  datatype Step =
    | CheckInsert(key: CollectionKey, doc: Document)
    | LogInsert(key: CollectionKey, id: DocumentId, r: NbfRecord)
    | RefuseInsert(key: CollectionKey, id: DocumentId)
    | StoreInsert(key: CollectionKey, id: DocumentId)
    | IndexInsert(key: CollectionKey, id: DocumentId)
    | UpdateDoc(key: CollectionKey, after: Document, r: NbfRecord)
    | RemoveDoc(key: CollectionKey, id: DocumentId, r: NbfRecord)
    | CreateIndex(key: CollectionKey, field: string, kind: Kind)
    | DropIndex(key: CollectionKey, field: string)

  /** Everything about one collection. */
  datatype View = View(store: Store, mgr: Manager, checked: Store, logged: Store, stored: Store, stale: map<string, set<Entry>>)

  function StaleOf(s: System, key: CollectionKey): map<string, set<Entry>> {
    if key in s.stale then s.stale[key] else map[]
  }

  function StaleIn(stale: map<string, set<Entry>>, name: string): set<Entry> {
    if name in stale then stale[name] else {}
  }

  function ViewOf(s: System, key: CollectionKey): View {
    View(StoreOf(s.memory, key), MgrOf(s.managers, key), StoreOf(s.checked, key), StoreOf(s.logged, key),
         StoreOf(s.stored, key), StaleOf(s, key))
  }

  /** No insert of the id is in flight. */
  predicate Idle(v: View, id: DocumentId) {
    id !in v.checked && id !in v.logged && id !in v.stored
  }

  predicate Enabled(codec: Codec, s: System, step: Step) {
    var v := ViewOf(s, step.key);
    match step
    case CheckInsert(_, doc) => doc.id !in v.store && Idle(v, doc.id)
    case LogInsert(key, id, r) => id in v.checked && r.recordType == Insert && IsPutRecord(codec, r, key, v.checked[id])
    case RefuseInsert(_, id) => id in v.checked
    case StoreInsert(_, id) => id in v.logged
    case IndexInsert(_, id) => id in v.stored
    case UpdateDoc(key, after, r) => after.id in v.store && r.recordType == Update && IsPutRecord(codec, r, key, after)
    case RemoveDoc(key, id, r) => id in v.store && IsDeleteRecord(r, key, id)
    case CreateIndex(_, _, _) => true
    case DropIndex(_, _) => true
  }

  /** The histories of all indexes when a document is stored or updated, and at the index step of an insert. */
  function FreshenedAll(v: View, doc: Document): map<string, set<Entry>> {
    map n | n in v.mgr :: Freshened(StaleIn(v.stale, n), v.mgr[n].field, doc)
  }

  function StaledAll(v: View, doc: Document): map<string, set<Entry>> {
    map n | n in v.mgr :: Staled(StaleIn(v.stale, n), v.mgr[n].field, v.store, doc)
  }

  function After(codec: Codec, s: System, step: Step): System
    requires Enabled(codec, s, step)
  {
    var v := ViewOf(s, step.key);
    match step
    case CheckInsert(key, doc) => s.(checked := WithDocument(s.checked, key, doc))
    case LogInsert(key, id, r) =>
      s.(checked := WithoutDocument(s.checked, key, id), logged := s.logged[key := v.logged[id := v.checked[id]]], records := s.records + [r])
    case RefuseInsert(key, id) => s.(checked := WithoutDocument(s.checked, key, id))
    case StoreInsert(key, id) =>
      s.(logged := WithoutDocument(s.logged, key, id),
         stored := s.stored[key := v.stored[id := v.logged[id]]],
         memory := s.memory[key := v.store[id := v.logged[id]]],
         stale := s.stale[key := FreshenedAll(v, v.logged[id])])
    case IndexInsert(key, id) =>
      s.(stored := WithoutDocument(s.stored, key, id), managers := s.managers[key := MgrInserted(v.mgr, v.stored[id])],
         stale := s.stale[key := StaledAll(v, v.stored[id])])
    case UpdateDoc(key, after, r) =>
      s.(memory := WithDocument(s.memory, key, after), records := s.records + [r],
         managers := s.managers[key := MgrUpdated(v.mgr, v.store[after.id], after)],
         stale := s.stale[key := FreshenedAll(v, after)])
    case RemoveDoc(key, id, r) =>
      s.(memory := WithoutDocument(s.memory, key, id), records := s.records + [r],
         managers := s.managers[key := MgrRemoved(v.mgr, v.store[id])])
    case CreateIndex(key, field, kind) =>
      s.(managers := s.managers[key := v.mgr[IndexName(key.1, field) := Index(field, kind, EntriesOf(v.store, field))]],
         stale := s.stale[key := v.stale[IndexName(key.1, field) := {}]])
    case DropIndex(key, field) => s.(managers := s.managers[key := v.mgr - {IndexName(key.1, field)}])
  }

  ghost predicate IsRun(codec: Codec, states: seq<System>, steps: seq<Step>) {
    && |states| == |steps| + 1
    && forall i :: 0 <= i < |steps| ==> CanStep(codec, states[i], steps[i], states[i + 1])
  }

  predicate CanStep(codec: Codec, s: System, step: Step, s': System) {
    Enabled(codec, s, step) && s' == After(codec, s, step)
  }

  /** A freshly opened engine. */
  ghost predicate Initial(u: UuidText, codec: Codec, s: System) {
    && LogAgrees(u, codec, s.records, s.memory)
    && AllIndexed(s.memory, s.managers)
    && s.checked == s.logged == s.stored == map[] && s.stale == map[]
  }

  // ---- the log ----

  /** `b` laid over `a`. */
  function Overlay(a: Collections, b: Collections): Collections {
    map key | key in a.Keys + b.Keys :: StoreOf(a, key) + StoreOf(b, key)
  }

  /** The documents of inserts before their store step are stored nowhere else, and in one step only. */
  ghost predicate Separate(v: View) {
    && v.checked.Keys !! v.logged.Keys && v.checked.Keys !! v.store.Keys && v.logged.Keys !! v.store.Keys
    && WellKeyed(v.checked) && WellKeyed(v.logged)
  }

  /** Replaying the log gives what is stored together with what was logged and waits to be stored. */
  ghost predicate LogInv(u: UuidText, codec: Codec, s: System) {
    && LogAgrees(u, codec, s.records, Overlay(s.memory, s.logged))
    && forall key :: Separate(ViewOf(s, key))
  }

  lemma OverlayLookup(a: Collections, b: Collections, key: CollectionKey, id: DocumentId)
    ensures Lookup(Overlay(a, b), key, id) == if Lookup(b, key, id).Some? then Lookup(b, key, id) else Lookup(a, key, id)
  {
    hide IsDocumentId;
  }

  lemma PutLookup(c: Collections, key: CollectionKey, doc: Document, k: CollectionKey, i: DocumentId)
    ensures Lookup(WithDocument(c, key, doc), k, i) == if k == key && i == doc.id then Some(doc) else Lookup(c, k, i)
  {
    hide IsDocumentId;
  }

  lemma DropLookup(c: Collections, key: CollectionKey, id: DocumentId, k: CollectionKey, i: DocumentId)
    ensures Lookup(WithoutDocument(c, key, id), k, i) == if k == key && i == id then None else Lookup(c, k, i)
  {
    hide IsDocumentId;
  }

  /** Agreement does not depend on empty collections. */
  lemma AgreesAlike(u: UuidText, codec: Codec, log: seq<NbfRecord>, a: Collections, b: Collections)
    requires LogAgrees(u, codec, log, a) && SameDocuments(a, b)
    ensures LogAgrees(u, codec, log, b)
  {
    hide IsDocumentId;
    hide Proper;
    hide NormDocument;
    var c: Collections := Replayed(codec, log);
    hide Replayed;
    forall key: CollectionKey, id: DocumentId
      ensures Lookup(c, key, id) == NormOption(u, Lookup(b, key, id))
    {
      assert Lookup(a, key, id) == Lookup(b, key, id);
      assert Lookup(c, key, id) == NormOption(u, Lookup(a, key, id));
    }
    forall key: CollectionKey, id: DocumentId | key in b && id in b[key]
      ensures b[key][id].id == id
    {
      assert Lookup(b, key, id) == Some(b[key][id]) == Lookup(a, key, id);
    }
  }

  lemma LogInsertAgrees(u: UuidText, codec: Codec, records: seq<NbfRecord>, memory: Collections, logged: Collections,
                        key: CollectionKey, doc: Document, r: NbfRecord)
    requires Faithful(u, codec) && LogAgrees(u, codec, records, Overlay(memory, logged)) && IsPutRecord(codec, r, key, doc)
    ensures LogAgrees(u, codec, records + [r], Overlay(memory, WithDocument(logged, key, doc)))
  {
    hide IsDocumentId;
    hide LogAgrees;
    hide Faithful;
    hide IsPutRecord;
    hide Lookup;
    hide Overlay;
    hide WithDocument;
    var (a, b) := (WithDocument(Overlay(memory, logged), key, doc), Overlay(memory, WithDocument(logged, key, doc)));
    PutKeepsAgreement(u, codec, records, Overlay(memory, logged), r, key, doc);
    forall k: CollectionKey, i: DocumentId ensures Lookup(a, k, i) == Lookup(b, k, i) {
      PutLookup(Overlay(memory, logged), key, doc, k, i);
      PutLookup(logged, key, doc, k, i);
      OverlayLookup(memory, logged, k, i);
      OverlayLookup(memory, WithDocument(logged, key, doc), k, i);
    }
    AgreesAlike(u, codec, records + [r], a, b);
  }

  lemma StoreInsertAgrees(u: UuidText, codec: Codec, records: seq<NbfRecord>, memory: Collections, logged: Collections,
                          key: CollectionKey, doc: Document)
    requires LogAgrees(u, codec, records, Overlay(memory, logged)) && Lookup(logged, key, doc.id) == Some(doc)
    ensures LogAgrees(u, codec, records, Overlay(WithDocument(memory, key, doc), WithoutDocument(logged, key, doc.id)))
  {
    hide IsDocumentId;
    hide LogAgrees;
    hide Lookup;
    hide Overlay;
    hide WithDocument;
    hide WithoutDocument;
    var (a, b) := (Overlay(memory, logged), Overlay(WithDocument(memory, key, doc), WithoutDocument(logged, key, doc.id)));
    forall k: CollectionKey, i: DocumentId ensures Lookup(a, k, i) == Lookup(b, k, i) {
      PutLookup(memory, key, doc, k, i);
      DropLookup(logged, key, doc.id, k, i);
      OverlayLookup(memory, logged, k, i);
      OverlayLookup(WithDocument(memory, key, doc), WithoutDocument(logged, key, doc.id), k, i);
    }
    AgreesAlike(u, codec, records, a, b);
  }

  lemma UpdateAgrees(u: UuidText, codec: Codec, records: seq<NbfRecord>, memory: Collections, logged: Collections,
                     key: CollectionKey, after: Document, r: NbfRecord)
    requires Faithful(u, codec) && LogAgrees(u, codec, records, Overlay(memory, logged)) && IsPutRecord(codec, r, key, after)
    requires Lookup(logged, key, after.id) == None
    ensures LogAgrees(u, codec, records + [r], Overlay(WithDocument(memory, key, after), logged))
  {
    hide IsDocumentId;
    hide LogAgrees;
    hide Faithful;
    hide IsPutRecord;
    hide Lookup;
    hide Overlay;
    hide WithDocument;
    var (a, b) := (WithDocument(Overlay(memory, logged), key, after), Overlay(WithDocument(memory, key, after), logged));
    PutKeepsAgreement(u, codec, records, Overlay(memory, logged), r, key, after);
    forall k: CollectionKey, i: DocumentId ensures Lookup(a, k, i) == Lookup(b, k, i) {
      PutLookup(Overlay(memory, logged), key, after, k, i);
      PutLookup(memory, key, after, k, i);
      OverlayLookup(memory, logged, k, i);
      OverlayLookup(WithDocument(memory, key, after), logged, k, i);
    }
    AgreesAlike(u, codec, records + [r], a, b);
  }

  lemma RemoveAgrees(u: UuidText, codec: Codec, records: seq<NbfRecord>, memory: Collections, logged: Collections,
                     key: CollectionKey, id: DocumentId, r: NbfRecord)
    requires LogAgrees(u, codec, records, Overlay(memory, logged)) && IsDeleteRecord(r, key, id)
    requires Lookup(logged, key, id) == None
    ensures LogAgrees(u, codec, records + [r], Overlay(WithoutDocument(memory, key, id), logged))
  {
    hide IsDocumentId;
    hide LogAgrees;
    hide IsDeleteRecord;
    hide Lookup;
    hide Overlay;
    hide WithoutDocument;
    var (a, b) := (WithoutDocument(Overlay(memory, logged), key, id), Overlay(WithoutDocument(memory, key, id), logged));
    DeleteKeepsAgreement(u, codec, records, Overlay(memory, logged), r, key, id);
    forall k: CollectionKey, i: DocumentId ensures Lookup(a, k, i) == Lookup(b, k, i) {
      DropLookup(Overlay(memory, logged), key, id, k, i);
      DropLookup(memory, key, id, k, i);
      OverlayLookup(memory, logged, k, i);
      OverlayLookup(WithoutDocument(memory, key, id), logged, k, i);
    }
    AgreesAlike(u, codec, records + [r], a, b);
  }

  /** A step changes the view of its own collection only. */
  lemma OtherViews(codec: Codec, s: System, step: Step, key: CollectionKey)
    requires Enabled(codec, s, step) && key != step.key
    ensures ViewOf(After(codec, s, step), key) == ViewOf(s, key)
  {
    hide IsDocumentId;
    hide EntriesOf;
    hide IsPutRecord;
    hide IsDeleteRecord;
    hide MgrInserted;
    hide MgrUpdated;
    hide MgrRemoved;
    hide IndexName;
  }

  lemma SeparateStep(codec: Codec, s: System, step: Step)
    requires Enabled(codec, s, step) && Separate(ViewOf(s, step.key))
    ensures Separate(ViewOf(After(codec, s, step), step.key))
  {
    hide IsDocumentId;
    hide EntriesOf;
    hide IsPutRecord;
    hide IsDeleteRecord;
    hide MgrInserted;
    hide MgrUpdated;
    hide MgrRemoved;
    hide IndexName;
  }

  lemma LogStep(u: UuidText, codec: Codec, s: System, step: Step)
    requires Faithful(u, codec) && LogInv(u, codec, s) && Enabled(codec, s, step)
    ensures LogInv(u, codec, After(codec, s, step))
  {
    hide IsDocumentId;
    hide LogAgrees;
    hide Faithful;
    hide IsPutRecord;
    hide IsDeleteRecord;
    hide EntriesOf;
    hide MgrInserted;
    hide MgrUpdated;
    hide MgrRemoved;
    hide IndexName;
    hide Overlay;
    var (v, key, s') := (ViewOf(s, step.key), step.key, After(codec, s, step));
    assert Separate(v);
    match step {
      case LogInsert(_, id, r) => LogInsertAgrees(u, codec, s.records, s.memory, s.logged, key, v.checked[id], r);
      case StoreInsert(_, id) => StoreInsertAgrees(u, codec, s.records, s.memory, s.logged, key, v.logged[id]);
      case UpdateDoc(_, after, r) => UpdateAgrees(u, codec, s.records, s.memory, s.logged, key, after, r);
      case RemoveDoc(_, id, r) => RemoveAgrees(u, codec, s.records, s.memory, s.logged, key, id, r);
      case _ =>
    }
    forall k ensures Separate(ViewOf(s', k)) {
      hide Separate;
      assert Separate(ViewOf(s, k));
      if k == key { SeparateStep(codec, s, step); } else { OtherViews(codec, s, step, k); }
    }
  }

  /**
   In every interleaving, with no two inserts of one id in flight, replaying the log gives at any moment
   the documents in memory together with those logged and not yet stored, normalised by JSON.
   */
  lemma {:induction false} RunsKeepLog(u: UuidText, codec: Codec, states: seq<System>, steps: seq<Step>)
    requires Faithful(u, codec) && IsRun(codec, states, steps) && Initial(u, codec, states[0])
    ensures LogInv(u, codec, states[|steps|])
    decreases |steps|
  {
    hide LogInv;
    hide Faithful;
    hide Enabled;
    hide After;
    if steps == [] {
      InitialLog(u, codec, states[0]);
    } else {
      var k := |steps| - 1;
      hide Initial;
      assert forall i :: 0 <= i < k ==> CanStep(codec, states[..k + 1][i], steps[..k][i], states[..k + 1][i + 1]) by {
        forall i | 0 <= i < k ensures CanStep(codec, states[..k + 1][i], steps[..k][i], states[..k + 1][i + 1]) {
          assert CanStep(codec, states[i], steps[i], states[i + 1]);
        }
      }
      RunsKeepLog(u, codec, states[..k + 1], steps[..k]);
      assert states[..k + 1][k] == states[k];
      assert CanStep(codec, states[k], steps[k], states[k + 1]);
      LogStep(u, codec, states[k], steps[k]);
    }
  }

  lemma InitialLog(u: UuidText, codec: Codec, s: System)
    requires Initial(u, codec, s)
    ensures LogInv(u, codec, s)
  {
    hide IsDocumentId;
    hide LogAgrees;
    hide AllIndexed;
    assert SameDocuments(s.memory, Overlay(s.memory, s.logged));
    AgreesAlike(u, codec, s.records, s.memory, Overlay(s.memory, s.logged));
  }

  /**
   Without distinct ids it fails: two inserts of one id that both passed the check, logged as `a`, `b` and
   stored as `b`, `a`, leave `a` in memory while replay gives `b`.
   */
  lemma TwoInsertsOfOneId(u: UuidText, codec: Codec, log: seq<NbfRecord>, memory: Collections, key: CollectionKey,
                          a: Document, b: Document, ra: NbfRecord, rb: NbfRecord)
    requires Faithful(u, codec) && LogAgrees(u, codec, log, memory) && a.id == b.id
    requires IsPutRecord(codec, ra, key, a) && IsPutRecord(codec, rb, key, b)
    ensures var stored := WithDocument(WithDocument(memory, key, b), key, a);
            LogAgrees(u, codec, log + [ra] + [rb], stored) <==> NormDocument(u, a) == NormDocument(u, b)
  {
    hide IsDocumentId;
    hide IsPutRecord;
    hide Faithful;
    hide Proper;
    hide NormDocument;
    var stored := WithDocument(WithDocument(memory, key, b), key, a);
    var replayed := WithDocument(WithDocument(memory, key, a), key, b);
    PutKeepsAgreement(u, codec, log, memory, ra, key, a);
    PutKeepsAgreement(u, codec, log + [ra], WithDocument(memory, key, a), rb, key, b);
    assert AllWellKeyed(stored);
    forall k: CollectionKey, i: DocumentId
      ensures Lookup(stored, k, i) == if k == key && i == a.id then Some(a) else Lookup(memory, k, i)
      ensures Lookup(replayed, k, i) == if k == key && i == a.id then Some(b) else Lookup(memory, k, i)
    {
      PutLookup(WithDocument(memory, key, b), key, a, k, i);
      PutLookup(memory, key, b, k, i);
      PutLookup(WithDocument(memory, key, a), key, b, k, i);
      PutLookup(memory, key, a, k, i);
    }
    hide WithDocument;
    hide Lookup;
    var c: Collections := Replayed(codec, log + [ra] + [rb]);
    hide Replayed;
    assert Lookup(c, key, a.id) == NormOption(u, Lookup(replayed, key, a.id));
    assert SameNormalised(u, c, stored) ==> Lookup(c, key, a.id) == NormOption(u, Lookup(stored, key, a.id));
    if NormDocument(u, a) == NormDocument(u, b) {
      forall k: CollectionKey, i: DocumentId ensures Lookup(c, k, i) == NormOption(u, Lookup(stored, k, i)) {
        assert Lookup(c, k, i) == NormOption(u, Lookup(replayed, k, i));
      }
    }
  }

  // ---- the indexes ----

  ghost predicate ManagerRace(mgr: Manager, coll: string, store: Store, waiting: Store, stale: map<string, set<Entry>>) {
    ProperlyNamed(mgr, coll) && forall n :: n in mgr ==> RaceInv(mgr[n].entries, mgr[n].field, store, waiting, StaleIn(stale, n))
  }

  ghost predicate ViewInv(v: View, coll: string) {
    && WaitingInv(v.store, v.stored) && ManagerRace(v.mgr, coll, v.store, v.stored, v.stale)
    && ExactStore(v.checked) && ExactStore(v.logged) && Separate(v)
  }

  ghost predicate IndexInv(s: System) {
    forall key :: ViewInv(ViewOf(s, key), key.1)
  }

  /** The documents that come in are made of values on which equality, order and hash agree. */
  predicate ExactStep(step: Step) {
    (step.CheckInsert? ==> ExactDocument(step.doc)) && (step.UpdateDoc? ==> ExactDocument(step.after))
  }

  lemma MovesRace(coll: string, v: View, doc: Document)
    requires ManagerRace(v.mgr, coll, v.store, v.stored, v.stale) && doc.id !in v.store
    ensures ManagerRace(v.mgr, coll, v.store[doc.id := doc], v.stored[doc.id := doc], FreshenedAll(v, doc))
  {
    hide IsDocumentId;
    hide RaceInv;
    hide IndexName;
    hide Freshened;
    forall n | n in v.mgr
      ensures RaceInv(v.mgr[n].entries, v.mgr[n].field, v.store[doc.id := doc], v.stored[doc.id := doc], StaleIn(FreshenedAll(v, doc), n))
    {
      StoreStep(v.mgr[n].entries, v.mgr[n].field, v.store, v.stored, StaleIn(v.stale, n), doc);
    }
  }

  lemma IndexesRace(coll: string, v: View, id: DocumentId)
    requires ManagerRace(v.mgr, coll, v.store, v.stored, v.stale) && WaitingInv(v.store, v.stored) && id in v.stored
    ensures ManagerRace(MgrInserted(v.mgr, v.stored[id]), coll, v.store, v.stored - {id}, StaledAll(v, v.stored[id]))
  {
    hide IsDocumentId;
    hide RaceInv;
    hide WaitingInv;
    hide DocInserted;
    hide IndexName;
    hide Staled;
    var mgr := MgrInserted(v.mgr, v.stored[id]);
    var rest: Store := v.stored - {id};
    forall n | n in mgr ensures RaceInv(mgr[n].entries, mgr[n].field, v.store, rest, StaleIn(StaledAll(v, v.stored[id]), n)) {
      IndexStep(v.mgr[n].entries, v.mgr[n].field, v.store, v.stored, StaleIn(v.stale, n), id);
    }
  }

  lemma UpdatesRace(coll: string, v: View, after: Document)
    requires ManagerRace(v.mgr, coll, v.store, v.stored, v.stale) && WaitingInv(v.store, v.stored)
    requires after.id in v.store && ExactDocument(after)
    ensures ManagerRace(MgrUpdated(v.mgr, v.store[after.id], after), coll, v.store[after.id := after], v.stored, FreshenedAll(v, after))
  {
    hide IsDocumentId;
    hide RaceInv;
    hide WaitingInv;
    hide DocUpdated;
    hide ExactDocument;
    hide IndexName;
    hide Freshened;
    var mgr := MgrUpdated(v.mgr, v.store[after.id], after);
    forall n | n in mgr
      ensures RaceInv(mgr[n].entries, mgr[n].field, v.store[after.id := after], v.stored, StaleIn(FreshenedAll(v, after), n))
    {
      UpdateStep(v.mgr[n].entries, v.mgr[n].field, v.store, v.stored, StaleIn(v.stale, n), after);
    }
  }

  lemma RemovesRace(coll: string, v: View, id: DocumentId)
    requires ManagerRace(v.mgr, coll, v.store, v.stored, v.stale) && WaitingInv(v.store, v.stored) && id in v.store
    ensures ManagerRace(MgrRemoved(v.mgr, v.store[id]), coll, v.store - {id}, v.stored, v.stale)
  {
    hide IsDocumentId;
    hide RaceInv;
    hide WaitingInv;
    hide DocRemoved;
    hide IndexName;
    var mgr := MgrRemoved(v.mgr, v.store[id]);
    var rest: Store := v.store - {id};
    forall n | n in mgr ensures RaceInv(mgr[n].entries, mgr[n].field, rest, v.stored, StaleIn(v.stale, n)) {
      RemoveStep(v.mgr[n].entries, v.mgr[n].field, v.store, v.stored, StaleIn(v.stale, n), id);
    }
  }

  lemma CreatesRace(coll: string, v: View, field: string, kind: Kind)
    requires ManagerRace(v.mgr, coll, v.store, v.stored, v.stale) && WellKeyed(v.store)
    ensures ManagerRace(v.mgr[IndexName(coll, field) := Index(field, kind, EntriesOf(v.store, field))], coll, v.store, v.stored,
                        v.stale[IndexName(coll, field) := {}])
  {
    hide IsDocumentId;
    hide RaceInv;
    hide EntriesOf;
    hide IndexName;
    BuildStep(field, v.store, v.stored);
  }

  lemma WaitingMoves(store: Store, stored: Store, doc: Document)
    requires WaitingInv(store, stored) && ExactDocument(doc)
    ensures WaitingInv(store[doc.id := doc], stored[doc.id := doc]) && WaitingInv(store[doc.id := doc], stored)
  {
    hide IsDocumentId;
    hide ExactDocument;
  }

  lemma WaitingLeaves(store: Store, stored: Store, id: DocumentId)
    requires WaitingInv(store, stored)
    ensures WaitingInv(store, stored - {id}) && WaitingInv(store - {id}, stored)
  {
    hide IsDocumentId;
    hide ExactDocument;
  }

  /** What is waiting, and that everything is exact, from one view to the next. */
  lemma WaitingStep(codec: Codec, s: System, step: Step)
    requires Enabled(codec, s, step) && ExactStep(step)
    requires var v := ViewOf(s, step.key); Separate(v) && WaitingInv(v.store, v.stored) && ExactStore(v.checked) && ExactStore(v.logged)
    ensures var v := ViewOf(After(codec, s, step), step.key);
            WaitingInv(v.store, v.stored) && ExactStore(v.checked) && ExactStore(v.logged)
  {
    hide IsDocumentId;
    hide EntriesOf;
    hide IsPutRecord;
    hide IsDeleteRecord;
    hide MgrInserted;
    hide MgrUpdated;
    hide MgrRemoved;
    hide IndexName;
    hide ExactDocument;
    hide WaitingInv;
    var v := ViewOf(s, step.key);
    match step {
      case StoreInsert(_, id) => WaitingMoves(v.store, v.stored, v.logged[id]);
      case IndexInsert(_, id) => WaitingLeaves(v.store, v.stored, id);
      case UpdateDoc(_, after, _) => WaitingMoves(v.store, v.stored, after);
      case RemoveDoc(_, id, _) => WaitingLeaves(v.store, v.stored, id);
      case _ =>
    }
  }

  lemma RaceStep(codec: Codec, s: System, step: Step)
    requires Enabled(codec, s, step) && ExactStep(step) && ViewInv(ViewOf(s, step.key), step.key.1)
    ensures var v := ViewOf(After(codec, s, step), step.key); ManagerRace(v.mgr, step.key.1, v.store, v.stored, v.stale)
  {
    hide IsDocumentId;
    hide EntriesOf;
    hide IsPutRecord;
    hide IsDeleteRecord;
    hide MgrInserted;
    hide MgrUpdated;
    hide MgrRemoved;
    hide IndexName;
    hide ExactDocument;
    hide WaitingInv;
    hide FreshenedAll;
    hide StaledAll;
    var (v, coll) := (ViewOf(s, step.key), step.key.1);
    assert WellKeyed(v.store) by { WaitingKeyed(v); }
    match step {
      case StoreInsert(_, id) =>
        hide ManagerRace;
        MovesRace(coll, v, v.logged[id]);
      case IndexInsert(_, id) =>
        hide ManagerRace;
        IndexesRace(coll, v, id);
      case UpdateDoc(_, after, _) =>
        hide ManagerRace;
        UpdatesRace(coll, v, after);
      case RemoveDoc(_, id, _) =>
        hide ManagerRace;
        RemovesRace(coll, v, id);
      case CreateIndex(_, field, kind) =>
        hide ManagerRace;
        CreatesRace(coll, v, field, kind);
      case _ =>
    }
  }

  lemma WaitingKeyed(v: View)
    requires WaitingInv(v.store, v.stored)
    ensures WellKeyed(v.store)
  {
  }

  lemma IndexInvStep(codec: Codec, s: System, step: Step)
    requires IndexInv(s) && Enabled(codec, s, step) && ExactStep(step)
    ensures IndexInv(After(codec, s, step))
  {
    hide IsDocumentId;
    hide Enabled;
    hide After;
    hide ViewOf;
    var s' := After(codec, s, step);
    forall key: CollectionKey ensures ViewInv(ViewOf(s', key), key.1) {
      assert ViewInv(ViewOf(s, key), key.1);
      if key == step.key {
        hide ManagerRace;
        hide WaitingInv;
        hide Separate;
        hide ExactStore;
        SeparateStep(codec, s, step);
        WaitingStep(codec, s, step);
        RaceStep(codec, s, step);
      } else {
        hide ViewInv;
        OtherViews(codec, s, step, key);
      }
    }
  }

  lemma InitialRace(mgr: Manager, coll: string, store: Store)
    requires ManagerExact(mgr, coll, store) && WellKeyed(store)
    ensures ManagerRace(mgr, coll, store, map[], map[])
  {
    hide IsDocumentId;
    hide RaceInv;
    hide EntriesOf;
    hide IndexName;
    forall n | n in mgr ensures RaceInv(mgr[n].entries, mgr[n].field, store, map[], {}) {
      BuildStep(mgr[n].field, store, map[]);
    }
  }

  lemma InitialIndexes(u: UuidText, codec: Codec, s: System)
    requires Initial(u, codec, s)
    ensures IndexInv(s)
  {
    hide IsDocumentId;
    hide ManagerRace;
    hide ManagerExact;
    hide ExactDocument;
    hide Proper;
    hide SameNormalised;
    forall key: CollectionKey ensures ViewInv(ViewOf(s, key), key.1) {
      ManagerOfExact(s.memory, s.managers, key);
      var v := ViewOf(s, key);
      assert WellKeyed(v.store);
      InitialRace(v.mgr, key.1, v.store);
    }
  }

  /**
   In every interleaving, every stored document whose index step is done is listed in each index of its
   collection under its current value, and what an index lists under any other value are exactly its
   stale entries.
   */
  lemma {:induction false} RunsKeepIndexes(u: UuidText, codec: Codec, states: seq<System>, steps: seq<Step>)
    requires IsRun(codec, states, steps) && Initial(u, codec, states[0])
    requires forall i :: 0 <= i < |steps| ==> ExactStep(steps[i])
    ensures IndexInv(states[|steps|])
    decreases |steps|
  {
    hide IndexInv;
    hide Enabled;
    hide After;
    hide ExactStep;
    if steps == [] {
      InitialIndexes(u, codec, states[0]);
    } else {
      var k := |steps| - 1;
      hide Initial;
      assert forall i :: 0 <= i < k ==> CanStep(codec, states[..k + 1][i], steps[..k][i], states[..k + 1][i + 1]) by {
        forall i | 0 <= i < k ensures CanStep(codec, states[..k + 1][i], steps[..k][i], states[..k + 1][i + 1]) {
          assert CanStep(codec, states[i], steps[i], states[i + 1]);
        }
      }
      RunsKeepIndexes(u, codec, states[..k + 1], steps[..k]);
      assert states[..k + 1][k] == states[k];
      assert CanStep(codec, states[k], steps[k], states[k + 1]);
      IndexInvStep(codec, states[k], steps[k]);
    }
  }

  /**
   An entry becomes stale in one way only: by the index step of an insert that an update or removal
   overtook, if the first version had the field and what is stored now has no equal value in it.
   */
  lemma BecomesStale(codec: Codec, s: System, step: Step, key: CollectionKey, name: string, k: Value, id: DocumentId)
    requires IndexInv(s) && Enabled(codec, s, step)
    requires (k, id) in StaleIn(StaleOf(After(codec, s, step), key), name) && (k, id) !in StaleIn(StaleOf(s, key), name)
    ensures step == IndexInsert(key, id)
    ensures var v := ViewOf(s, key);
            && id in v.stored && name in v.mgr && IndexKey(v.stored[id], v.mgr[name].field) == Some(k)
            && (id in v.store ==> v.store[id] != v.stored[id] && IndexKey(v.store[id], v.mgr[name].field) != Some(k))
  {
    hide IsDocumentId;
    hide EntriesOf;
    hide IsPutRecord;
    hide IsDeleteRecord;
    hide MgrInserted;
    hide MgrUpdated;
    hide MgrRemoved;
    hide IndexName;
    hide IndexKey;
    hide ManagerRace;
    hide ExactStore;
    hide Separate;
    assert ViewInv(ViewOf(s, key), key.1);
  }

  /** Where no insert waits for its index step, the indexes are exact exactly if none has a stale entry. */
  lemma QuietIndexesExact(s: System, key: CollectionKey)
    requires IndexInv(s) && StoreOf(s.stored, key) == map[]
    ensures ManagerExact(MgrOf(s.managers, key), key.1, StoreOf(s.memory, key))
            <==> forall n :: n in MgrOf(s.managers, key) ==> StaleIn(StaleOf(s, key), n) == {}
  {
    hide IsDocumentId;
    hide RaceInv;
    hide EntriesOf;
    hide IndexName;
    hide StaleIn;
    hide StaleOf;
    var v := ViewOf(s, key);
    assert ViewInv(v, key.1);
    assert WellKeyed(v.store);
    hide WellKeyed;
    hide ExactStore;
    hide Separate;
    forall n | n in v.mgr ensures v.mgr[n].entries == EntriesOf(v.store, v.mgr[n].field) <==> StaleIn(v.stale, n) == {} {
      QuietIsExact(v.mgr[n].entries, v.mgr[n].field, v.store, StaleIn(v.stale, n));
    }
  }
}
