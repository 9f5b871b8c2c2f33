/**
 The three views of the data that the engine keeps in step (crates/nova-server/src/engine.rs): the
 collections in memory, the records in the log, and the events it emits.
 */
module EngineState {
  import opened Core
  import opened Bytes
  import opened Documents
  import opened DocumentIds
  import opened Json
  import opened NbfFormat
  import opened Recovery
  import opened CrashSafety
  import Utf8

  /** `payload_from_document`, which may fail, and `document_from_payload`. */
  datatype Codec = Codec(write: Document -> Option<seq<byte>>, read: PayloadReader)

  /**
   JSON text is faithful: what could be written reads back as the normalised document, and what was read
   is already normal.
   */
  ghost predicate Faithful(u: UuidText, codec: Codec) {
    && Lawful(u)
    && (forall d :: codec.write(d).Some? ==> codec.read(codec.write(d).value) == Some(NormDocument(u, d)))
    && (forall b :: codec.read(b).Some? ==> NormDocument(u, codec.read(b).value) == codec.read(b).value)
  }

  /** A codec for the documents of a list, which writes the place in the list. */
  function ListCodec(u: UuidText, docs: seq<Document>): Codec {
    Codec(d => if d in docs then Some(seq(IndexOf(docs, d), _ => 0)) else None,
          b => if |b| < |docs| then Some(NormDocument(u, docs[|b|])) else None)
  }

  /** For any documents there is a faithful codec that can write all of them. */
  lemma {:induction false} FaithfulExists(u: UuidText, docs: seq<Document>)
    requires Lawful(u)
    ensures Faithful(u, ListCodec(u, docs)) && forall d :: d in docs ==> ListCodec(u, docs).write(d).Some?
  {
    hide IsDocumentId;
    var codec := ListCodec(u, docs);
    forall d | codec.write(d).Some? ensures codec.read(codec.write(d).value) == Some(NormDocument(u, d)) {
      assert |codec.write(d).value| == IndexOf(docs, d);
    }
    forall b | codec.read(b).Some? ensures NormDocument(u, codec.read(b).value) == codec.read(b).value {
      NormIdempotent(u, docs[|b|]);
    }
  }

  // ---- looking at collections one document at a time ----

  function Lookup(c: Collections, key: CollectionKey, id: DocumentId): Option<Document> {
    if id in StoreOf(c, key) then Some(StoreOf(c, key)[id]) else None
  }

  function WithDocument(c: Collections, key: CollectionKey, doc: Document): Collections {
    c[key := StoreOf(c, key)[doc.id := doc]]
  }

  function WithoutDocument(c: Collections, key: CollectionKey, id: DocumentId): Collections {
    c[key := StoreOf(c, key) - {id}]
  }

  /** Same documents; a collection without documents counts as absent. */
  ghost predicate SameDocuments(a: Collections, b: Collections) {
    forall key, id :: Lookup(a, key, id) == Lookup(b, key, id)
  }

  function NormOption(u: UuidText, d: Option<Document>): Option<Document> {
    match d
    case Some(doc) => Some(NormDocument(u, doc))
    case None => None
  }

  /** `a` holds the documents of `b`, normalised by JSON. */
  ghost predicate SameNormalised(u: UuidText, a: Collections, b: Collections) {
    forall key, id :: Lookup(a, key, id) == NormOption(u, Lookup(b, key, id))
  }

  predicate AllWellKeyed(c: Collections) {
    forall key, id :: key in c && id in c[key] ==> c[key][id].id == id
  }

  // ---- memory and log ----

  /** A record the engine wrote: its payload reads as a document with the id of the record. */
  predicate Proper(codec: Codec, r: NbfRecord) {
    && Loggable(codec.read, r)
    && (r.recordType in {Insert, Update} ==> codec.read(r.payload).value.id == r.documentId)
  }

  predicate AllProper(codec: Codec, rs: seq<NbfRecord>) {
    forall i :: 0 <= i < |rs| ==> Proper(codec, rs[i])
  }

  function Replayed(codec: Codec, rs: seq<NbfRecord>): Collections
    requires AllProper(codec, rs)
  {
    ReplayProper(codec, rs);
    Replay(codec.read, rs, EMPTY).value.collections
  }

  lemma ReplayProper(codec: Codec, rs: seq<NbfRecord>)
    requires AllProper(codec, rs)
    ensures AllLoggable(codec.read, rs) && Replay(codec.read, rs, EMPTY).Ok?
  {
    forall i | 0 <= i < |rs| ensures Loggable(codec.read, rs[i]) { assert Proper(codec, rs[i]); }
    ReplayOk(codec.read, rs, EMPTY);
  }

  /** Replaying the log gives the documents in memory, up to JSON normalisation. */
  ghost predicate LogAgrees(u: UuidText, codec: Codec, log: seq<NbfRecord>, memory: Collections) {
    AllProper(codec, log) && SameNormalised(u, Replayed(codec, log), memory) && AllWellKeyed(memory)
  }

  lemma ReplayedAppend(codec: Codec, log: seq<NbfRecord>, r: NbfRecord)
    requires AllProper(codec, log) && Proper(codec, r)
    ensures AllProper(codec, log + [r])
    ensures Apply(codec.read, r, Replayed(codec, log)).Ok?
    ensures Replayed(codec, log + [r]) == Apply(codec.read, r, Replayed(codec, log)).value
  {
    hide IsDocumentId;
    hide Loggable;
    ReplayProper(codec, log);
    assert AllProper(codec, log + [r]) by {
      hide Proper;
    }
    ReplayProper(codec, log + [r]);
    ReplayAppend(codec.read, log, [r], EMPTY);
    var st := Replay(codec.read, log, EMPTY).value;
    assert [r][1..] == [];
    assert Replay(codec.read, [r], st) == ReplayOne(codec.read, r, st);
  }

  /** What one record does, seen one document at a time. */
  lemma ApplyOne(codec: Codec, r: NbfRecord, c: Collections, key: CollectionKey, id: DocumentId)
    requires Apply(codec.read, r, c).Ok?
    ensures Lookup(Apply(codec.read, r, c).value, key, id) ==
            if key == (r.namespace, r.collection) && id == r.documentId && r.recordType in {Insert, Update}
            then codec.read(r.payload)
            else if key == (r.namespace, r.collection) && id == r.documentId && r.recordType == Delete then None
            else Lookup(c, key, id)
  {
    hide IsDocumentId;
  }

  predicate IsPutRecord(codec: Codec, r: NbfRecord, key: CollectionKey, doc: Document) {
    && (r.recordType == Insert || r.recordType == Update)
    && (r.namespace, r.collection) == key && r.documentId == doc.id
    && codec.write(doc) == Some(r.payload) && r.txId == None && Encodable(r)
  }

  predicate IsDeleteRecord(r: NbfRecord, key: CollectionKey, id: DocumentId) {
    && r.recordType == Delete && (r.namespace, r.collection) == key && r.documentId == id
    && r.txId == None && Encodable(r)
  }

  lemma PutIsProper(u: UuidText, codec: Codec, r: NbfRecord, key: CollectionKey, doc: Document)
    requires Faithful(u, codec) && IsPutRecord(codec, r, key, doc)
    ensures Proper(codec, r) && codec.read(r.payload) == Some(NormDocument(u, doc))
  {
    hide IsDocumentId;
    hide Encodable;
    assert codec.write(doc).Some?;
  }

  /** Logging and storing a document keep the two views together. */
  lemma PutKeepsAgreement(u: UuidText, codec: Codec, log: seq<NbfRecord>, memory: Collections, r: NbfRecord, key: CollectionKey, doc: Document)
    requires Faithful(u, codec) && LogAgrees(u, codec, log, memory) && IsPutRecord(codec, r, key, doc)
    ensures LogAgrees(u, codec, log + [r], WithDocument(memory, key, doc))
  {
    hide IsDocumentId;
    hide Encodable;
    PutIsProper(u, codec, r, key, doc);
    hide Proper;
    hide Faithful;
    ReplayedAppend(codec, log, r);
    var c := Replayed(codec, log);
    hide Replayed;
    forall k, i: DocumentId
      ensures Lookup(Apply(codec.read, r, c).value, k, i) == NormOption(u, Lookup(WithDocument(memory, key, doc), k, i))
    {
      ApplyOne(codec, r, c, k, i);
      assert Lookup(c, k, i) == NormOption(u, Lookup(memory, k, i));
    }
  }

  lemma DeleteKeepsAgreement(u: UuidText, codec: Codec, log: seq<NbfRecord>, memory: Collections, r: NbfRecord, key: CollectionKey, id: DocumentId)
    requires LogAgrees(u, codec, log, memory) && IsDeleteRecord(r, key, id)
    ensures LogAgrees(u, codec, log + [r], WithoutDocument(memory, key, id))
  {
    hide IsDocumentId;
    hide Encodable;
    assert Proper(codec, r);
    hide Proper;
    ReplayedAppend(codec, log, r);
    var c := Replayed(codec, log);
    hide Replayed;
    forall k, i: DocumentId
      ensures Lookup(Apply(codec.read, r, c).value, k, i) == NormOption(u, Lookup(WithoutDocument(memory, key, id), k, i))
    {
      ApplyOne(codec, r, c, k, i);
      assert Lookup(c, k, i) == NormOption(u, Lookup(memory, k, i));
    }
  }

  /** An empty collection makes no difference. */
  lemma TouchKeepsAgreement(u: UuidText, codec: Codec, log: seq<NbfRecord>, memory: Collections, key: CollectionKey)
    requires LogAgrees(u, codec, log, memory)
    ensures LogAgrees(u, codec, log, memory[key := StoreOf(memory, key)])
  {
    hide IsDocumentId;
    hide Proper;
    var c := Replayed(codec, log);
    hide Replayed;
    forall k, i: DocumentId
      ensures Lookup(c, k, i) == NormOption(u, Lookup(memory[key := StoreOf(memory, key)], k, i))
    {
      assert Lookup(c, k, i) == NormOption(u, Lookup(memory, k, i));
    }
  }

  /** Every document that replay produces was read from a payload, so it is normal and filed under its id. */
  ghost predicate NormalAndKeyed(u: UuidText, c: Collections) {
    forall key, id :: Lookup(c, key, id).Some? ==>
      Lookup(c, key, id).value.id == id && NormDocument(u, Lookup(c, key, id).value) == Lookup(c, key, id).value
  }

  lemma {:induction false} ReplayedNormal(u: UuidText, codec: Codec, log: seq<NbfRecord>)
    requires Faithful(u, codec) && AllProper(codec, log)
    ensures NormalAndKeyed(u, Replayed(codec, log))
    decreases |log|
  {
    hide IsDocumentId;
    hide Loggable;
    if log == [] {
      assert Replayed(codec, []) == map[];
    } else {
      var (front, r) := (log[..|log| - 1], log[|log| - 1]);
      assert Proper(codec, r);
      assert AllProper(codec, front);
      ReplayedNormal(u, codec, front);
      ReplayedAppend(codec, front, r);
      assert log == front + [r];
      var c := Replayed(codec, front);
      forall k, i: DocumentId
        ensures var d := Lookup(Apply(codec.read, r, c).value, k, i);
                d.Some? ==> d.value.id == i && NormDocument(u, d.value) == d.value
      {
        ApplyOne(codec, r, c, k, i);
        hide NormDocument;
        assert Lookup(c, k, i).Some? ==> Lookup(c, k, i).value.id == i && NormDocument(u, Lookup(c, k, i).value) == Lookup(c, k, i).value;
      }
    }
  }

  /** Right after recovery memory is the replay itself. */
  lemma RecoveredAgrees(u: UuidText, codec: Codec, log: seq<NbfRecord>)
    requires Faithful(u, codec) && AllProper(codec, log)
    ensures LogAgrees(u, codec, log, Replayed(codec, log))
  {
    hide IsDocumentId;
    hide Proper;
    ReplayedNormal(u, codec, log);
    var c: Collections := Replayed(codec, log);
    hide Replayed;
    hide NormDocument;
    forall key: CollectionKey, id: DocumentId | key in c && id in c[key]
      ensures c[key][id].id == id
    {
      assert Lookup(c, key, id) == Some(c[key][id]);
    }
  }

  // ---- events ----

  datatype EventType = CreateEvent | UpdateEvent | DeleteEvent

  datatype DataEvent = DataEvent(
    sequence: u64, eventType: EventType, key: CollectionKey, id: DocumentId, before: Option<Document>, after: Option<Document>)

  function FoldEvent(c: Collections, e: DataEvent): Collections {
    match e.after
    case Some(doc) => c[e.key := StoreOf(c, e.key)[e.id := doc]]
    case None => WithoutDocument(c, e.key, e.id)
  }

  /** The collections a subscriber that applies every event would hold. */
  function FoldEvents(start: Collections, events: seq<DataEvent>): Collections {
    if events == [] then start else FoldEvent(FoldEvents(start, events[..|events| - 1]), events[|events| - 1])
  }

  /** An event and the record of the same change. */
  predicate Matches(codec: Codec, e: DataEvent, r: NbfRecord) {
    && e.sequence == r.sequence && e.key == (r.namespace, r.collection) && e.id == r.documentId
    && (match r.recordType
        case Insert => e.eventType == CreateEvent && e.before.None? && e.after.Some? && codec.write(e.after.value) == Some(r.payload)
        case Update => e.eventType == UpdateEvent && e.before.Some? && e.after.Some? && codec.write(e.after.value) == Some(r.payload)
        case Delete => e.eventType == DeleteEvent && e.before.Some? && e.after.None?
        case _ => false)
  }

  predicate AllMatch(codec: Codec, events: seq<DataEvent>, rs: seq<NbfRecord>) {
    |events| == |rs| && forall i :: 0 <= i < |rs| ==> Matches(codec, events[i], rs[i])
  }

  /** Events since the start, one per record, in order, and applying them gives what is in memory. */
  ghost predicate EventsAgree(codec: Codec, start: Collections, events: seq<DataEvent>, rs: seq<NbfRecord>, memory: Collections) {
    AllMatch(codec, events, rs) && SameDocuments(FoldEvents(start, events), memory)
  }

  lemma EventPut(codec: Codec, start: Collections, events: seq<DataEvent>, rs: seq<NbfRecord>, memory: Collections,
                 e: DataEvent, r: NbfRecord, key: CollectionKey, doc: Document)
    requires EventsAgree(codec, start, events, rs, memory) && Matches(codec, e, r)
    requires e.key == key && e.id == doc.id && e.after == Some(doc)
    ensures EventsAgree(codec, start, events + [e], rs + [r], WithDocument(memory, key, doc))
  {
    hide IsDocumentId;
    assert AllMatch(codec, events + [e], rs + [r]) by { hide Matches; }
    hide Matches;
    assert (events + [e])[..|events|] == events;
    var c := FoldEvents(start, events);
    forall k, i: DocumentId
      ensures Lookup(FoldEvent(c, e), k, i) == Lookup(WithDocument(memory, key, doc), k, i)
    {
      assert Lookup(c, k, i) == Lookup(memory, k, i);
    }
  }

  lemma EventDelete(codec: Codec, start: Collections, events: seq<DataEvent>, rs: seq<NbfRecord>, memory: Collections,
                    e: DataEvent, r: NbfRecord, key: CollectionKey, id: DocumentId)
    requires EventsAgree(codec, start, events, rs, memory) && Matches(codec, e, r)
    requires e.key == key && e.id == id && e.after == None
    ensures EventsAgree(codec, start, events + [e], rs + [r], WithoutDocument(memory, key, id))
  {
    hide IsDocumentId;
    assert AllMatch(codec, events + [e], rs + [r]) by { hide Matches; }
    hide Matches;
    assert (events + [e])[..|events|] == events;
    var c := FoldEvents(start, events);
    forall k, i: DocumentId
      ensures Lookup(FoldEvent(c, e), k, i) == Lookup(WithoutDocument(memory, key, id), k, i)
    {
      assert Lookup(c, k, i) == Lookup(memory, k, i);
    }
  }

  lemma EventTouch(codec: Codec, start: Collections, events: seq<DataEvent>, rs: seq<NbfRecord>, memory: Collections, key: CollectionKey)
    requires EventsAgree(codec, start, events, rs, memory)
    ensures EventsAgree(codec, start, events, rs, memory[key := StoreOf(memory, key)])
  {
    hide IsDocumentId;
    hide Matches;
    var c := FoldEvents(start, events);
    forall k, i: DocumentId
      ensures Lookup(c, k, i) == Lookup(memory[key := StoreOf(memory, key)], k, i)
    {
      assert Lookup(c, k, i) == Lookup(memory, k, i);
    }
  }

  // ---- all three views ----

  /** Sequence numbers strictly ascending, the last at most `top`. */
  predicate Ascending(rs: seq<NbfRecord>, top: nat) {
    && (forall i, j :: 0 <= i < j < |rs| ==> rs[i].sequence < rs[j].sequence)
    && (forall i :: 0 <= i < |rs| ==> rs[i].sequence <= top)
  }

  /** What an engine has done: the state it started from, the records since then, the events and the memory. */
  datatype History = History(
    start: Collections, older: seq<NbfRecord>, records: seq<NbfRecord>, events: seq<DataEvent>, memory: Collections)

  /**
   The three views agree: the log replays to the documents in memory (normalised by JSON), the events
   match the records since the start one to one and in order, with strictly ascending sequence
   numbers, and applying the events to the start state gives the documents in memory.
   */
  ghost predicate Agreed(u: UuidText, codec: Codec, h: History, top: nat) {
    && LogAgrees(u, codec, h.older + h.records, h.memory)
    && EventsAgree(codec, h.start, h.events, h.records, h.memory)
    && Ascending(h.records, top)
  }

  function Extended(h: History, r: NbfRecord, e: DataEvent, memory: Collections): History {
    h.(records := h.records + [r], events := h.events + [e], memory := memory)
  }

  lemma AscendingAppend(rs: seq<NbfRecord>, top: nat, r: NbfRecord)
    requires Ascending(rs, top) && r.sequence > top
    ensures Ascending(rs + [r], r.sequence)
  {
    hide IsDocumentId;
  }

  lemma AgreedPut(u: UuidText, codec: Codec, h: History, top: nat, r: NbfRecord, e: DataEvent, key: CollectionKey, doc: Document)
    requires Faithful(u, codec) && Agreed(u, codec, h, top) && r.sequence > top
    requires IsPutRecord(codec, r, key, doc) && Matches(codec, e, r) && e.after == Some(doc)
    ensures Agreed(u, codec, Extended(h, r, e, WithDocument(h.memory, key, doc)), r.sequence)
  {
    hide IsDocumentId;
    hide Encodable;
    hide LogAgrees;
    hide EventsAgree;
    hide Ascending;
    hide Faithful;
    hide WithDocument;
    PutKeepsAgreement(u, codec, h.older + h.records, h.memory, r, key, doc);
    assert (h.older + h.records) + [r] == h.older + (h.records + [r]);
    EventPut(codec, h.start, h.events, h.records, h.memory, e, r, key, doc);
    AscendingAppend(h.records, top, r);
  }

  lemma AgreedDelete(u: UuidText, codec: Codec, h: History, top: nat, r: NbfRecord, e: DataEvent, key: CollectionKey, id: DocumentId)
    requires Agreed(u, codec, h, top) && r.sequence > top
    requires IsDeleteRecord(r, key, id) && Matches(codec, e, r) && e.after == None
    ensures Agreed(u, codec, Extended(h, r, e, WithoutDocument(h.memory, key, id)), r.sequence)
  {
    hide IsDocumentId;
    hide Encodable;
    hide LogAgrees;
    hide EventsAgree;
    hide Ascending;
    hide WithoutDocument;
    DeleteKeepsAgreement(u, codec, h.older + h.records, h.memory, r, key, id);
    assert (h.older + h.records) + [r] == h.older + (h.records + [r]);
    EventDelete(codec, h.start, h.events, h.records, h.memory, e, r, key, id);
    AscendingAppend(h.records, top, r);
  }

  lemma AgreedTouch(u: UuidText, codec: Codec, h: History, top: nat, key: CollectionKey)
    requires Agreed(u, codec, h, top)
    ensures Agreed(u, codec, h.(memory := h.memory[key := StoreOf(h.memory, key)]), top)
  {
    hide IsDocumentId;
    hide LogAgrees;
    hide EventsAgree;
    hide Ascending;
    TouchKeepsAgreement(u, codec, h.older + h.records, h.memory, key);
    EventTouch(codec, h.start, h.events, h.records, h.memory, key);
  }

  /** A sequence number that was drawn and never written does no harm. */
  lemma AgreedSkip(u: UuidText, codec: Codec, h: History, top: nat, top': nat)
    requires Agreed(u, codec, h, top) && top <= top'
    ensures Agreed(u, codec, h, top')
  {
    hide IsDocumentId;
    hide LogAgrees;
    hide EventsAgree;
  }

  lemma AgreedKeyed(u: UuidText, codec: Codec, h: History, top: nat)
    requires Agreed(u, codec, h, top)
    ensures AllWellKeyed(h.memory)
  {
  }

  /** A freshly recovered engine agrees with its log. */
  lemma AgreedStart(u: UuidText, codec: Codec, log: seq<NbfRecord>, top: nat)
    requires Faithful(u, codec) && AllProper(codec, log)
    ensures Agreed(u, codec, History(Replayed(codec, log), log, [], [], Replayed(codec, log)), top)
  {
    hide IsDocumentId;
    hide LogAgrees;
    hide Faithful;
    hide Proper;
    hide Matches;
    RecoveredAgrees(u, codec, log);
    hide Replayed;
    assert log + [] == log;
    assert forall c: Collections :: FoldEvents(c, []) == c;
  }

  // ---- documents changed behind the log's back ----

  /** A document changed without a record: memory and log still agree exactly if JSON cannot tell the difference. */
  lemma UnloggedChange(u: UuidText, codec: Codec, log: seq<NbfRecord>, memory: Collections, key: CollectionKey, after: Document)
    requires LogAgrees(u, codec, log, memory) && after.id in StoreOf(memory, key)
    ensures LogAgrees(u, codec, log, WithDocument(memory, key, after))
            <==> NormDocument(u, after) == NormDocument(u, StoreOf(memory, key)[after.id])
  {
    hide IsDocumentId;
    hide Proper;
    hide NormDocument;
    var c: Collections := Replayed(codec, log);
    var changed := WithDocument(memory, key, after);
    hide Replayed;
    var before := StoreOf(memory, key)[after.id];
    assert Lookup(c, key, after.id) == NormOption(u, Lookup(memory, key, after.id)) == Some(NormDocument(u, before));
    assert Lookup(changed, key, after.id) == Some(after);
    assert SameNormalised(u, c, changed) ==> Lookup(c, key, after.id) == NormOption(u, Lookup(changed, key, after.id));
    if NormDocument(u, after) == NormDocument(u, before) {
      forall k: CollectionKey, i: DocumentId ensures Lookup(c, k, i) == NormOption(u, Lookup(changed, k, i)) {
        assert Lookup(c, k, i) == NormOption(u, Lookup(memory, k, i));
      }
    }
  }

  // ---- names that got into the log ----

  predicate NamesFit(key: CollectionKey) {
    Utf8.ByteLength(key.0) < U16_LIMIT && Utf8.ByteLength(key.1) < U16_LIMIT
  }

  lemma EmptyReplay(codec: Codec)
    ensures Replayed(codec, []) == map[]
  {
  }

  /** A document that replay produces lies in a collection whose names could be encoded. */
  lemma {:induction false} ReplayedNamesFit(codec: Codec, log: seq<NbfRecord>, key: CollectionKey, id: DocumentId)
    requires AllProper(codec, log) && Lookup(Replayed(codec, log), key, id).Some?
    ensures NamesFit(key)
    decreases |log|
  {
    hide IsDocumentId;
    hide Utf8.ByteLength;
    EmptyReplay(codec);
    if log != [] {
      var (front, r) := (log[..|log| - 1], log[|log| - 1]);
      assert Proper(codec, r);
      assert AllProper(codec, front) by { hide Proper; }
      ReplayedAppend(codec, front, r);
      assert log == front + [r];
      ApplyOne(codec, r, Replayed(codec, front), key, id);
      hide Replayed;
      if key != (r.namespace, r.collection) || id != r.documentId || r.recordType !in {Insert, Update} {
        ReplayedNamesFit(codec, front, key, id);
      }
    }
  }

  /** While memory and log agree, every stored document lies in a collection whose names can be encoded. */
  lemma StoredNamesFit(u: UuidText, codec: Codec, log: seq<NbfRecord>, memory: Collections, key: CollectionKey, id: DocumentId)
    requires LogAgrees(u, codec, log, memory) && id in StoreOf(memory, key)
    ensures NamesFit(key)
  {
    hide IsDocumentId;
    hide Proper;
    hide NormDocument;
    var c := Replayed(codec, log);
    assert Lookup(c, key, id) == NormOption(u, Lookup(memory, key, id));
    ReplayedNamesFit(codec, log, key, id);
  }

  lemma AgreedNamesFit(u: UuidText, codec: Codec, h: History, top: nat, key: CollectionKey, id: DocumentId)
    requires Agreed(u, codec, h, top) && id in StoreOf(h.memory, key)
    ensures NamesFit(key)
  {
    hide IsDocumentId;
    hide LogAgrees;
    hide EventsAgree;
    StoredNamesFit(u, codec, h.older + h.records, h.memory, key, id);
  }

  // ---- restart ----

  /** Restarting on an intact log restores the documents in memory, up to JSON normalisation. */
  lemma RestartRestoresMemory(u: UuidText, codec: Codec, log: seq<Segment>, memory: Collections)
    requires AllSound(codec.read, log) && LogAgrees(u, codec, Records(log), memory)
    ensures var (verdict, files) := RecoveredFrom(codec.read, Image(log), 0, EMPTY);
            && verdict.Ok? && files == Image(log)
            && SameNormalised(u, verdict.value.collections, memory)
  {
    hide IsDocumentId;
    hide AllSound;
    hide Proper;
    hide SegmentBytes;
    hide RecoveredFrom;
    hide Replay;
    hide Records;
    IntactRecovery(codec.read, log);
  }
}
