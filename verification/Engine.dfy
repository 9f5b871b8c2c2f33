/** The database engine (crates/nova-server/src/engine.rs), one statement at a time. */
module Engine {
  import opened Core
  import opened Bytes
  import Utf8
  import opened Values
  import opened Documents
  import opened DocumentIds
  import opened Json
  import opened Ast
  import opened Evaluator
  import opened Indexes
  import opened Planner
  import opened Queries
  import opened NbfFormat
  import opened Wal
  import opened Recovery
  import opened CrashSafety
  import opened StrayTails
  import opened LogRuns
  import opened EngineState
  import opened EngineIndexes
  import opened EngineLog
  import opened EngineStatements
  import Interleaving

  class DatabaseEngine {
    const codec: Codec
    const wal: WriteAheadLog
    var collections: Collections
    var indexes: map<CollectionKey, Manager>
    var events: seq<DataEvent>

    // History: what the engine found in the log, and what became of the log since.
    ghost const uuids: UuidText
    ghost const start: Collections
    ghost const older: seq<NbfRecord>
    ghost var tape: Tape

    constructor (codec: Codec, wal: WriteAheadLog, collections: Collections, indexes: map<CollectionKey, Manager>,
                 ghost uuids: UuidText, ghost log: seq<Segment>)
      ensures this.codec == codec && this.wal == wal && this.collections == collections && this.indexes == indexes
      ensures this.uuids == uuids && events == [] && start == collections
      ensures older == Records(log) && tape == Tape(log, false, [])
    {
      this.codec, this.wal, this.collections, this.indexes := codec, wal, collections, indexes;
      this.uuids, this.start, this.older, this.tape := uuids, collections, Records(log), Tape(log, false, []);
      events := [];
    }

    /** The segment files are what the history says: the segments of the log, or ruined for good. */
    ghost predicate LogHeld()
      reads this`tape, wal, wal.dir
    {
      wal.Valid() && Faithful(uuids, codec) && TapeHeld(codec, wal.dir.segments, older, tape)
    }

    lemma HeldFaithful()
      requires LogHeld()
      ensures Faithful(uuids, codec)
    {
    }

    ghost function Past(emitted: seq<DataEvent>): History
      reads this
    {
      History(start, older, tape.records, emitted, collections)
    }

    /** Log, memory and the given events agree. */
    ghost predicate InStep(emitted: seq<DataEvent>)
      reads this, wal, wal.dir
    {
      LogHeld() && Agreed(uuids, codec, Past(emitted), wal.sequence)
    }

    ghost predicate Durable()
      reads this, wal, wal.dir
    {
      InStep(events)
    }

    ghost predicate Indexed()
      reads this
    {
      AllIndexed(collections, indexes)
    }

    /** The sequence counter can count `n` more records without wrapping. */
    ghost predicate Room(n: nat)
      reads wal
    {
      wal.sequence + n < U64_LIMIT
    }

    /**
     An engine in step can be killed at any time. If no record was written behind stray bytes, its log is
     one that `Open` recovers, and reopening it whole gives back the documents in memory, normalised by
     JSON. If one was, no later `Open` can succeed.
     */
    lemma RestartGivesMemory()
      requires Durable()
      ensures !tape.ruined ==>
        && Written(codec, tape.log) && wal.dir.segments == Image(tape.log)
        && SameNormalised(uuids, Restored(codec, tape.log), collections)
      ensures tape.ruined ==> Ruined(codec.read, wal.dir.segments)
    {
      hide IsDocumentId;
      hide Proper;
      hide Faithful;
      hide SameNormalised;
      hide EventsAgree;
      hide Replayed;
      hide Image;
      hide Records;
      hide AllSound;
    }

    /** The engine as the start of concurrent statements. */
    ghost function AsSystem(): Interleaving.System
      reads this
    {
      Interleaving.System(collections, indexes, older + tape.records, map[], map[], map[], map[])
    }

    /** An engine in step with exact indexes is where the interleaving theorems start. */
    lemma StartsInterleaving()
      requires Durable() && Indexed()
      ensures Interleaving.Initial(uuids, codec, AsSystem())
    {
      hide IsDocumentId;
      hide LogAgrees;
      hide EventsAgree;
      hide AllIndexed;
    }

    /** `wal.append` with the history kept up. */
    method LogRecord(recordType: RecordType, key: CollectionKey, id: DocumentId, payload: seq<byte>)
      returns (res: Result<u64>, ghost r: NbfRecord)
      requires LogHeld() && Room(1)
      requires recordType == Delete || codec.read(payload).Some?
      modifies wal, wal.dir, this`tape
      ensures LogHeld() && wal.sequence == old(wal.sequence) + 1
      ensures r == NbfRecord(wal.sequence, recordType, 0, None, r.timestamp, key.0, key.1, id, payload)
      ensures if Encodable(r) then res == Ok(wal.sequence) && tape == TapeAfter(old(tape), wal.limit, r)
              else res == Err(StorageError) && tape == old(tape)
    {
      hide IsDocumentId;
      hide Encodable;
      hide Faithful;
      hide Appended;
      hide Loggable;
      hide RecordBytes;
      hide TapeHeld;
      hide TapeAfter;
      NextIsSuccessor(wal.sequence);
      hide NextSequenceOf;
      var timestamp: u64 := *;
      res := wal.Append(recordType, key.0, key.1, id, payload, None, timestamp);
      r := NbfRecord(wal.sequence, recordType, 0, None, timestamp, key.0, key.1, id, payload);
      if res.Ok? {
        NewRecordLoggable(codec, r);
        TapeAppended(codec, old(wal.dir.segments), older, tape, wal.limit, r);
        tape := TapeAfter(tape, wal.limit, r);
      }
    }

    /** Writes a document as JSON and logs it, as an insert if there is none before it; prepares the event. */
    method LogPut(key: CollectionKey, before: Option<Document>, doc: Document) returns (res: Result<DataEvent>, ghost r: NbfRecord)
      requires LogHeld() && Room(1)
      modifies wal, wal.dir, this`tape
      ensures LogHeld() && Grew(old(tape), tape) && old(wal.sequence) <= wal.sequence <= old(wal.sequence) + 1
      ensures res.Ok? <==> Storable(codec, key, doc)
      ensures res.Err? ==> tape == old(tape) && res.code == StorageError
      ensures res.Ok? ==>
        && wal.sequence == old(wal.sequence) + 1 && r.sequence == wal.sequence && tape.records == old(tape).records + [r]
        && tape == TapeAfter(old(tape), wal.limit, r) && IsPutRecord(codec, r, key, doc) && Matches(codec, res.value, r)
        && res.value == DataEvent(wal.sequence, if before.Some? then UpdateEvent else CreateEvent, key, doc.id, before, Some(doc))
    {
      hide IsDocumentId;
      hide Faithful;
      hide LogHeld;
      hide IsPutRecord;
      hide Matches;
      hide RecordBytes;
      hide CleanTape;
      hide BehindJunk;
      hide AppendedLog;
      hide Utf8.ByteLength;
      var payload := codec.write(doc);
      if payload.None? {
        r := *;
        return Err(StorageError), r;
      }
      HeldFaithful();
      WriteReadable(uuids, codec, doc);
      var logged;
      logged, r := LogRecord(if before.Some? then Update else Insert, key, doc.id, payload.value);
      AppendGrew(old(tape), wal.limit, r);
      hide Grew;
      if logged.Err? { return Err(logged.code), r; }
      PutEntry(codec, r, key, before, doc);
      return Ok(DataEvent(logged.value, if before.Some? then UpdateEvent else CreateEvent, key, doc.id, before, Some(doc))), r;
    }

    /**
     `execute_insert`. An id that is taken is refused before anything happens; a document that JSON or the
     log refuses changes nothing but the sequence counter. Otherwise the document is logged, stored,
     indexed and announced.
     */
    method ExecuteInsert(key: CollectionKey, doc: Document) returns (res: Result<seq<Document>>)
      requires Durable() && Room(1)
      modifies this, wal, wal.dir
      ensures Durable() && Grew(old(tape), tape) && wal.sequence <= old(wal.sequence) + 1
      ensures doc.id in StoreOf(old(collections), key) <==> res == Err(DocumentAlreadyExists)
      ensures res.Ok? <==> doc.id !in StoreOf(old(collections), key) && Storable(codec, key, doc)
      ensures res.Err? ==> collections == old(collections) && indexes == old(indexes) && events == old(events) && tape == old(tape)
      ensures res.Ok? ==>
        && res.value == [doc] && |tape.records| == |old(tape).records| + 1
        && collections == WithDocument(old(collections), key, doc)
        && indexes == old(indexes)[key := MgrInserted(MgrOf(old(indexes), key), doc)]
        && events == old(events) + [DataEvent(wal.sequence, CreateEvent, key, doc.id, None, Some(doc))]
      ensures old(Indexed()) && ExactDocument(doc) ==> Indexed()
    {
      hide AllIndexed;
      hide ExactDocument;
      hide IsDocumentId;
      hide Encodable;
      hide Agreed;
      hide MgrInserted;
      hide Faithful;
      hide LogHeld;
      hide IsPutRecord;
      hide Matches;
      hide WithDocument;
      hide CleanTape;
      hide Storable;
      if key in collections && doc.id in collections[key] {
        return Err(DocumentAlreadyExists);
      }
      var logged, r := LogPut(key, None, doc);
      if logged.Err? {
        AgreedSkip(uuids, codec, old(Past(events)), old(wal.sequence), wal.sequence);
        return Err(logged.code);
      }
      HeldFaithful();
      collections := WithDocument(collections, key, doc);
      indexes := indexes[key := MgrInserted(MgrOf(indexes, key), doc)];
      AgreedPut(uuids, codec, old(Past(events)), old(wal.sequence), r, logged.value, key, doc);
      events := events + [logged.value];
      if old(Indexed()) && ExactDocument(doc) {
        InsertKeepsIndexed(old(collections), old(indexes), key, doc);
      }
      return Ok([doc]);
    }

    lemma WellKeyedAt(key: CollectionKey, id: DocumentId, emitted: seq<DataEvent>)
      requires InStep(emitted)
      ensures AllWellKeyed(collections)
      ensures key in collections && id in collections[key] ==> collections[key][id].id == id
    {
      hide IsDocumentId;
      hide LogHeld;
      AgreedKeyed(uuids, codec, Past(emitted), wal.sequence);
      hide Agreed;
    }

    /** The second half of a round in `execute_update`: log the changed document, then tell the indexes. */
    method LogUpdate(ghost was: Collections, key: CollectionKey, before: Document, after: Document, pending: seq<DataEvent>)
      returns (res: Result<DataEvent>)
      requires LogHeld() && Room(1) && key in indexes
      requires Agreed(uuids, codec, Past(events + pending).(memory := was), wal.sequence) && collections == WithDocument(was, key, after)
      modifies this`indexes, this`tape, wal, wal.dir
      ensures LogHeld() && Grew(old(tape), tape) && wal.sequence <= old(wal.sequence) + 1
      ensures res.Ok? <==> Storable(codec, key, after)
      ensures res.Err? ==> indexes == old(indexes) && tape == old(tape)
      ensures res.Ok? ==>
        && InStep(events + (pending + [res.value])) && |tape.records| == |old(tape).records| + 1
        && indexes == old(indexes)[key := MgrUpdated(old(indexes)[key], before, after)]
    {
      hide IsDocumentId;
      hide MgrUpdated;
      hide LogHeld;
      hide IsPutRecord;
      hide Matches;
      hide WithDocument;
      hide Agreed;
      hide Grew;
      hide Storable;
      hide Faithful;
      HeldFaithful();
      var logged, r := LogPut(key, Some(before), after);
      if logged.Err? { return Err(logged.code); }
      indexes := indexes[key := MgrUpdated(indexes[key], before, after)];
      AgreedPut(uuids, codec, old(Past(events + pending)).(memory := was), old(wal.sequence), r, logged.value, key, after);
      assert (events + pending) + [logged.value] == events + (pending + [logged.value]);
      return Ok(logged.value);
    }

    /** A document changed in memory only: what that does to the agreement with the log. */
    lemma Unlogged(was: Collections, key: CollectionKey, after: Document, emitted: seq<DataEvent>, top: nat)
      requires Agreed(uuids, codec, Past(emitted).(memory := was), top)
      requires after.id in StoreOf(was, key) && collections == WithDocument(was, key, after)
      ensures LogAgrees(uuids, codec, older + tape.records, collections)
              <==> NormDocument(uuids, after) == NormDocument(uuids, StoreOf(was, key)[after.id])
    {
      hide IsDocumentId;
      hide LogAgrees;
      hide EventsAgree;
      hide NormDocument;
      hide WithDocument;
      UnloggedChange(uuids, codec, older + tape.records, was, key, after);
    }

    /**
     One round of the loop in `execute_update`. If the assignments or the log fail, the document is left
     changed and unlogged; memory and log then agree exactly if JSON cannot tell the difference.
     */
    method UpdateOne(key: CollectionKey, id: DocumentId, assignments: seq<Assignment>, pending: seq<DataEvent>) returns (res: Result<DataEvent>, after: Document)
      requires InStep(events + pending) && Room(1) && key in collections && id in collections[key] && key in indexes
      modifies this`collections, this`indexes, this`tape, wal, wal.dir
      ensures LogHeld() && Grew(old(tape), tape) && wal.sequence <= old(wal.sequence) + 1 && indexes.Keys == old(indexes.Keys)
      ensures after.id == id && collections == WithDocument(old(collections), key, after)
      ensures IsFailedUpdateOf(assignments, old(collections)[key][id], after)
      ensures res.Err? ==>
        && indexes == old(indexes) && tape == old(tape)
        && (LogAgrees(uuids, codec, older + tape.records, collections)
            <==> NormDocument(uuids, after) == NormDocument(uuids, old(collections)[key][id]))
      ensures res.Ok? ==>
        && InStep(events + (pending + [res.value]))
        && IsUpdateOf(assignments, old(collections)[key][id], after)
        && |tape.records| == |old(tape).records| + 1
      ensures res.Ok? && old(Indexed()) && ExactDocument(after) ==> Indexed()
    {
      hide IsDocumentId;
      hide MgrUpdated;
      hide LogHeld;
      hide AllWellKeyed;
      hide AllIndexed;
      hide ExactDocument;
      hide AssignmentsApplied;
      hide IsUpdateOf;
      hide IsFailedUpdateOf;
      hide Agreed;
      hide LogAgrees;
      hide NormDocument;
      hide WithDocument;
      hide Grew;
      hide Storable;
      WellKeyedAt(key, id, events + pending);
      GrewRefl(tape);
      var before := collections[key][id];
      var now: i64 := *;
      var applied;
      applied, after := ApplyAssignments(before, assignments, now);
      AppliedIsUpdate(before, assignments, now);
      collections := WithDocument(collections, key, after);
      Unlogged(old(collections), key, after, events + pending, wal.sequence);
      if applied.Err? { return Err(applied.code), after; }
      res := LogUpdate(old(collections), key, before, after, pending);
      if res.Ok? && old(Indexed()) && ExactDocument(after) {
        UpdateKeepsIndexed(old(collections), old(indexes), key, after);
      }
    }

    /** One round of the loop in `execute_remove`. The log never refuses: the names of a stored document fit. */
    method RemoveOne(key: CollectionKey, id: DocumentId, pending: seq<DataEvent>) returns (res: Result<DataEvent>)
      requires InStep(events + pending) && Room(1) && key in collections && id in collections[key] && key in indexes
      modifies this`collections, this`indexes, this`tape, wal, wal.dir
      ensures LogHeld() && Grew(old(tape), tape) && wal.sequence <= old(wal.sequence) + 1 && indexes.Keys == old(indexes.Keys)
      ensures collections == WithoutDocument(old(collections), key, id)
      ensures res.Ok? && InStep(events + (pending + [res.value])) && |tape.records| == |old(tape).records| + 1
      ensures old(Indexed()) ==> Indexed()
    {
      hide IsDocumentId;
      hide MgrRemoved;
      hide AllIndexed;
      hide IsDeleteRecord;
      hide Matches;
      hide WithoutDocument;
      hide AllWellKeyed;
      hide LogHeld;
      hide RecordBytes;
      hide CleanTape;
      hide BehindJunk;
      hide AppendedLog;
      hide Utf8.ByteLength;
      var removed := collections[key][id];
      AgreedKeyed(uuids, codec, Past(events + pending), wal.sequence);
      AgreedNamesFit(uuids, codec, Past(events + pending), wal.sequence, key, id);
      hide Agreed;
      collections := WithoutDocument(collections, key, id);
      var logged, r := LogRecord(Delete, key, id, []);
      assert logged.Ok?;
      AppendGrew(old(tape), wal.limit, r);
      hide Grew;
      indexes := indexes[key := MgrRemoved(indexes[key], removed)];
      var event := DataEvent(logged.value, DeleteEvent, key, id, Some(removed), None);
      DeleteEntry(codec, r, key, id, removed);
      hide Encodable;
      AgreedDelete(uuids, codec, old(Past(events + pending)), old(wal.sequence), r, event, key, id);
      assert (events + pending) + [event] == events + (pending + [event]);
      if old(Indexed()) {
        RemoveKeepsIndexed(old(collections), old(indexes), key, id);
      }
      return Ok(event);
    }

    /** `colls.entry(key).or_default()` and the same for the indexes. */
    method Touch(key: CollectionKey)
      requires Durable()
      modifies this`collections, this`indexes
      ensures Durable() && collections == old(collections)[key := StoreOf(old(collections), key)]
      ensures indexes == old(indexes)[key := MgrOf(old(indexes), key)]
      ensures old(Indexed()) ==> Indexed()
    {
      hide IsDocumentId;
      hide LogHeld;
      hide Agreed;
      hide AllIndexed;
      hide ExactStore;
      hide ManagerExact;
      AgreedTouch(uuids, codec, Past(events), wal.sequence, key);
      collections := collections[key := StoreOf(collections, key)];
      indexes := indexes[key := MgrOf(indexes, key)];
      if old(Indexed()) {
        ManagerOfExact(old(collections), old(indexes), key);
        ReplaceCollection(old(collections), old(indexes), key, StoreOf(old(collections), key), MgrOf(old(indexes), key));
      }
    }

    /** The events of a finished statement, one after another. */
    method Emit(pending: seq<DataEvent>)
      modifies this`events
      ensures events == old(events) + pending
    {
      for i := 0 to |pending|
        invariant events == old(events) + pending[..i]
      {
        events := events + [pending[i]];
      }
    }

    /** The loop of `execute_update`, under both write locks, visiting the documents in any order. */
    method UpdateAll(key: CollectionKey, assignments: seq<Assignment>, filter: Option<Expr>)
      returns (res: Result<seq<DataEvent>>, ghost gap: Gap)
      requires Durable() && key in collections && key in indexes && Room(|collections[key]|)
      modifies this`collections, this`indexes, this`tape, wal, wal.dir
      ensures LogHeld() && Grew(old(tape), tape)
      ensures res.Err? ==>
        && StoppedUpdate(filter, assignments, old(collections), collections, key, gap)
        && (LogAgrees(uuids, codec, older + tape.records, collections) <==> Harmless(uuids, gap))
      ensures res.Ok? ==>
        && InStep(events + res.value) && |tape.records| == |old(tape).records| + |res.value|
        && |res.value| == |Matching(StoreOf(old(collections), key), filter)|
        && Elsewhere(old(collections), collections, key)
        && AllUpdated(filter, assignments, StoreOf(old(collections), key), StoreOf(collections, key))
      ensures res.Ok? && old(Indexed()) && ExactStore(StoreOf(collections, key)) ==> Indexed()
    {
      hide IsDocumentId;
      hide LogHeld;
      hide LogAgrees;
      hide EventsAgree;
      hide AllIndexed;
      hide IsUpdateOf;
      hide IsFailedUpdateOf;
      hide AllUpdated;
      hide StoppedUpdate;
      hide Elsewhere;
      hide MatchesFilter;
      hide UpdateProgress;
      hide ExactSoFar;
      hide ExactStore;
      hide ExactDocument;
      hide NormDocument;
      hide WithDocument;
      hide Matching;
      hide Grew;
      ghost var before := collections;
      UpdateStarts(filter, assignments, before, key);
      GrewRefl(tape);
      gap := NoGap;
      var pending: seq<DataEvent> := [];
      var todo := collections[key].Keys;
      assert events + pending == events;
      ghost var accepted: set<DocumentId> := {};
      while todo != {}
        invariant UpdateProgress(filter, assignments, before, collections, key, todo, accepted)
        invariant key in indexes && gap == NoGap
        invariant LogHeld() && InStep(events + pending) && Room(|todo|) && Grew(old(tape), tape)
        invariant |pending| == |accepted| && |tape.records| == |old(tape).records| + |pending|
        invariant old(Indexed()) && ExactSoFar(collections, key, todo) ==> Indexed()
        decreases todo
      {
        var id :| id in todo;
        UpdateTarget(filter, assignments, before, collections, key, todo, accepted, id);
        var matches := MatchesFilter(filter, collections[key][id]);
        ghost var (now, wasTape) := (collections, tape);
        if matches.Err? { return Err(matches.code), NoGap; }
        if matches.value {
          var event, after := UpdateOne(key, id, assignments, pending);
          GrewTransitive(old(tape), wasTape, tape);
          if event.Err? {
            UpdateFails(filter, assignments, before, now, key, todo, accepted, after);
            return Err(event.code), Gap(now[key][id], after);
          }
          UpdateMoves(filter, assignments, before, now, key, todo, accepted, after);
          pending := pending + [event.value];
          accepted := accepted + {id};
        } else {
          UpdateSkips(filter, assignments, before, now, key, todo, accepted, id);
        }
        todo := todo - {id};
      }
      UpdateDone(filter, assignments, before, collections, key, accepted);
      return Ok(pending), NoGap;
    }

    /**
     `execute_update`. On success the three views are in step, the accepted documents are updated and no
     other document is touched. An error stops the loop where it is: earlier documents stay changed and
     logged, their events are not emitted, and the document it failed on may stay changed and unlogged.
     Memory and log still agree exactly if JSON cannot tell that document from what it was.
     */
    method ExecuteUpdate(key: CollectionKey, assignments: seq<Assignment>, filter: Option<Expr>) returns (res: Result<nat>, ghost gap: Gap)
      requires Durable() && Room(|StoreOf(collections, key)|)
      modifies this, wal, wal.dir
      ensures LogHeld() && Grew(old(tape), tape)
      ensures res.Err? ==>
        && StoppedUpdate(filter, assignments, old(collections), collections, key, gap)
        && (LogAgrees(uuids, codec, older + tape.records, collections) <==> Harmless(uuids, gap))
        && events == old(events)
      ensures res.Ok? ==>
        && Durable()
        && res.value == |Matching(StoreOf(old(collections), key), filter)| == |events| - |old(events)|
        && |tape.records| == |old(tape).records| + res.value
        && Elsewhere(old(collections), collections, key)
        && AllUpdated(filter, assignments, StoreOf(old(collections), key), StoreOf(collections, key))
      ensures res.Ok? && old(Indexed()) && ExactStore(StoreOf(collections, key)) ==> Indexed()
    {
      hide IsDocumentId;
      hide LogHeld;
      hide Agreed;
      hide LogAgrees;
      hide AllIndexed;
      hide Matching;
      hide AllUpdated;
      hide UpdatedIf;
      hide Accepted;
      hide IsFailedUpdateOf;
      hide Harmless;
      hide ExactStore;
      hide Grew;
      Touch(key);
      TouchedStores(old(collections), key);
      assert collections[key] == StoreOf(collections, key);
      hide StoreOf;
      var pending;
      pending, gap := UpdateAll(key, assignments, filter);
      if pending.Err? { return Err(pending.code), gap; }
      Emit(pending.value);
      return Ok(|pending.value|), gap;
    }

    /**
     The ids of the documents to remove. A filter that fails on a document does not select it; one that
     panics ends the statement.
     */
    method Targets(store: Store, filter: Option<Expr>) returns (res: Result<set<DocumentId>>)
      ensures res.Ok? <==> PanicFree(store, filter)
      ensures if res.Ok? then res.value == Matching(store, filter) else res == Err(Panicked)
    {
      hide IsDocumentId;
      hide MatchesFilter;
      var ids: set<DocumentId> := {};
      var todo := store.Keys;
      while todo != {}
        invariant todo <= store.Keys
        invariant forall id :: id in store && id !in todo ==> MatchesFilter(filter, store[id]) != Err(Panicked)
        invariant ids == set id | id in store && id !in todo && Accepted(filter, store[id])
        decreases todo
      {
        var id :| id in todo;
        var verdict := MatchesFilter(filter, store[id]);
        if verdict == Err(Panicked) { return Err(Panicked); }
        if verdict == Ok(true) { ids := ids + {id}; }
        todo := todo - {id};
      }
      return Ok(ids);
    }

    /** The loop of `execute_remove`, under both write locks. */
    method RemoveAll(key: CollectionKey, targets: set<DocumentId>) returns (res: Result<seq<DataEvent>>)
      requires Durable() && Room(|targets|) && key in collections && key in indexes && targets <= collections[key].Keys
      modifies this`collections, this`indexes, this`tape, wal, wal.dir
      ensures LogHeld() && Grew(old(tape), tape) && Elsewhere(old(collections), collections, key)
      ensures res.Ok? && InStep(events + res.value)
      ensures |res.value| == |targets| && |tape.records| == |old(tape).records| + |targets|
      ensures StoreOf(collections, key) == StoreOf(old(collections), key) - targets
      ensures old(Indexed()) ==> Indexed()
    {
      hide IsDocumentId;
      hide LogHeld;
      hide Agreed;
      hide AllIndexed;
      hide RemoveProgress;
      hide WithoutDocument;
      hide Elsewhere;
      hide Grew;
      ghost var before := collections;
      RemoveStarts(before, key, targets);
      GrewRefl(tape);
      var pending: seq<DataEvent> := [];
      assert events + pending == events;
      var todo := targets;
      while todo != {}
        invariant RemoveProgress(before, collections, key, targets, todo)
        invariant key in indexes
        invariant LogHeld() && InStep(events + pending) && Room(|todo|) && Grew(old(tape), tape)
        invariant |pending| + |todo| == |targets| && |tape.records| == |old(tape).records| + |pending|
        invariant old(Indexed()) ==> Indexed()
        decreases todo
      {
        var id :| id in todo;
        RemoveMoves(before, collections, key, targets, todo, id);
        ghost var wasTape := tape;
        var event := RemoveOne(key, id, pending);
        GrewTransitive(old(tape), wasTape, tape);
        todo := todo - {id};
        pending := pending + [event.value];
      }
      RemoveElsewhere(before, collections, key, targets, todo);
      return Ok(pending);
    }

    /**
     `execute_remove`: exactly the matching documents disappear, from memory, log replay and indexes,
     unless the filter panics on a stored document. Then the statement unwinds before it removes or logs
     anything. A filter that fails on a document in any other way does not select it.
     */
    method ExecuteRemove(key: CollectionKey, filter: Option<Expr>) returns (res: Result<nat>)
      requires Durable() && Room(|StoreOf(collections, key)|)
      modifies this, wal, wal.dir
      ensures Durable() && Grew(old(tape), tape) && Elsewhere(old(collections), collections, key)
      ensures res.Ok? <==> PanicFree(StoreOf(old(collections), key), filter)
      ensures res.Err? ==>
        && res == Err(Panicked) && StoreOf(collections, key) == StoreOf(old(collections), key)
        && MgrOf(indexes, key) == MgrOf(old(indexes), key) && events == old(events) && tape == old(tape)
      ensures res.Ok? ==>
        && res.value == |Matching(StoreOf(old(collections), key), filter)|
        && StoreOf(collections, key) == StoreOf(old(collections), key) - Matching(StoreOf(old(collections), key), filter)
        && |events| == |old(events)| + res.value && |tape.records| == |old(tape).records| + res.value
      ensures old(Indexed()) ==> Indexed()
    {
      hide IsDocumentId;
      hide LogHeld;
      hide Agreed;
      hide AllIndexed;
      hide Matching;
      hide PanicFree;
      Touch(key);
      TouchedStores(old(collections), key);
      GrewRefl(tape);
      hide Grew;
      assert collections[key] == StoreOf(collections, key);
      hide StoreOf;
      var targets := Targets(collections[key], filter);
      if targets.Err? { return Err(targets.code); }
      MatchingFits(collections[key], filter);
      var removed := RemoveAll(key, targets.value);
      Emit(removed.value);
      return Ok(|removed.value|);
    }

    /** `execute_create_index`: built from the stored documents, it replaces an index on the same field. */
    method ExecuteCreateIndex(key: CollectionKey, field: string, indexType: IndexType)
      requires Durable()
      modifies this`indexes
      ensures Durable()
      ensures indexes == old(indexes)[key := MgrOf(old(indexes), key)[
                IndexName(key.1, field) := Index(field, KindOf(indexType), EntriesOf(StoreOf(collections, key), field))]]
      ensures old(Indexed()) ==> Indexed()
    {
      hide IsDocumentId;
      hide LogHeld;
      hide EntriesOf;
      hide AllIndexed;
      AgreedKeyed(uuids, codec, Past(events), wal.sequence);
      hide Agreed;
      hide IndexName;
      var entries := BuildIndex(StoreOf(collections, key), field);
      var index := Index(field, KindOf(indexType), entries);
      indexes := indexes[key := MgrOf(indexes, key)[IndexName(key.1, field) := index]];
      if old(Indexed()) {
        CreateKeepsIndexed(collections, old(indexes), key, index);
      }
    }

    /** `execute_drop_index`. */
    method ExecuteDropIndex(key: CollectionKey, field: string) returns (res: Result<()>)
      requires Durable()
      modifies this`indexes
      ensures Durable() && (old(Indexed()) ==> Indexed())
      ensures res.Ok? <==> IndexName(key.1, field) in MgrOf(old(indexes), key)
      ensures if res.Ok? then indexes == old(indexes)[key := old(indexes)[key] - {IndexName(key.1, field)}]
              else res == Err(IndexNotFound) && indexes == old(indexes)
    {
      hide IsDocumentId;
      hide LogHeld;
      hide AllIndexed;
      hide Agreed;
      hide IndexName;
      var name := IndexName(key.1, field);
      if key in indexes && name in indexes[key] {
        indexes := indexes[key := indexes[key] - {name}];
        if old(Indexed()) {
          DropKeepsIndexed(collections, old(indexes), key, name);
        }
        return Ok(());
      }
      return Err(IndexNotFound);
    }

    /**
     `execute_find`. While the indexes are exact, a filter that raises no error and that an index may
     answer finds exactly the documents a scan would find, whatever plan is chosen.
     */
    method ExecuteFind(key: CollectionKey, filter: Option<Expr>, sort: Option<SortClause>, limit: Option<nat>, offset: Option<nat>)
      returns (res: Result<seq<Document>>)
      requires Durable()
      ensures Indexed() && ErrorFree(StoreOf(collections, key), filter)
              && SafeToPlan(filter, FinderOf(MgrOf(indexes, key), key.1), StoreOf(collections, key))
              && !Panics(Plan(filter, FinderOf(MgrOf(indexes, key), key.1)), MgrOf(indexes, key)) ==>
                exists found :: IsMatchList(found, StoreOf(collections, key), filter) && res == Ok(Presented(found, sort, limit, offset))
    {
      hide IsDocumentId;
      hide LogHeld;
      hide Matching;
      hide Plan;
      hide Panics;
      hide ErrorFree;
      hide Filtered;
      hide SafeToPlan;
      hide CandidateBag;
      hide IsCandidateList;
      hide FinderOf;
      hide Presented;
      hide Comparable;
      if key !in collections {
        NothingStored(filter, sort, limit, offset);
        return Ok([]);
      }
      var (store, mgr) := (collections[key], MgrOf(indexes, key));
      res := Find(store, mgr, FinderOf(mgr, key.1), filter, sort, limit, offset);
      WellKeyedStore(key);
      hide Agreed;
      if Indexed() && ErrorFree(store, filter) && SafeToPlan(filter, FinderOf(mgr, key.1), store)
         && !Panics(Plan(filter, FinderOf(mgr, key.1)), mgr)
      {
        ghost var ids :| IsCandidateList(ids, Plan(filter, FinderOf(mgr, key.1)), mgr, store)
                         && IsAnswer(res, store, filter, ids, sort, limit, offset);
        ManagerOfExact(collections, indexes, key);
        FinderConsistent(mgr, key.1);
        FindAgreesWithScan(store, mgr, FinderOf(mgr, key.1), filter, ids);
        MatchesComparable(store, filter, Filtered(store, filter, ids).value, sort);
        assert IsMatchList(Filtered(store, filter, ids).value, store, filter);
      }
    }

    lemma WellKeyedStore(key: CollectionKey)
      requires Durable()
      ensures WellKeyed(StoreOf(collections, key))
    {
      hide IsDocumentId;
      hide LogHeld;
      AgreedKeyed(uuids, codec, Past(events), wal.sequence);
      hide Agreed;
    }

    /** `execute_count`. */
    method ExecuteCount(key: CollectionKey, filter: Option<Expr>) returns (res: Result<nat>)
      ensures res.Ok? <==> ErrorFree(StoreOf(collections, key), filter)
      ensures res.Ok? ==> res.value == |Matching(StoreOf(collections, key), filter)|
    {
      if key !in collections {
        assert Matching(StoreOf(collections, key), filter) == {};
        return Ok(0);
      }
      res := Count(collections[key], filter);
    }

    /** `execute_exists`. */
    method ExecuteExists(key: CollectionKey, filter: Option<Expr>) returns (res: Result<bool>)
      ensures ErrorFree(StoreOf(collections, key), filter) ==> res == Ok(Matching(StoreOf(collections, key), filter) != {})
      ensures res == Ok(true) ==> Matching(StoreOf(collections, key), filter) != {}
      ensures res == Ok(false) ==> Matching(StoreOf(collections, key), filter) == {} && ErrorFree(StoreOf(collections, key), filter)
    {
      if key !in collections {
        assert Matching(StoreOf(collections, key), filter) == {};
        return Ok(false);
      }
      res := Exists(collections[key], filter);
    }

    /**
     `DatabaseEngine::open` on an empty directory, or on the log of an engine after a crash at any byte of
     its last segment: recovery, then the log, then a manager without indexes for every collection. The
     engine starts with its views in step, holding the replay of exactly the surviving records, and with
     its indexes exact if the documents are. On a ruined log it fails.
     */
    static method Open(codec: Codec, dir: WalDirectory, limit: nat,
                       ghost uuids: UuidText, ghost written: seq<Segment>, ghost kept: nat)
      returns (res: Result<DatabaseEngine>)
      requires Faithful(uuids, codec)
      requires StartSite(codec, dir.segments, written, kept) || Ruined(codec.read, dir.segments)
      modifies dir
      ensures old(Ruined(codec.read, dir.segments)) ==> res == Err(WalCorrupted) && dir.segments == old(dir.segments)
      ensures old(StartSite(codec, dir.segments, written, kept)) ==>
        && res.Ok? && fresh(res.value) && fresh(res.value.wal) && res.value.wal.dir == dir
        && res.value.uuids == uuids && res.value.codec == codec && res.value.wal.limit == limit
        && res.value.Durable() && res.value.tape == Tape(Surviving(written, kept), false, []) && res.value.events == []
        && Written(codec, Surviving(written, kept)) && res.value.collections == Restored(codec, Surviving(written, kept))
        && res.value.indexes == NoIndexes(res.value.collections)
        && (AllExact(res.value.collections) ==> res.value.Indexed())
    {
      hide IsDocumentId;
      hide Surviving;
      hide Faithful;
      hide Agreed;
      hide Written;
      hide StartSite;
      hide Ruined;
      hide Restored;
      hide Records;
      hide Holds;
      hide RecoveredFrom;
      hide AllIndexed;
      hide AllExact;
      ghost var found := dir.segments;
      if Ruined(codec.read, found) { RuinedFails(codec.read, found); }
      if StartSite(codec, found, written, kept) { RecoverySucceeds(codec, found, written, kept); }
      var recovered :- Recover(codec.read, dir);
      ghost var log := Surviving(written, kept);
      var wal := new WriteAheadLog.Open(dir, limit);
      wal.SetSequence(recovered.maxSequence);
      var engine := new DatabaseEngine(codec, wal, recovered.collections, NoIndexes(recovered.collections), uuids, log);
      StartAgrees(uuids, codec, log, wal.sequence);
      if AllExact(recovered.collections) { NoIndexesExact(recovered.collections); }
      assert engine.older == engine.older + engine.tape.records;
      return Ok(engine);
    }
  }
}
