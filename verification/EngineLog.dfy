/** The log behind the engine: what it writes, and what it finds again when it is opened. */
module EngineLog {
  import opened Core
  import opened Bytes
  import opened Documents
  import opened DocumentIds
  import opened Json
  import opened NbfFormat
  import opened Wal
  import opened Recovery
  import opened CrashSafety
  import opened StrayTails
  import opened EngineState

  // ---- the log behind the engine ----

  /** A log as the engine writes it. */
  ghost predicate Written(codec: Codec, log: seq<Segment>) {
    log != [] && AllProper(codec, Records(log)) && AllSound(codec.read, log)
  }

  /** The files of a written log, the last one cut to `kept` bytes by a crash. */
  ghost predicate CrashSite(codec: Codec, files: seq<seq<byte>>, written: seq<Segment>, kept: nat) {
    && Written(codec, written) && kept <= |SegmentBytes(written[|written| - 1])|
    && files == Crashed(Image(written), kept)
  }

  const NEW_LOG := [Segment([], [])]

  /** What an engine may be started on: an empty directory, or a log after a crash. */
  ghost predicate StartSite(codec: Codec, files: seq<seq<byte>>, written: seq<Segment>, kept: nat) {
    CrashSite(codec, files, written, kept) || (files == [] && written == NEW_LOG && kept == 0)
  }

  /** What a crash and the repair leave of a log. */
  function Surviving(written: seq<Segment>, kept: nat): seq<Segment> {
    if written != [] && kept <= |SegmentBytes(written[|written| - 1])| then Kept(written, kept) else []
  }

  /** The documents that a written log stands for. */
  ghost function Restored(codec: Codec, log: seq<Segment>): Collections {
    if Written(codec, log) then Replayed(codec, Records(log)) else map[]
  }

  /** The files hold exactly the segments of the log. */
  ghost predicate Holds(codec: Codec, files: seq<seq<byte>>, log: seq<Segment>) {
    log != [] && files == Image(log) && AllSound(codec.read, log)
  }

  lemma EmptySegment(s: Segment)
    requires s.records == [] && s.junk == []
    ensures SegmentBytes(s) == [] && CutTo(s, 0) == s
  {
    hide RecordBytes;
    CutAll(s);
    hide CutTo;
  }

  lemma NewLogFiles(log: seq<Segment>, s: Segment)
    requires log == [s] && SegmentBytes(s) == [] && s.records == []
    ensures Image(log) == [[]] && Records(log) == [] && |SegmentBytes(log[|log| - 1])| == 0
  {
    hide SegmentBytes;
    hide Image;
    RecordsOne(s);
    hide Records;
  }

  lemma NewLogKept(log: seq<Segment>, s: Segment)
    requires log == [s] && s.records == [] && s.junk == [] && |SegmentBytes(log[|log| - 1])| == 0
    ensures Kept(log, 0) == log
  {
    hide SegmentBytes;
    hide CutTo;
    EmptySegment(s);
    assert log[0 := s] == log;
  }

  lemma NewLog(codec: Codec)
    ensures Written(codec, NEW_LOG) && Holds(codec, [[]], NEW_LOG) && Surviving(NEW_LOG, 0) == NEW_LOG
    ensures Restored(codec, NEW_LOG) == map[]
  {
    hide SegmentBytes;
    hide CutTo;
    hide Kept;
    hide Records;
    hide Image;
    hide Replayed;
    EmptySegment(NEW_LOG[0]);
    NewLogFiles(NEW_LOG, NEW_LOG[0]);
    NewLogKept(NEW_LOG, NEW_LOG[0]);
    EmptyReplay(codec);
  }

  lemma EmptyDirectory(read: PayloadReader)
    ensures RecoveredFrom(read, [], 0, EMPTY) == (Ok(EMPTY), [])
  {
  }

  /** What `open` finds. */
  lemma RecoverySucceeds(codec: Codec, files: seq<seq<byte>>, written: seq<Segment>, kept: nat)
    requires StartSite(codec, files, written, kept)
    ensures Written(codec, Surviving(written, kept))
    ensures var (verdict, repaired) := RecoveredFrom(codec.read, files, 0, EMPTY);
            && verdict.Ok? && verdict.value.collections == Restored(codec, Surviving(written, kept))
            && Holds(codec, if repaired == [] then [[]] else repaired, Surviving(written, kept))
  {
    hide IsDocumentId;
    hide RecoveredFrom;
    hide CrashSite;
    hide Written;
    hide Surviving;
    hide Restored;
    if CrashSite(codec, files, written, kept) {
      RecoveryAfterCrash(codec, files, written, kept);
    } else {
      hide Holds;
      NewLog(codec);
      EmptyDirectory(codec.read);
    }
  }

  lemma RecoveryAfterCrash(codec: Codec, files: seq<seq<byte>>, written: seq<Segment>, kept: nat)
    requires CrashSite(codec, files, written, kept)
    ensures Written(codec, Surviving(written, kept)) && Surviving(written, kept) != []
    ensures var (verdict, repaired) := RecoveredFrom(codec.read, files, 0, EMPTY);
            && verdict.Ok? && verdict.value.collections == Restored(codec, Surviving(written, kept))
            && Holds(codec, repaired, Surviving(written, kept))
  {
    hide IsDocumentId;
    hide RecoveredFrom;
    hide Replay;
    hide Proper;
    hide Sound;
    hide SegmentBytes;
    hide Residue;
    hide Records;
    CrashRecovery(codec.read, written, kept);
    KeptSound(codec.read, written, kept);
    KeptProper(codec, written, kept);
    hide Kept;
    ReplayProper(codec, Records(Kept(written, kept)));
  }

  /** Stopping without a crash is the case of a crash that cuts nothing. */
  lemma CleanStop(codec: Codec, written: seq<Segment>)
    requires Written(codec, written)
    ensures var n := |SegmentBytes(written[|written| - 1])|;
            CrashSite(codec, Image(written), written, n) && Surviving(written, n) == written
  {
    hide IsDocumentId;
    hide RecordBytes;
    hide Proper;
    hide Loggable;
    hide LogBytes;
    var last := written[|written| - 1];
    var bytes := SegmentBytes(last);
    assert Sound(codec.read, last);
    assert |bytes| >= |LogBytes(last.records)|;
    CutAll(last);
    hide SegmentBytes;
    hide CutTo;
    assert bytes[..|bytes|] == bytes;
    assert Crashed(Image(written), |bytes|) == Image(written);
  }

  lemma CutAll(s: Segment)
    requires |s.junk| <= 3
    ensures CutTo(s, |SegmentBytes(s)|) == s
  {
    hide RecordBytes;
    CutBehind(RecordBytes, s.records, |SegmentBytes(s)|);
    hide Survivors;
    hide Residue;
    assert s.records[..|s.records|] == s.records;
  }

  lemma StartAgrees(u: UuidText, codec: Codec, log: seq<Segment>, top: nat)
    requires Faithful(u, codec) && Written(codec, log)
    ensures Agreed(u, codec, History(Restored(codec, log), Records(log), [], [], Restored(codec, log)), top)
  {
    hide IsDocumentId;
    AgreedStart(u, codec, Records(log), top);
  }

  lemma KeptProper(codec: Codec, log: seq<Segment>, n: nat)
    requires Written(codec, log) && n <= |SegmentBytes(log[|log| - 1])|
    ensures AllProper(codec, Records(Kept(log, n)))
  {
    hide IsDocumentId;
    hide Proper;
    hide Kept;
    hide Sound;
    hide Records;
    hide SegmentBytes;
    KeptSound(codec.read, log, n);
    var dropped :| Records(log) == Records(Kept(log, n)) + dropped;
    forall i | 0 <= i < |Records(Kept(log, n))|
      ensures Proper(codec, Records(Kept(log, n))[i])
    {
      assert Records(log)[i] == Records(Kept(log, n))[i];
    }
  }

  // ---- the history of the log ----

  /**
   History variable of a running engine: the segments behind the files, the records added since it was
   opened, and whether one of them was written behind stray bytes, which ruins the log for good.
   */
  datatype Tape = Tape(log: seq<Segment>, ruined: bool, records: seq<NbfRecord>)

  ghost predicate TapeHeld(codec: Codec, files: seq<seq<byte>>, older: seq<NbfRecord>, tape: Tape) {
    if tape.ruined then Ruined(codec.read, files)
    else Holds(codec, files, tape.log) && Records(tape.log) == older + tape.records
  }

  /** What one acknowledged append does to the history. */
  function TapeAfter(tape: Tape, limit: nat, r: NbfRecord): Tape {
    if tape.ruined || tape.log == [] || BehindJunk(tape.log, limit, r) then Tape(tape.log, true, tape.records + [r])
    else Tape(AppendedLog(tape.log, limit, r), false, tape.records + [r])
  }

  lemma TapeAppended(codec: Codec, files: seq<seq<byte>>, older: seq<NbfRecord>, tape: Tape, limit: nat, r: NbfRecord)
    requires TapeHeld(codec, files, older, tape) && Loggable(codec.read, r) && files != []
    ensures TapeHeld(codec, Appended(files, limit, RecordBytes(r)), older, TapeAfter(tape, limit, r))
  {
    hide IsDocumentId;
    hide RecordBytes;
    hide SegmentBytes;
    hide Loggable;
    hide AppendedLog;
    hide Records;
    hide Ruined;
    if tape.ruined {
      RuinedStays(codec.read, files, limit, RecordBytes(r));
    } else if BehindJunk(tape.log, limit, r) {
      AppendRuins(codec.read, tape.log, limit, r);
    } else {
      AppendedImage(codec.read, tape.log, limit, r);
      hide AllSound;
      hide Appended;
      assert older + tape.records + [r] == older + (tape.records + [r]);
    }
  }

  /** Nothing stray lies behind the last record. */
  predicate CleanTape(tape: Tape) {
    !tape.ruined && tape.log != [] && LastSegment(tape.log).junk == []
  }

  /** What any statement may do to the log: once clean it stays clean, and only an append can ruin it. */
  predicate Grew(was: Tape, now: Tape) {
    && (CleanTape(was) ==> CleanTape(now))
    && (was.ruined ==> now.ruined)
    && was.records <= now.records
    && (now.records == was.records ==> now == was)
    && (now.records != was.records ==> now.ruined || CleanTape(now))
  }

  lemma AppendGrew(tape: Tape, limit: nat, r: NbfRecord)
    ensures Grew(tape, TapeAfter(tape, limit, r))
  {
    hide RecordBytes;
    hide SegmentBytes;
    hide IsDocumentId;
  }

  lemma GrewRefl(tape: Tape)
    ensures Grew(tape, tape)
  {
  }

  lemma GrewTransitive(a: Tape, b: Tape, c: Tape)
    requires Grew(a, b) && Grew(b, c)
    ensures Grew(a, c)
  {
    hide CleanTape;
    hide IsDocumentId;
  }

  lemma NewRecordLoggable(codec: Codec, r: NbfRecord)
    requires Encodable(r) && r.txId == None
    requires r.recordType == Delete || codec.read(r.payload).Some?
    ensures Loggable(codec.read, r)
  {
    hide IsDocumentId;
    hide Encodable;
  }

  lemma PutEntry(codec: Codec, r: NbfRecord, key: CollectionKey, before: Option<Document>, doc: Document)
    requires Encodable(r) && (r.recordType == if before.Some? then Update else Insert)
    requires r == NbfRecord(r.sequence, r.recordType, 0, None, r.timestamp, key.0, key.1, doc.id, r.payload)
    requires codec.write(doc) == Some(r.payload)
    ensures IsPutRecord(codec, r, key, doc)
    ensures Matches(codec, DataEvent(r.sequence, if before.Some? then UpdateEvent else CreateEvent, key, doc.id, before, Some(doc)), r)
  {
    hide IsDocumentId;
    hide Encodable;
  }

  lemma DeleteEntry(codec: Codec, r: NbfRecord, key: CollectionKey, id: DocumentId, doc: Document)
    requires Encodable(r) && r == NbfRecord(r.sequence, Delete, 0, None, r.timestamp, key.0, key.1, id, [])
    ensures IsDeleteRecord(r, key, id) && Matches(codec, DataEvent(r.sequence, DeleteEvent, key, id, Some(doc), None), r)
  {
    hide IsDocumentId;
    hide Encodable;
  }

  lemma WriteReadable(u: UuidText, codec: Codec, doc: Document)
    requires Faithful(u, codec) && codec.write(doc).Some?
    ensures codec.read(codec.write(doc).value).Some?
  {
  }

  /** The documents the log accepts: JSON can write them, and names and payload are within the limits. */
  predicate Storable(codec: Codec, key: CollectionKey, doc: Document) {
    codec.write(doc).Some? && NamesFit(key) && |codec.write(doc).value| <= MAX_PAYLOAD
  }
}
