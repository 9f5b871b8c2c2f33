/**
 Whole runs of the log: any number of threads appending (reserve a sequence number, perhaps rotate,
 write under the file lock), interleaved in any way, with any number of crashes, recoveries and
 reopenings in between (crates/nova-storage/src/wal.rs, crates/nova-server/src/engine.rs).
 */
module LogRuns {
  import opened Core
  import opened Bytes
  import opened DocumentIds
  import opened NbfFormat
  import opened Wal
  import opened Recovery
  import opened CrashSafety
  import opened StrayTails

  /**
   What became of a log in which a record was written behind stray bytes: the bytes from those on, the
   files begun since, and the records written since, none of which recovery will find.
   */
  datatype Spoil = NoSpoil | Spoiled(bad: seq<byte>, later: seq<seq<byte>>, lost: seq<NbfRecord>)

  /**
   The directory, the three shared counters, the records of threads that hold a sequence number but have
   not written yet, and whether an engine is running at all. `log` and `spoil` are history variables: the
   segments behind the bytes, of a spoiled log up to the third stray byte of the segment it is spoiled in.
   */
  datatype Run = Run(
    files: seq<seq<byte>>,
    size: nat,
    counter: u64,
    pending: seq<NbfRecord>,
    running: bool,
    log: seq<Segment>,
    spoil: Spoil)

  datatype Step =
    | Reserve(r: NbfRecord)
    | Rotate
    | Write(thread: nat)
    | CrashAndReopen(kept: nat)

  const INITIAL := Run([[]], 0, 0, [], true, [Segment([], [])], NoSpoil)

  function LastFile(s: Run): seq<byte>
    requires s.files != []
  {
    s.files[|s.files| - 1]
  }

  /**
   A thread may decide to rotate on a stale size, so rotation is allowed at any time. A crash may cut the
   last file anywhere. If reopening fails, that is the end.
   */
  predicate Enabled(read: PayloadReader, s: Run, step: Step)
    requires s.files != []
  {
    s.running &&
    match step
    case Reserve(r) => s.counter + 1 < U64_LIMIT && r.sequence == NextSequenceOf(s.counter) && Loggable(read, r)
    case Rotate => true
    case Write(i) => i < |s.pending|
    case CrashAndReopen(n) => n <= |LastFile(s)|
  }

  function AfterReserve(s: Run, r: NbfRecord): Run {
    s.(counter := NextSequenceOf(s.counter), pending := s.pending + [r])
  }

  function AfterRotate(s: Run): Run {
    s.(files := s.files + [[]], size := 0,
       log := if s.spoil.NoSpoil? then s.log + [Segment([], [])] else s.log,
       spoil := if s.spoil.NoSpoil? then NoSpoil else s.spoil.(later := s.spoil.later + [[]]))
  }

  /** The history of a record written: it joins the log, or spoils it, or comes too late. */
  function LogWritten(log: seq<Segment>, spoil: Spoil, r: NbfRecord): (log': seq<Segment>)
    requires log != []
    ensures log' != []
  {
    var last := LastSegment(log);
    if spoil.Spoiled? then log
    else if last.junk == [] then WithLast(log, Segment(last.records + [r], []))
    else WithLast(log, Segment(last.records, FirstThree(last.junk + RecordBytes(r))))
  }

  function SpoilWritten(log: seq<Segment>, spoil: Spoil, r: NbfRecord): Spoil
    requires log != []
  {
    match spoil
    case NoSpoil => if LastSegment(log).junk == [] then NoSpoil else Spoiled(LastSegment(log).junk + RecordBytes(r), [], [r])
    case Spoiled(bad, later, lost) =>
      if later == [] then Spoiled(bad + RecordBytes(r), [], lost + [r])
      else Spoiled(bad, later[|later| - 1 := later[|later| - 1] + RecordBytes(r)], lost + [r])
  }

  function FirstThree(s: seq<byte>): seq<byte> {
    if |s| < 3 then s else s[..3]
  }

  function AfterWrite(s: Run, i: nat): Run
    requires s.files != [] && s.log != [] && i < |s.pending|
  {
    var r := s.pending[i];
    s.(files := s.files[|s.files| - 1 := LastFile(s) + RecordBytes(r)],
       size := s.size + |RecordBytes(r)|,
       pending := s.pending[..i] + s.pending[i + 1..],
       log := LogWritten(s.log, s.spoil, r),
       spoil := SpoilWritten(s.log, s.spoil, r))
  }

  function SizeOfLast(files: seq<seq<byte>>): nat {
    if files == [] then 0 else |files[|files| - 1]|
  }

  function KeptOf(log: seq<Segment>, n: nat): seq<Segment> {
    if log != [] && n <= |SegmentBytes(LastSegment(log))| then Kept(log, n) else log
  }

  /** A crash and an attempt to reopen: the engine runs again iff recovery succeeds. */
  function AfterCrash(read: PayloadReader, s: Run, n: nat): Run
    requires s.files != [] && n <= |LastFile(s)|
  {
    var crashed := Crashed(s.files, n);
    var (verdict, files) := (VerdictOn(read, crashed), FilesAfter(read, crashed));
    if verdict.Ok? then Run(files, SizeOfLast(files), verdict.value.maxSequence, [], true, KeptOf(s.log, n), NoSpoil)
    else s.(files := files, pending := [], running := false)
  }

  function After(read: PayloadReader, s: Run, step: Step): Run
    requires s.files != [] && s.log != [] && Enabled(read, s, step)
  {
    match step
    case Reserve(r) => AfterReserve(s, r)
    case Rotate => AfterRotate(s)
    case Write(i) => AfterWrite(s, i)
    case CrashAndReopen(n) => AfterCrash(read, s, n)
  }

  // ---- sequence numbers ----

  function Numbers(rs: seq<NbfRecord>): (r: seq<nat>)
    ensures |r| == |rs|
    ensures forall i :: 0 <= i < |rs| ==> r[i] == rs[i].sequence
  {
    seq(|rs|, i requires 0 <= i < |rs| => rs[i].sequence)
  }

  lemma NumbersAppend(a: seq<NbfRecord>, b: seq<NbfRecord>)
    ensures Numbers(a + b) == Numbers(a) + Numbers(b)
  {
  }

  /** The numbers in the log and the reserved ones are all different, and none is above the counter. */
  ghost predicate Numbered(logged: seq<nat>, reserved: seq<nat>, counter: nat) {
    && (forall i, j :: 0 <= i < j < |logged| ==> logged[i] != logged[j])
    && (forall i, j :: 0 <= i < j < |reserved| ==> reserved[i] != reserved[j])
    && (forall i, j :: 0 <= i < |logged| && 0 <= j < |reserved| ==> logged[i] != reserved[j])
    && (forall i :: 0 <= i < |logged| ==> logged[i] <= counter)
    && (forall i :: 0 <= i < |reserved| ==> reserved[i] <= counter)
  }

  lemma NumberedReserve(logged: seq<nat>, reserved: seq<nat>, counter: nat)
    requires Numbered(logged, reserved, counter)
    ensures Numbered(logged, reserved + [counter + 1], counter + 1)
  {
  }

  lemma NumberedWrite(logged: seq<nat>, reserved: seq<nat>, counter: nat, i: nat)
    requires Numbered(logged, reserved, counter) && i < |reserved|
    ensures Numbered(logged + [reserved[i]], reserved[..i] + reserved[i + 1..], counter)
  {
  }

  lemma NumberedCut(logged: seq<nat>, dropped: seq<nat>, reserved: seq<nat>, counter: nat, top: nat)
    requires Numbered(logged + dropped, reserved, counter)
    requires forall i :: 0 <= i < |logged| ==> logged[i] <= top
    ensures Numbered(logged, [], top)
  {
    var all := logged + dropped;
    assert forall i :: 0 <= i < |logged| ==> logged[i] == all[i];
  }

  /** Replay ends with a maximum that no replayed sequence number exceeds. */
  lemma {:induction false} ReplayMaximum(read: PayloadReader, rs: seq<NbfRecord>, st: State)
    requires Replay(read, rs, st).Ok?
    ensures var top := Replay(read, rs, st).value.maxSequence;
            st.maxSequence <= top && forall i :: 0 <= i < |rs| ==> Numbers(rs)[i] <= top
    decreases |rs|
  {
    hide IsDocumentId;
    hide Apply;
    if rs != [] {
      ReplayMaximum(read, rs[1..], ReplayOne(read, rs[0], st).value);
      forall i | 0 < i < |rs| ensures Numbers(rs)[i] == Numbers(rs[1..])[i - 1] { }
    }
  }

  // ---- the invariant ----

  /** The files behind a log and what spoiled it. */
  function FilesOf(log: seq<Segment>, spoil: Spoil): seq<seq<byte>>
    requires log != []
  {
    match spoil
    case NoSpoil => Image(log)
    case Spoiled(bad, later, _) => Image(log)[|log| - 1 := LogBytes(LastSegment(log).records) + bad] + later
  }

  function Lost(spoil: Spoil): seq<NbfRecord> {
    if spoil.Spoiled? then spoil.lost else []
  }

  /** Behind the whole records of a spoiled log lies what no record begins with. */
  predicate SpoilInv(log: seq<Segment>, spoil: Spoil)
    requires log != []
  {
    spoil.Spoiled? ==> |spoil.bad| >= 4 && spoil.bad[..4] != MAGIC && LastSegment(log).junk == spoil.bad[..3]
  }

  /** While an engine runs: the files are what the history says, and all numbers are different. */
  ghost predicate Inv(read: PayloadReader, s: Run) {
    && s.log != [] && AllSound(read, s.log) && AllLoggable(read, s.pending)
    && SpoilInv(s.log, s.spoil) && s.files == FilesOf(s.log, s.spoil)
    && s.size == |LastFile(s)|
    && Numbered(Numbers(Records(s.log) + Lost(s.spoil)), Numbers(s.pending), s.counter)
  }

  /** The invariant of a run: either that, or no engine runs any more and the log is ruined. */
  ghost predicate RunInv(read: PayloadReader, s: Run) {
    if s.running then Inv(read, s) else s.files != [] && s.log != [] && Ruined(read, s.files)
  }

  lemma InitialInv(read: PayloadReader)
    ensures Inv(read, INITIAL)
  {
    RecordsOne(Segment([], []));
    assert Image([Segment([], [])]) == [[]];
  }

  lemma NextIsSuccessor(counter: u64)
    requires counter + 1 < U64_LIMIT
    ensures NextSequenceOf(counter) == counter + 1
  {
  }

  lemma LoggableAppend(read: PayloadReader, rs: seq<NbfRecord>, r: NbfRecord)
    requires AllLoggable(read, rs) && Loggable(read, r)
    ensures AllLoggable(read, rs + [r])
  {
    hide IsDocumentId;
    hide Loggable;
  }

  lemma ReserveNumbers(logged: seq<NbfRecord>, pending: seq<NbfRecord>, counter: u64, r: NbfRecord)
    requires Numbered(Numbers(logged), Numbers(pending), counter)
    requires counter + 1 < U64_LIMIT && r.sequence == NextSequenceOf(counter)
    ensures Numbered(Numbers(logged), Numbers(pending + [r]), NextSequenceOf(counter))
  {
    hide IsDocumentId;
    NextIsSuccessor(counter);
    hide NextSequenceOf;
    NumbersAppend(pending, [r]);
    assert Numbers([r]) == [counter + 1];
    hide Numbers;
    NumberedReserve(Numbers(logged), Numbers(pending), counter);
  }

  /** Drawing a sequence number. */
  lemma ReserveInv(read: PayloadReader, s: Run, r: NbfRecord)
    requires Inv(read, s) && Loggable(read, r) && s.counter + 1 < U64_LIMIT && r.sequence == NextSequenceOf(s.counter)
    ensures Inv(read, AfterReserve(s, r))
  {
    hide IsDocumentId;
    hide AllSound;
    hide NextSequenceOf;
    hide FilesOf;
    hide SpoilInv;
    hide Records;
    LoggableAppend(read, s.pending, r);
    hide Loggable;
    hide AllLoggable;
    ReserveNumbers(Records(s.log) + Lost(s.spoil), s.pending, s.counter, r);
    hide Numbered;
    hide Numbers;
    var s' := AfterReserve(s, r);
    assert s'.log == s.log && s'.files == s.files && s'.size == s.size && s'.spoil == s.spoil;
  }

  /** A rotation, even one decided on a stale size. */
  lemma RotateInv(read: PayloadReader, s: Run)
    requires Inv(read, s)
    ensures Inv(read, AfterRotate(s))
  {
    hide IsDocumentId;
    hide Loggable;
    hide RecordBytes;
    hide Numbered;
    hide Numbers;
    var s' := AfterRotate(s);
    if s.spoil.NoSpoil? {
      RecordsAppend(s.log, [Segment([], [])]);
      RecordsOne(Segment([], []));
      assert Records(s.log) + [] == Records(s.log);
      hide Records;
      assert SegmentBytes(Segment([], [])) == [];
      assert s'.files == Image(s'.log);
    } else {
      hide SegmentBytes;
      hide LogBytes;
      hide Records;
      assert s'.files == FilesOf(s'.log, s'.spoil);
    }
  }

  lemma WriteNumbers(logged: seq<NbfRecord>, pending: seq<NbfRecord>, counter: nat, i: nat)
    requires Numbered(Numbers(logged), Numbers(pending), counter) && i < |pending|
    ensures Numbered(Numbers(logged + [pending[i]]), Numbers(pending[..i] + pending[i + 1..]), counter)
  {
    hide IsDocumentId;
    hide Numbered;
    var r := pending[i];
    NumbersAppend(logged, [r]);
    NumbersAppend(pending[..i], pending[i + 1..]);
    assert Numbers([r]) == [Numbers(pending)[i]];
    assert Numbers(pending[..i]) == Numbers(pending)[..i] && Numbers(pending[i + 1..]) == Numbers(pending)[i + 1..];
    NumberedWrite(Numbers(logged), Numbers(pending), counter, i);
  }

  /** A record written where nothing stray lies joins the log. */
  lemma WriteClean(read: PayloadReader, log: seq<Segment>, r: NbfRecord)
    requires log != [] && AllSound(read, log) && Loggable(read, r) && LastSegment(log).junk == []
    ensures var log' := LogWritten(log, NoSpoil, r);
            && AllSound(read, log') && Image(log') == Image(log)[|log| - 1 := SegmentBytes(LastSegment(log)) + RecordBytes(r)]
            && Records(log') == Records(log) + [r]
  {
    hide IsDocumentId;
    hide Loggable;
    hide RecordBytes;
    var last := LastSegment(log);
    var more := Segment(last.records + [r], []);
    assert Sound(read, last);
    OneMoreRecord(last, r);
    hide SegmentBytes;
    RecordsWithLast(log, more);
    LastRecords(log);
    assert Records(log[..|log| - 1]) + (last.records + [r]) == Records(log) + [r];
    hide Records;
  }

  /** A record written behind stray bytes spoils the log. */
  lemma WriteSpoils(read: PayloadReader, log: seq<Segment>, r: NbfRecord)
    requires log != [] && AllSound(read, log) && LastSegment(log).junk != []
    ensures var (log', spoil') := (LogWritten(log, NoSpoil, r), SpoilWritten(log, NoSpoil, r));
            && AllSound(read, log') && SpoilInv(log', spoil') && Records(log') == Records(log)
            && FilesOf(log', spoil') == Image(log)[|log| - 1 := SegmentBytes(LastSegment(log)) + RecordBytes(r)]
  {
    hide IsDocumentId;
    hide Loggable;
    hide RecordBytes;
    hide LogBytes;
    var last := LastSegment(log);
    assert Sound(read, last);
    StartsWithMagic(r);
    MagicShifted(last.junk, RecordBytes(r));
    var bad := last.junk + RecordBytes(r);
    RecordsWithLast(log, Segment(last.records, bad[..3]));
    LastRecords(log);
    hide Records;
    Assoc(LogBytes(last.records), last.junk, RecordBytes(r));
    var (log', spoil') := (LogWritten(log, NoSpoil, r), SpoilWritten(log, NoSpoil, r));
    assert Image(log)[|log| - 1 := SegmentBytes(last) + RecordBytes(r)] == FilesOf(log', spoil');
  }

  /** A record written to a spoiled log is lost. */
  lemma WriteLost(log: seq<Segment>, spoil: Spoil, r: NbfRecord)
    requires log != [] && spoil.Spoiled? && SpoilInv(log, spoil)
    ensures var (files, spoil') := (FilesOf(log, spoil), SpoilWritten(log, spoil, r));
            && SpoilInv(log, spoil') && files != []
            && FilesOf(log, spoil') == files[|files| - 1 := files[|files| - 1] + RecordBytes(r)]
  {
    hide IsDocumentId;
    hide RecordBytes;
    hide LogBytes;
    hide SegmentBytes;
    var (files, spoil') := (FilesOf(log, spoil), SpoilWritten(log, spoil, r));
    if spoil.later == [] {
      Assoc(LogBytes(LastSegment(log).records), spoil.bad, RecordBytes(r));
      assert (spoil.bad + RecordBytes(r))[..4] == spoil.bad[..4] && (spoil.bad + RecordBytes(r))[..3] == spoil.bad[..3];
    }
    assert FilesOf(log, spoil') == files[|files| - 1 := files[|files| - 1] + RecordBytes(r)];
  }

  lemma WriteHistory(read: PayloadReader, s: Run, i: nat)
    requires Inv(read, s) && i < |s.pending|
    ensures var s' := AfterWrite(s, i);
            && s'.log != [] && AllSound(read, s'.log) && SpoilInv(s'.log, s'.spoil) && s'.files == FilesOf(s'.log, s'.spoil)
            && Records(s'.log) + Lost(s'.spoil) == Records(s.log) + Lost(s.spoil) + [s.pending[i]]
  {
    hide IsDocumentId;
    hide Loggable;
    hide RecordBytes;
    hide Numbered;
    hide Numbers;
    hide Records;
    hide LogBytes;
    var r := s.pending[i];
    assert AllLoggable(read, s.pending) ==> Loggable(read, r);
    if s.spoil.Spoiled? {
      WriteLost(s.log, s.spoil, r);
      hide FilesOf;
      Assoc3(Records(s.log), s.spoil.lost, [r]);
    } else if LastSegment(s.log).junk == [] {
      WriteClean(read, s.log, r);
      hide SegmentBytes;
      hide LogWritten;
      assert forall rs: seq<NbfRecord> :: rs + [] == rs;
    } else {
      WriteSpoils(read, s.log, r);
      hide SegmentBytes;
      hide LogWritten;
      assert forall rs: seq<NbfRecord> :: rs + [] == rs;
    }
  }

  lemma Assoc3<T>(a: seq<T>, b: seq<T>, c: seq<T>)
    ensures a + b + c == a + (b + c)
  {
  }

  lemma LoggableRest(read: PayloadReader, rs: seq<NbfRecord>, i: nat)
    requires AllLoggable(read, rs) && i < |rs|
    ensures AllLoggable(read, rs[..i] + rs[i + 1..])
  {
    hide IsDocumentId;
    hide Loggable;
  }

  /** Writing a record, in any order of the numbers drawn, behind stray bytes too. */
  lemma WriteInv(read: PayloadReader, s: Run, i: nat)
    requires Inv(read, s) && i < |s.pending|
    ensures Inv(read, AfterWrite(s, i))
  {
    hide IsDocumentId;
    hide RecordBytes;
    hide Records;
    hide SpoilInv;
    hide LogWritten;
    hide SpoilWritten;
    WriteHistory(read, s, i);
    hide FilesOf;
    hide AllSound;
    LoggableRest(read, s.pending, i);
    hide AllLoggable;
    WriteNumbers(Records(s.log) + Lost(s.spoil), s.pending, s.counter, i);
    hide Numbered;
    hide Numbers;
  }

  // ---- crashes ----

  /** Recovery will succeed if a crash keeps `n` bytes of the last file: it cuts off what spoiled the log, if anything did. */
  predicate Recoverable(s: Run, n: nat)
    requires s.log != []
  {
    s.spoil.NoSpoil? || (s.spoil.later == [] && n <= |SegmentBytes(LastSegment(s.log))|)
  }

  /** A crash that cuts off what spoiled a log leaves what a crash of the unspoiled log leaves. */
  lemma CrashUnspoils(read: PayloadReader, s: Run, n: nat)
    requires Inv(read, s) && n <= |LastFile(s)| && Recoverable(s, n)
    ensures n <= |SegmentBytes(LastSegment(s.log))| && Crashed(s.files, n) == Crashed(Image(s.log), n)
  {
    hide IsDocumentId;
    hide Loggable;
    hide LogBytes;
    hide Records;
    hide Numbered;
    hide Numbers;
    if s.spoil.Spoiled? {
      var bytes := LogBytes(LastSegment(s.log).records);
      var bad := s.spoil.bad;
      CutAlike(bytes, bad, n);
      assert s.files == Image(s.log)[|s.log| - 1 := bytes + bad];
      assert Crashed(s.files, n) == Crashed(Image(s.log), n);
    }
  }

  lemma CutAlike(a: seq<byte>, b: seq<byte>, n: nat)
    requires |b| >= 3 && n <= |a| + 3
    ensures (a + b)[..n] == (a + b[..3])[..n]
  {
  }

  /** Any other crash leaves a ruined log. */
  lemma CrashRuined(read: PayloadReader, s: Run, n: nat)
    requires Inv(read, s) && n <= |LastFile(s)| && !Recoverable(s, n)
    ensures Ruined(read, Crashed(s.files, n))
  {
    hide IsDocumentId;
    hide Loggable;
    hide LogBytes;
    hide Records;
    hide Numbered;
    hide Numbers;
    var (front, last, bad, crashed) := (s.log[..|s.log| - 1], LastSegment(s.log), s.spoil.bad, Crashed(s.files, n));
    assert Sound(read, last);
    if s.spoil.later == [] {
      var cut := bad[..n - |LogBytes(last.records)|];
      assert cut[..4] == bad[..4];
      assert (LogBytes(last.records) + bad)[..n] == LogBytes(last.records) + cut;
      assert RuinedAt(read, crashed, front, last.records, cut);
    } else {
      assert crashed[|s.log| - 1] == LogBytes(last.records) + bad;
      assert RuinedAt(read, crashed, front, last.records, bad);
    }
  }

  lemma CrashNumbers(read: PayloadReader, s: Run, n: nat)
    requires Inv(read, s) && n <= |SegmentBytes(LastSegment(s.log))|
    ensures Replay(read, Records(Kept(s.log, n)), EMPTY).Ok?
    ensures Numbered(Numbers(Records(Kept(s.log, n))), [], Replay(read, Records(Kept(s.log, n)), EMPTY).value.maxSequence)
  {
    hide IsDocumentId;
    hide Loggable;
    hide Replay;
    hide SegmentBytes;
    hide LogBytes;
    hide FilesOf;
    hide Kept;
    hide Numbered;
    hide Numbers;
    var kept := Kept(s.log, n);
    KeptSound(read, s.log, n);
    RecordsLoggable(read, kept);
    hide Records;
    ReplayOk(read, Records(kept), EMPTY);
    var dropped :| Records(s.log) == Records(kept) + dropped;
    Assoc3(Records(kept), dropped, Lost(s.spoil));
    NumbersAppend(Records(kept), dropped + Lost(s.spoil));
    ReplayMaximum(read, Records(kept), EMPTY);
    NumberedCut(Numbers(Records(kept)), Numbers(dropped + Lost(s.spoil)), Numbers(s.pending), s.counter,
                Replay(read, Records(kept), EMPTY).value.maxSequence);
  }

  lemma CrashGoesOn(read: PayloadReader, s: Run, n: nat)
    requires Inv(read, s) && n <= |LastFile(s)| && Recoverable(s, n)
    ensures AfterCrash(read, s, n).running && Inv(read, AfterCrash(read, s, n))
  {
    hide IsDocumentId;
    hide Loggable;
    hide Replay;
    hide RecoveredFrom;
    hide Numbered;
    hide Numbers;
    hide LogBytes;
    CrashUnspoils(read, s, n);
    hide Recoverable;
    hide Crashed;
    hide SegmentBytes;
    hide Records;
    CrashNumbers(read, s, n);
    CrashRecovery(read, s.log, n);
    KeptSound(read, s.log, n);
    hide Kept;
    hide AllSound;
    assert Numbers([]) == [];
    assert Records(Kept(s.log, n)) + [] == Records(Kept(s.log, n));
  }

  lemma CrashStops(read: PayloadReader, s: Run, n: nat)
    requires Inv(read, s) && n <= |LastFile(s)| && !Recoverable(s, n)
    ensures var s' := AfterCrash(read, s, n);
            !s'.running && s'.files == Crashed(s.files, n) && s'.log == s.log && Ruined(read, s'.files)
  {
    CrashRuined(read, s, n);
    hide Inv;
    hide Recoverable;
    hide Ruined;
    hide RecoveredFrom;
    RuinedFails(read, Crashed(s.files, n));
  }

  /** A crash at any byte, with recovery and reopening. */
  lemma CrashInv(read: PayloadReader, s: Run, n: nat)
    requires Inv(read, s) && n <= |LastFile(s)|
    ensures RunInv(read, AfterCrash(read, s, n)) && (AfterCrash(read, s, n).running <==> Recoverable(s, n))
  {
    if Recoverable(s, n) {
      CrashGoesOn(read, s, n);
    } else {
      CrashStops(read, s, n);
    }
    assert s.log != [];
    hide Inv;
    hide Recoverable;
    hide Ruined;
    hide RecoveredFrom;
  }

  /** Every step of every thread, and every crash, keeps the invariant. */
  lemma StepInv(read: PayloadReader, s: Run, step: Step)
    requires RunInv(read, s) && s.files != [] && s.log != [] && Enabled(read, s, step)
    ensures RunInv(read, After(read, s, step))
  {
    hide IsDocumentId;
    hide Loggable;
    hide Inv;
    hide AfterCrash;
    hide RecordBytes;
    hide LogWritten;
    hide SpoilWritten;
    match step
    case Reserve(r) => ReserveInv(read, s, r);
    case Rotate => RotateInv(read, s);
    case Write(i) => WriteInv(read, s, i);
    case CrashAndReopen(n) => CrashInv(read, s, n);
  }

  ghost predicate CanStep(read: PayloadReader, s: Run, step: Step, s': Run) {
    && s.files != [] && s.log != []
    && Enabled(read, s, step) && s' == After(read, s, step)
  }

  ghost predicate IsRun(read: PayloadReader, states: seq<Run>, steps: seq<Step>) {
    && |states| == |steps| + 1 && states[0] == INITIAL
    && forall i :: 0 <= i < |steps| ==> CanStep(read, states[i], steps[i], states[i + 1])
  }

  /**
   In every state of every run in which an engine runs, the tracked size is the length of the active file,
   and all records written and reserved have different sequence numbers (though not necessarily ascending
   ones), those written behind stray bytes and lost to recovery included.
   */
  lemma {:induction false} RunsKeepInv(read: PayloadReader, states: seq<Run>, steps: seq<Step>)
    requires IsRun(read, states, steps)
    ensures RunInv(read, states[|steps|])
    decreases |steps|
  {
    hide Enabled;
    hide After;
    hide Inv;
    hide Ruined;
    if steps == [] {
      InitialInv(read);
    } else {
      var k := |steps| - 1;
      RunsKeepInv(read, states[..k + 1], steps[..k]);
      assert states[..k + 1][k] == states[k];
      assert CanStep(read, states[k], steps[k], states[k + 1]);
      StepInv(read, states[k], steps[k]);
    }
  }

  lemma InvParts(read: PayloadReader, s: Run)
    requires Inv(read, s)
    ensures s.log != [] && s.files != [] && AllSound(read, s.log)
  {
  }

  /** What recovery finds in the files is the replay of the records. */
  ghost predicate Recovers(read: PayloadReader, files: seq<seq<byte>>, rs: seq<NbfRecord>) {
    var (verdict, replayed) := (VerdictOn(read, files), Replay(read, rs, EMPTY));
    && verdict.Ok? && replayed.Ok?
    && verdict.value.collections == replayed.value.collections && verdict.value.replayed == |rs|
  }

  /**
   A crash at any byte, in any state of any run: it is recovered to exactly the records that survived
   whole, unless a record was written behind stray bytes and what spoiled the log is still there. Then
   recovery fails and changes nothing.
   */
  lemma CrashAnywhere(read: PayloadReader, states: seq<Run>, steps: seq<Step>, n: nat)
    requires IsRun(read, states, steps)
    requires var s := states[|steps|]; s.running && s.files != [] && n <= |LastFile(s)|
    ensures var s := states[|steps|];
            && s.log != []
            && if Recoverable(s, n) then Recovers(read, Crashed(s.files, n), Records(KeptOf(s.log, n)))
               else VerdictOn(read, Crashed(s.files, n)) == Err(WalCorrupted) && FilesAfter(read, Crashed(s.files, n)) == Crashed(s.files, n)
  {
    RunsKeepInv(read, states, steps);
    var s := states[|steps|];
    hide IsRun;
    InvParts(read, s);
    if Recoverable(s, n) {
      CrashRecovers(read, s, n);
    } else {
      CrashRuined(read, s, n);
      hide Ruined;
      RuinedFails(read, Crashed(s.files, n));
    }
    hide Inv;
    hide Recoverable;
    hide RecoveredFrom;
    hide Recovers;
    hide KeptOf;
  }

  lemma CrashRecovers(read: PayloadReader, s: Run, n: nat)
    requires Inv(read, s) && n <= |LastFile(s)| && Recoverable(s, n)
    ensures Recovers(read, Crashed(s.files, n), Records(KeptOf(s.log, n)))
  {
    hide IsDocumentId;
    hide Loggable;
    hide Replay;
    hide RecoveredFrom;
    hide LogBytes;
    hide Residue;
    CrashUnspoils(read, s, n);
    hide Crashed;
    hide SegmentBytes;
    hide FilesOf;
    hide Numbered;
    CrashRecovery(read, s.log, n);
    KeptSound(read, s.log, n);
    hide Kept;
    RecordsLoggable(read, Kept(s.log, n));
    hide Records;
    ReplayOk(read, Records(Kept(s.log, n)), EMPTY);
  }
}
