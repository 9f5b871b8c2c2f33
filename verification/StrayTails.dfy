/**
 What recovery does not repair: stray bytes too few to be noticed, and damage in the middle of a log
 (crates/nova-storage/src/recovery.rs, crates/nova-storage/src/wal.rs).
 */
module StrayTails {
  import opened Core
  import opened Bytes
  import opened NbfFormat
  import opened LengthDamage
  import opened Wal
  import opened Recovery
  import opened CrashSafety
  import Crc32

  // ---- appending to a log ----

  function LastSegment(log: seq<Segment>): Segment
    requires log != []
  {
    log[|log| - 1]
  }

  /** The record fits the active segment, and that segment ends in stray bytes. */
  predicate BehindJunk(log: seq<Segment>, limit: nat, r: NbfRecord)
    requires log != []
  {
    LastSegment(log).junk != [] && |SegmentBytes(LastSegment(log))| + |RecordBytes(r)| <= limit
  }

  /** The log after an append that is not behind stray bytes. */
  function AppendedLog(log: seq<Segment>, limit: nat, r: NbfRecord): seq<Segment>
    requires log != []
  {
    if |SegmentBytes(LastSegment(log))| + |RecordBytes(r)| > limit then log + [Segment([r], [])]
    else WithLast(log, Segment(LastSegment(log).records + [r], []))
  }

  lemma OneRecord(r: NbfRecord)
    ensures SegmentBytes(Segment([r], [])) == RecordBytes(r)
  {
    hide RecordBytes;
    EncodeOne(RecordBytes, r);
    assert LogBytes([r]) + [] == LogBytes([r]);
  }

  lemma OneMoreRecord(s: Segment, r: NbfRecord)
    requires s.junk == []
    ensures SegmentBytes(Segment(s.records + [r], [])) == SegmentBytes(s) + RecordBytes(r)
  {
    hide RecordBytes;
    EncodeAllAppend(RecordBytes, s.records, [r]);
    EncodeOne(RecordBytes, r);
    assert LogBytes(s.records) + [] == LogBytes(s.records);
    assert LogBytes(s.records + [r]) + [] == LogBytes(s.records + [r]);
  }

  /** An append in front of which nothing stray lies: the log grows by the record, and stays sound. */
  lemma AppendedImage(read: PayloadReader, log: seq<Segment>, limit: nat, r: NbfRecord)
    requires log != [] && AllSound(read, log) && Loggable(read, r) && !BehindJunk(log, limit, r)
    ensures Appended(Image(log), limit, RecordBytes(r)) == Image(AppendedLog(log, limit, r))
    ensures Records(AppendedLog(log, limit, r)) == Records(log) + [r]
    ensures AllSound(read, AppendedLog(log, limit, r)) && LastSegment(AppendedLog(log, limit, r)).junk == []
  {
    hide RecordBytes;
    hide SegmentBytes;
    hide Loggable;
    var last := LastSegment(log);
    assert Sound(read, last);
    OneRecord(r);
    if |SegmentBytes(last)| + |RecordBytes(r)| > limit {
      assert Image(log + [Segment([r], [])]) == Image(log) + [RecordBytes(r)];
      RecordsAppend(log, [Segment([r], [])]);
      RecordsOne(Segment([r], []));
    } else {
      var s := Segment(last.records + [r], []);
      OneMoreRecord(last, r);
      assert Image(WithLast(log, s)) == Image(log)[|log| - 1 := SegmentBytes(last) + RecordBytes(r)];
      RecordsWithLast(log, s);
      LastRecords(log);
    }
  }

  // ---- ruined logs ----

  /** Sound segments, then one whose whole records are followed by bytes that no record can begin with. */
  ghost predicate RuinedAt(read: PayloadReader, files: seq<seq<byte>>, front: seq<Segment>, rs: seq<NbfRecord>, bad: seq<byte>) {
    && |front| < |files| && AllSound(read, front) && AllLoggable(read, rs)
    && (forall i :: 0 <= i < |front| ==> files[i] == SegmentBytes(front[i]))
    && files[|front|] == LogBytes(rs) + bad
    && |bad| >= 4 && bad[..4] != MAGIC
  }

  ghost predicate Ruined(read: PayloadReader, files: seq<seq<byte>>) {
    exists front, rs, bad :: RuinedAt(read, files, front, rs, bad)
  }

  lemma NotMagic(s: seq<byte>)
    requires |s| >= 4 && s[..4] != MAGIC
    ensures DecodeBytes(s) == Failed(WalCorrupted)
  {
  }

  lemma StopsAt(read: PayloadReader, files: seq<seq<byte>>, i: nat, st: State)
    requires i < |files| && SegmentRecovered(read, files[i], st).Err?
    ensures RecoveredFrom(read, files, i, st) == (Err(SegmentRecovered(read, files[i], st).code), files)
  {
    hide SegmentRecovered;
  }

  lemma GoesOn(read: PayloadReader, files: seq<seq<byte>>, i: nat, st: State)
    requires i < |files| && SegmentRecovered(read, files[i], st).Ok?
    ensures var (st', file) := SegmentRecovered(read, files[i], st).value;
            RecoveredFrom(read, files, i, st) == RecoveredFrom(read, files[i := file], i + 1, st')
  {
    hide SegmentRecovered;
  }

  /** A damaged record stops the recovery of the directory, wherever it is; nothing is cut off. */
  lemma CorruptionStopsRecovery(read: PayloadReader, files: seq<seq<byte>>, front: seq<Segment>, rs: seq<NbfRecord>, damaged: seq<byte>)
    requires |front| < |files| && AllSound(read, front) && AllLoggable(read, rs)
    requires forall i :: 0 <= i < |front| ==> files[i] == SegmentBytes(front[i])
    requires files[|front|] == LogBytes(rs) + damaged
    requires DecodeBytes(damaged).Failed? && DecodeBytes(damaged).code != TornWriteDetected
    ensures RecoveredFrom(read, files, 0, EMPTY) == (Err(WalCorrupted), files)
  {
    hide SegmentBytes;
    hide RecoveredFrom;
    hide Records;
    hide AllSound;
    hide AllLoggable;
    hide SegmentRecovered;
    hide DecodeBytes;
    hide Replay;
    hide LogBytes;
    SoundSegments(read, files, front, 0, EMPTY);
    var st := Replay(read, Records(front), EMPTY).value;
    CorruptSegment(read, rs, damaged, st);
    StopsAt(read, files, |front|, st);
  }

  lemma CorruptSegment(read: PayloadReader, rs: seq<NbfRecord>, damaged: seq<byte>, st: State)
    requires AllLoggable(read, rs)
    requires DecodeBytes(damaged).Failed? && DecodeBytes(damaged).code != TornWriteDetected
    ensures SegmentRecovered(read, LogBytes(rs) + damaged, st) == Err(WalCorrupted)
  {
    hide RecordBytes;
    hide Replay;
    hide Loggable;
    hide DecodeBytes;
    assert Scan(damaged) == Scanned([], damaged, Corrupt);
    hide Scan;
    ScanRecords(read, rs, damaged);
    assert rs + [] == rs;
    ReplayOk(read, rs, st);
    RecoveredByScan(read, LogBytes(rs) + damaged, Scan(LogBytes(rs) + damaged), st);
  }

  /** A ruined log can never be recovered. */
  lemma RuinedFails(read: PayloadReader, files: seq<seq<byte>>)
    requires Ruined(read, files)
    ensures RecoveredFrom(read, files, 0, EMPTY) == (Err(WalCorrupted), files)
  {
    hide RecoveredFrom;
    hide AllSound;
    hide AllLoggable;
    hide SegmentBytes;
    hide LogBytes;
    var front, rs, bad :| RuinedAt(read, files, front, rs, bad);
    NotMagic(bad);
    hide DecodeBytes;
    CorruptionStopsRecovery(read, files, front, rs, bad);
  }

  /** Whatever is appended to a ruined log, it stays ruined. */
  lemma RuinedStays(read: PayloadReader, files: seq<seq<byte>>, limit: nat, bytes: seq<byte>)
    requires Ruined(read, files)
    ensures files != [] && Ruined(read, Appended(files, limit, bytes))
  {
    hide AllSound;
    hide AllLoggable;
    hide SegmentBytes;
    hide LogBytes;
    var front, rs, bad :| RuinedAt(read, files, front, rs, bad);
    var (out, j) := (Appended(files, limit, bytes), |front|);
    if out[j] == files[j] {
      assert RuinedAt(read, out, front, rs, bad);
    } else {
      Assoc(LogBytes(rs), bad, bytes);
      assert (bad + bytes)[..4] == bad[..4];
      assert RuinedAt(read, out, front, rs, bad + bytes);
    }
  }

  lemma StartsWithMagic(r: NbfRecord)
    ensures MAGIC <= RecordBytes(r)
  {
    var sum := BigEndian(Crc32.Checksum(Body(r)), 4);
    RecordLayout(r, sum, []);
    assert Body(r) + sum + [] == RecordBytes(r);
  }

  /** The magic bytes do not overlap themselves: behind one to three bytes of anything they are not found. */
  lemma MagicShifted(junk: seq<byte>, b: seq<byte>)
    requires MAGIC <= b && 1 <= |junk| <= 3
    ensures var s := junk + b; |s| >= 4 && s[..4] != MAGIC
  {
    var s := junk + b;
    assert s[..4][|junk|] == b[0] == MAGIC[0] != MAGIC[|junk|];
  }

  /** A record appended behind stray bytes ruins the log. */
  lemma AppendRuins(read: PayloadReader, log: seq<Segment>, limit: nat, r: NbfRecord)
    requires log != [] && AllSound(read, log) && BehindJunk(log, limit, r)
    ensures Ruined(read, Appended(Image(log), limit, RecordBytes(r)))
  {
    hide RecordBytes;
    hide LogBytes;
    hide Loggable;
    var (front, last) := (log[..|log| - 1], LastSegment(log));
    assert Sound(read, last);
    StartsWithMagic(r);
    MagicShifted(last.junk, RecordBytes(r));
    Assoc(LogBytes(last.records), last.junk, RecordBytes(r));
    var out := Appended(Image(log), limit, RecordBytes(r));
    assert RuinedAt(read, out, front, last.records, last.junk + RecordBytes(r));
  }

  /** How many stray bytes a repaired log ends in: those that were too few to be noticed. */
  lemma KeptJunk(read: PayloadReader, log: seq<Segment>, n: nat)
    requires log != [] && AllSound(read, log) && n <= |SegmentBytes(LastSegment(log))|
    ensures LastSegment(Kept(log, n)).junk != [] <==> 1 <= StrayBytes(log, n) <= 3
  {
    hide RecordBytes;
    hide LogBytes;
    hide Survivors;
    hide Residue;
    assert Sound(read, LastSegment(log));
    CutRecords(read, LastSegment(log), n);
  }

  function VerdictOn(read: PayloadReader, files: seq<seq<byte>>): Result<State> {
    RecoveredFrom(read, files, 0, EMPTY).0
  }

  function FilesAfter(read: PayloadReader, files: seq<seq<byte>>): (r: seq<seq<byte>>)
    ensures |r| == |files|
  {
    RecoveredFrom(read, files, 0, EMPTY).1
  }

  /** The verdict of a second recovery, after a recovery and an append. */
  function SecondVerdict(read: PayloadReader, files: seq<seq<byte>>, limit: nat, bytes: seq<byte>): Result<State>
    requires files != []
  {
    VerdictOn(read, Appended(FilesAfter(read, files), limit, bytes))
  }

  /** The files right after a crash that kept `n` bytes of the last segment. */
  function CrashImage(log: seq<Segment>, n: nat): (r: seq<seq<byte>>)
    requires log != [] && n <= |SegmentBytes(log[|log| - 1])|
    ensures r != []
  {
    Crashed(Image(log), n)
  }

  /** The crash leaves one to three stray bytes, and the record fits behind them. */
  predicate Spoils(log: seq<Segment>, n: nat, limit: nat, r: NbfRecord)
    requires log != [] && n <= |SegmentBytes(log[|log| - 1])|
  {
    1 <= StrayBytes(log, n) <= 3 && |SegmentBytes(LastSegment(Kept(log, n)))| + |RecordBytes(r)| <= limit
  }

  /**
   Crash, recover, append, recover: the second recovery fails exactly when the crash left one to three
   stray bytes and the record still fits behind them. In all other cases, a rotation included, it
   replays the surviving records and the new one.
   */
  lemma AppendAfterCrash(read: PayloadReader, log: seq<Segment>, n: nat, limit: nat, r: NbfRecord)
    requires log != [] && AllSound(read, log) && n <= |SegmentBytes(log[|log| - 1])| && Loggable(read, r)
    ensures SecondVerdict(read, CrashImage(log, n), limit, RecordBytes(r))
            == if Spoils(log, n, limit, r) then Err(WalCorrupted) else Replay(read, Records(Kept(log, n)) + [r], EMPTY)
    ensures Replay(read, Records(Kept(log, n)) + [r], EMPTY).Ok?
  {
    hide RecordBytes;
    hide SegmentBytes;
    hide RecoveredFrom;
    hide Replay;
    hide Loggable;
    hide Residue;
    hide Sound;
    CrashRecovery(read, log, n);
    KeptSound(read, log, n);
    KeptJunk(read, log, n);
    var kept := Kept(log, n);
    hide Kept;
    RecordsLoggable(read, kept);
    ReplayOk(read, Records(kept) + [r], EMPTY);
    if BehindJunk(kept, limit, r) {
      AppendRuins(read, kept, limit, r);
      RuinedFails(read, Appended(Image(kept), limit, RecordBytes(r)));
    } else {
      AppendedImage(read, kept, limit, r);
      IntactRecovery(read, AppendedLog(kept, limit, r));
    }
  }

  // ---- damage that is mistaken for a torn write ----

  lemma TornSegment(read: PayloadReader, rs: seq<NbfRecord>, torn: seq<byte>, st: State)
    requires AllLoggable(read, rs) && DecodeBytes(torn) == Failed(TornWriteDetected)
    ensures Replay(read, rs, st).Ok? && Replay(read, rs, st).value.tornTails == st.tornTails
    ensures SegmentRecovered(read, LogBytes(rs) + torn, st)
            == Ok((Replay(read, rs, st).value.(tornTails := st.tornTails + 1), LogBytes(rs)))
  {
    hide RecordBytes;
    hide Loggable;
    hide DecodeBytes;
    hide Replay;
    hide SegmentRecovered;
    assert Scan(torn) == Scanned([], torn, Torn);
    hide Scan;
    ScanRecords(read, rs, torn);
    assert rs + [] == rs;
    ReplayOk(read, rs, st);
    hide LogBytes;
    RecoveredByScan(read, LogBytes(rs) + torn, Scan(LogBytes(rs) + torn), st);
    assert (LogBytes(rs) + torn)[..|LogBytes(rs)|] == LogBytes(rs);
  }

  /** A torn write, real or apparent, cuts off everything behind it in its segment; recovery goes on with the next one. */
  lemma TornWriteCutsSegment(read: PayloadReader, files: seq<seq<byte>>, front: seq<Segment>, rs: seq<NbfRecord>, torn: seq<byte>)
    requires |front| < |files| && AllSound(read, front) && AllLoggable(read, rs)
    requires forall i :: 0 <= i < |front| ==> files[i] == SegmentBytes(front[i])
    requires files[|front|] == LogBytes(rs) + torn && DecodeBytes(torn) == Failed(TornWriteDetected)
    ensures Replay(read, Records(front) + rs, EMPTY).Ok?
    ensures RecoveredFrom(read, files, 0, EMPTY)
            == RecoveredFrom(read, files[|front| := LogBytes(rs)], |front| + 1,
                             Replay(read, Records(front) + rs, EMPTY).value.(tornTails := 1))
  {
    hide SegmentBytes;
    hide LogBytes;
    hide Loggable;
    hide RecoveredFrom;
    hide SegmentRecovered;
    hide DecodeBytes;
    hide Replay;
    hide Records;
    hide Sound;
    SoundSegments(read, files, front, 0, EMPTY);
    RecordsLoggable(read, front);
    ReplayOk(read, Records(front), EMPTY);
    ReplayAppend(read, Records(front), rs, EMPTY);
    TornSegment(read, rs, torn, Replay(read, Records(front), EMPTY).value);
    GoesOn(read, files, |front|, Replay(read, Records(front), EMPTY).value);
  }

  /**
   What an unprotected length prefix costs: a length that is damaged so that it reaches past the end of
   its segment makes recovery cut off everything behind it there, whole records too.
   */
  lemma LengthDamageCutsSegment(read: PayloadReader, files: seq<seq<byte>>, front: seq<Segment>, rs: seq<NbfRecord>,
                                r: NbfRecord, f: LengthField, len: nat, rest: seq<byte>)
    requires |front| < |files| && AllSound(read, front) && AllLoggable(read, rs)
    requires forall i :: 0 <= i < |front| ==> files[i] == SegmentBytes(front[i])
    requires Encodable(r) && len < Limit(LengthWidth(f)) && ReachesPast(f, len, |BehindLength(r, f) + rest|)
    requires files[|front|] == LogBytes(rs) + (WithLength(r, f, len) + rest)
    ensures Replay(read, Records(front) + rs, EMPTY).Ok?
    ensures RecoveredFrom(read, files, 0, EMPTY)
            == RecoveredFrom(read, files[|front| := LogBytes(rs)], |front| + 1,
                             Replay(read, Records(front) + rs, EMPTY).value.(tornTails := 1))
  {
    hide SegmentBytes;
    hide LogBytes;
    hide AllLoggable;
    hide RecoveredFrom;
    hide WithLength;
    hide ReachesPast;
    hide BehindLength;
    hide Limit;
    hide Encodable;
    hide DecodeBytes;
    hide Replay;
    hide Records;
    hide AllSound;
    LengthDamageLooksTorn(r, f, len, rest);
    TornWriteCutsSegment(read, files, front, rs, WithLength(r, f, len) + rest);
  }
}
