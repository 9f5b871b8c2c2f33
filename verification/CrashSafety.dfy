/**
 What the log promises across crashes: a crash keeps some prefix of the bytes of the last segment;
 recovery then replays exactly the records whose encoding survived in full.
 */
module CrashSafety {
  import opened Core
  import opened Bytes
  import opened NbfFormat
  import opened Recovery

  /** A record the log can hold and give back unchanged. */
  predicate Loggable(read: PayloadReader, r: NbfRecord) {
    && Encodable(r) && r.txId != Some(0)
    && (r.recordType in {Insert, Update} ==> read(r.payload).Some?)
  }

  predicate AllLoggable(read: PayloadReader, rs: seq<NbfRecord>) {
    forall i :: 0 <= i < |rs| ==> Loggable(read, rs[i])
  }

  /** The bytes of a list of records. */
  function LogBytes(rs: seq<NbfRecord>): seq<byte> {
    EncodeAll(RecordBytes, rs)
  }

  // ---- one segment ----

  lemma DecodeFirst(read: PayloadReader, r: NbfRecord, rest: seq<byte>)
    requires Loggable(read, r)
    ensures DecodeBytes(RecordBytes(r) + rest) == Record(r, rest)
  {
    RoundTrip(r, rest);
  }

  lemma LogBytesCons(rs: seq<NbfRecord>, tail: seq<byte>)
    requires rs != []
    ensures LogBytes(rs) + tail == RecordBytes(rs[0]) + (LogBytes(rs[1..]) + tail)
  {
    hide RecordBytes;
    Assoc(RecordBytes(rs[0]), LogBytes(rs[1..]), tail);
  }

  /** A scan passes over complete records and stops where it would stop on what follows them. */
  lemma {:induction false} ScanRecords(read: PayloadReader, rs: seq<NbfRecord>, tail: seq<byte>)
    requires AllLoggable(read, rs)
    ensures Scan(LogBytes(rs) + tail) == Scanned(rs + Scan(tail).records, Scan(tail).rest, Scan(tail).end)
  {
    hide DecodeBytes;
    hide RecordBytes;
    hide Loggable;
    hide Scan;
    if rs == [] {
      assert LogBytes(rs) + tail == tail;
    } else {
      var rest := LogBytes(rs[1..]) + tail;
      LogBytesCons(rs, tail);
      DecodeFirst(read, rs[0], rest);
      ScanStep(LogBytes(rs) + tail, rs[0], rest);
      ScanRecords(read, rs[1..], tail);
      assert rs == [rs[0]] + rs[1..];
      assert [rs[0]] + (rs[1..] + Scan(tail).records) == rs + Scan(tail).records;
    }
  }

  lemma ScanEmpty()
    ensures Scan([]) == Scanned([], [], Clean)
  {
  }

  lemma ScanTear(r: NbfRecord, k: nat)
    requires Encodable(r) && k < |RecordBytes(r)|
    ensures Scan(RecordBytes(r)[..k]) == Scanned([], RecordBytes(r)[..k], if k < 4 then Clean else Torn)
  {
    StrictPrefix(r, k);
    hide DecodeBytes;
    hide RecordBytes;
  }

  /** A cut segment: the scan finds exactly the surviving records, and ends cleanly below four stray bytes. */
  lemma ScanCut(read: PayloadReader, rs: seq<NbfRecord>, n: nat)
    requires AllLoggable(read, rs) && n <= |LogBytes(rs)|
    ensures var (m, k) := (Survivors(RecordBytes, rs, n), Residue(RecordBytes, rs, n));
            var t := Scan(LogBytes(rs)[..n]);
            && t.records == rs[..m] && |t.rest| == k
            && t.end == (if k < 4 then Clean else Torn)
            && LogBytes(rs)[..n][..n - k] == LogBytes(rs[..m])
  {
    hide DecodeBytes;
    hide RecordBytes;
    var (m, k) := (Survivors(RecordBytes, rs, n), Residue(RecordBytes, rs, n));
    CutSplit(RecordBytes, rs, n);
    hide Survivors;
    hide Residue;
    hide Loggable;
    if m == |rs| {
      ScanRecords(read, rs, []);
      assert LogBytes(rs) + [] == LogBytes(rs)[..n] && rs + [] == rs == rs[..m];
      ScanEmpty();
    } else {
      ScanRecords(read, rs[..m], RecordBytes(rs[m])[..k]);
      ScanTear(rs[m], k);
      hide Scan;
      assert rs[..m] + [] == rs[..m];
      SplitAppend(LogBytes(rs[..m]), RecordBytes(rs[m])[..k]);
    }
  }

  // ---- replay never fails on loggable records ----

  lemma {:induction false} ReplayOk(read: PayloadReader, rs: seq<NbfRecord>, st: State)
    requires AllLoggable(read, rs)
    ensures var res := Replay(read, rs, st);
            res.Ok? && res.value.tornTails == st.tornTails && res.value.replayed == st.replayed + |rs|
    decreases |rs|
  {
    if rs != [] {
      assert Loggable(read, rs[0]);
      var st' := ReplayOne(read, rs[0], st).value;
      ReplayOk(read, rs[1..], st');
    }
  }

  // ---- segments ----

  /**
   One segment: whole records, and at most three stray bytes behind them. That few are read as a clean
   end, so recovery never cuts them off.
   */
  datatype Segment = Segment(records: seq<NbfRecord>, junk: seq<byte>)

  function SegmentBytes(s: Segment): seq<byte> {
    LogBytes(s.records) + s.junk
  }

  predicate Sound(read: PayloadReader, s: Segment) {
    AllLoggable(read, s.records) && |s.junk| <= 3
  }

  /** What recovery leaves of a segment that a crash cut to `n` bytes. */
  function CutTo(s: Segment, n: nat): Segment
    requires n <= |SegmentBytes(s)|
  {
    var (m, k) := (Survivors(RecordBytes, s.records, n), Residue(RecordBytes, s.records, n));
    Segment(s.records[..m], if k < 4 then SegmentBytes(s)[n - k..n] else [])
  }

  lemma ScanShort(tail: seq<byte>)
    requires |tail| <= 3
    ensures Scan(tail) == Scanned([], tail, Clean)
  {
  }

  lemma RecoveredByScan(read: PayloadReader, file: seq<byte>, t: Scanned, st: State)
    requires Scan(file) == t && Replay(read, t.records, st).Ok?
    ensures SegmentRecovered(read, file, st) ==
            match t.end
            case Clean => Ok((Replay(read, t.records, st).value, file))
            case Torn => Ok((Replay(read, t.records, st).value.(tornTails := Replay(read, t.records, st).value.tornTails + 1),
                             file[..|file| - |t.rest|]))
            case Corrupt => Err(WalCorrupted)
  {
    hide DecodeBytes;
    hide Replay;
  }

  /** A sound segment is replayed and left as it stands. */
  lemma SoundSegment(read: PayloadReader, s: Segment, st: State)
    requires Sound(read, s)
    ensures Replay(read, s.records, st).Ok?
    ensures SegmentRecovered(read, SegmentBytes(s), st) == Ok((Replay(read, s.records, st).value, SegmentBytes(s)))
  {
    hide DecodeBytes;
    hide RecordBytes;
    hide Loggable;
    hide Scan;
    hide Replay;
    ScanRecords(read, s.records, s.junk);
    ScanShort(s.junk);
    assert s.records + [] == s.records;
    ReplayOk(read, s.records, st);
    RecoveredByScan(read, SegmentBytes(s), Scan(SegmentBytes(s)), st);
  }

  /** Cutting behind the last record leaves all of them. */
  lemma {:induction false} CutBehind<T>(enc: T -> seq<byte>, items: seq<T>, n: nat)
    requires n >= |EncodeAll(enc, items)|
    ensures Survivors(enc, items, n) == |items| && Residue(enc, items, n) == n - |EncodeAll(enc, items)|
  {
    if items != [] {
      CutBehind(enc, items[1..], n - |enc(items[0])|);
    }
  }

  /** A cut segment: the scan finds the surviving records, and ends cleanly below four stray bytes. */
  lemma ScanCutSegment(read: PayloadReader, s: Segment, n: nat)
    requires Sound(read, s) && n <= |SegmentBytes(s)|
    ensures var (m, k) := (Survivors(RecordBytes, s.records, n), Residue(RecordBytes, s.records, n));
            var t := Scan(SegmentBytes(s)[..n]);
            && k <= n && t.records == s.records[..m] && |t.rest| == k
            && t.end == (if k < 4 then Clean else Torn)
            && SegmentBytes(s)[..n - k] == LogBytes(s.records[..m])
  {
    hide DecodeBytes;
    hide RecordBytes;
    hide Scan;
    hide Loggable;
    var (rs, len) := (s.records, |LogBytes(s.records)|);
    if n <= len {
      ScanCut(read, rs, n);
      assert SegmentBytes(s)[..n] == LogBytes(rs)[..n];
      assert forall i | 0 <= i <= n :: SegmentBytes(s)[..n][..i] == SegmentBytes(s)[..i];
    } else {
      CutBehind(RecordBytes, rs, n);
      hide Survivors;
      hide Residue;
      var tail := s.junk[..n - len];
      assert SegmentBytes(s)[..n] == LogBytes(rs) + tail;
      ScanRecords(read, rs, tail);
      ScanShort(tail);
      assert rs + [] == rs && rs[..|rs|] == rs;
    }
  }

  /** The bytes that recovery leaves of a cut segment. */
  lemma CutBytes(read: PayloadReader, s: Segment, n: nat)
    requires Sound(read, s) && n <= |SegmentBytes(s)|
    ensures var k := Residue(RecordBytes, s.records, n);
            k <= n && SegmentBytes(CutTo(s, n)) == SegmentBytes(s)[..if k < 4 then n else n - k]
    ensures Sound(read, CutTo(s, n))
  {
    hide RecordBytes;
    hide Loggable;
    hide LogBytes;
    ScanCutSegment(read, s, n);
    hide Scan;
    hide Survivors;
    hide Residue;
    var (m, k) := (Survivors(RecordBytes, s.records, n), Residue(RecordBytes, s.records, n));
    var bytes := SegmentBytes(s);
    assert bytes[..n] == bytes[..n - k] + bytes[n - k..n];
    assert LogBytes(s.records[..m]) + [] == LogBytes(s.records[..m]);
  }

  /** A file that scans to whole records and a strict prefix of one more. */
  lemma TornFile(read: PayloadReader, file: seq<byte>, rs: seq<NbfRecord>, k: nat, st: State)
    requires AllLoggable(read, rs) && k <= |file|
    requires var t := Scan(file); t.records == rs && |t.rest| == k && t.end == if k < 4 then Clean else Torn
    ensures Replay(read, rs, st).Ok?
    ensures SegmentRecovered(read, file, st)
            == Ok((Replay(read, rs, st).value.(tornTails := if k < 4 then st.tornTails else st.tornTails + 1),
                   file[..if k < 4 then |file| else |file| - k]))
  {
    hide Scan;
    ReplayOk(read, rs, st);
    hide Replay;
    hide AllLoggable;
    RecoveredByScan(read, file, Scan(file), st);
    hide SegmentRecovered;
    assert file[..|file|] == file;
  }

  lemma CutRecords(read: PayloadReader, s: Segment, n: nat)
    requires Sound(read, s) && n <= |SegmentBytes(s)|
    ensures AllLoggable(read, CutTo(s, n).records)
    ensures var (t, k) := (Scan(SegmentBytes(s)[..n]), Residue(RecordBytes, s.records, n));
            k <= n && t.records == CutTo(s, n).records && |t.rest| == k && t.end == if k < 4 then Clean else Torn
  {
    hide RecordBytes;
    hide Loggable;
    hide LogBytes;
    ScanCutSegment(read, s, n);
    hide Scan;
    hide Survivors;
    hide Residue;
  }

  /** A cut segment is replayed up to the cut, and shortened if four or more stray bytes show. */
  lemma CutSegment(read: PayloadReader, s: Segment, n: nat, st: State)
    requires Sound(read, s) && n <= |SegmentBytes(s)|
    ensures Replay(read, CutTo(s, n).records, st).Ok?
    ensures SegmentRecovered(read, SegmentBytes(s)[..n], st)
            == Ok((Replay(read, CutTo(s, n).records, st).value.(
                     tornTails := if Residue(RecordBytes, s.records, n) < 4 then st.tornTails else st.tornTails + 1),
                   SegmentBytes(CutTo(s, n))))
  {
    hide SegmentRecovered;
    hide RecordBytes;
    hide Scan;
    hide Replay;
    hide Residue;
    hide AllLoggable;
    CutRecords(read, s, n);
    CutBytes(read, s, n);
    hide CutTo;
    hide SegmentBytes;
    var (k, file) := (Residue(RecordBytes, s.records, n), SegmentBytes(s)[..n]);
    TornFile(read, file, CutTo(s, n).records, k, st);
    assert file[..if k < 4 then n else n - k] == SegmentBytes(s)[..if k < 4 then n else n - k];
  }

  // ---- the whole directory ----

  /** The segment files of a log. */
  function Image(log: seq<Segment>): (r: seq<seq<byte>>)
    ensures |r| == |log|
    ensures forall i :: 0 <= i < |log| ==> r[i] == SegmentBytes(log[i])
  {
    seq(|log|, i requires 0 <= i < |log| => SegmentBytes(log[i]))
  }

  function RecordLists(log: seq<Segment>): (r: seq<seq<NbfRecord>>)
    ensures |r| == |log|
    ensures forall i :: 0 <= i < |log| ==> r[i] == log[i].records
  {
    seq(|log|, i requires 0 <= i < |log| => log[i].records)
  }

  /** All records of a log, in file order. */
  function Records(log: seq<Segment>): seq<NbfRecord> {
    Flatten(RecordLists(log))
  }

  predicate AllSound(read: PayloadReader, log: seq<Segment>) {
    forall i :: 0 <= i < |log| ==> Sound(read, log[i])
  }

  lemma RecordsAppend(a: seq<Segment>, b: seq<Segment>)
    ensures Records(a + b) == Records(a) + Records(b)
  {
    assert RecordLists(a + b) == RecordLists(a) + RecordLists(b);
    FlattenAppend(RecordLists(a), RecordLists(b));
  }

  lemma RecordsOne(s: Segment)
    ensures Records([s]) == s.records
  {
    assert RecordLists([s]) == [s.records];
    FlattenOne(s.records);
  }

  /** The log with its last segment replaced. */
  function WithLast(log: seq<Segment>, s: Segment): (r: seq<Segment>)
    requires log != []
    ensures |r| == |log| && r[|r| - 1] == s
  {
    log[|log| - 1 := s]
  }

  lemma RecordsWithLast(log: seq<Segment>, s: Segment)
    requires log != []
    ensures Records(WithLast(log, s)) == Records(log[..|log| - 1]) + s.records
  {
    var front := log[..|log| - 1];
    assert WithLast(log, s) == front + [s];
    RecordsAppend(front, [s]);
    RecordsOne(s);
  }

  lemma LastRecords(log: seq<Segment>)
    requires log != []
    ensures Records(log) == Records(log[..|log| - 1]) + log[|log| - 1].records
  {
    RecordsWithLast(log, log[|log| - 1]);
    assert WithLast(log, log[|log| - 1]) == log;
  }

  lemma {:induction false} RecordsLoggable(read: PayloadReader, log: seq<Segment>)
    requires AllSound(read, log)
    ensures AllLoggable(read, Records(log))
    decreases |log|
  {
    hide Loggable;
    if log == [] {
      assert RecordLists(log) == [];
    } else {
      var front := log[..|log| - 1];
      assert Sound(read, log[|log| - 1]);
      assert AllSound(read, front) by {
        hide Sound;
        assert forall i :: 0 <= i < |front| ==> front[i] == log[i];
      }
      RecordsLoggable(read, front);
      LastRecords(log);
    }
  }

  lemma LastFileRecovered(read: PayloadReader, files: seq<seq<byte>>, st: State)
    requires files != [] && SegmentRecovered(read, files[|files| - 1], st).Ok?
    ensures var (st', file) := SegmentRecovered(read, files[|files| - 1], st).value;
            RecoveredFrom(read, files, |files| - 1, st) == (Ok(st'), files[|files| - 1 := file])
  {
    hide SegmentRecovered;
    var (st', file) := SegmentRecovered(read, files[|files| - 1], st).value;
    assert RecoveredFrom(read, files[|files| - 1 := file], |files|, st') == (Ok(st'), files[|files| - 1 := file]);
  }

  /** Sound segments in front are replayed in order and left alone. */
  lemma {:induction false} SoundSegments(read: PayloadReader, files: seq<seq<byte>>, log: seq<Segment>, i: nat, st: State)
    requires i + |log| <= |files| && AllSound(read, log)
    requires forall x :: 0 <= x < |log| ==> files[i + x] == SegmentBytes(log[x])
    ensures Replay(read, Records(log), st).Ok?
    ensures RecoveredFrom(read, files, i, st) == RecoveredFrom(read, files, i + |log|, Replay(read, Records(log), st).value)
    decreases |log|
  {
    hide SegmentBytes;
    hide SegmentRecovered;
    hide Sound;
    if log == [] {
      assert RecordLists(log) == [];
    } else {
      SoundSegment(read, log[0], st);
      var st' := Replay(read, log[0].records, st).value;
      assert files[i] == SegmentBytes(log[0]);
      assert files[i := files[i]] == files;
      SoundSegments(read, files, log[1..], i + 1, st');
      assert log == [log[0]] + log[1..];
      RecordsAppend([log[0]], log[1..]);
      RecordsOne(log[0]);
      ReplayAppend(read, log[0].records, Records(log[1..]), st);
      hide Replay;
      hide Records;
    }
  }

  /** A sound log is replayed whole, and recovery leaves its files alone. */
  lemma IntactRecovery(read: PayloadReader, log: seq<Segment>)
    requires AllSound(read, log)
    ensures Replay(read, Records(log), EMPTY).Ok?
    ensures RecoveredFrom(read, Image(log), 0, EMPTY) == (Ok(Replay(read, Records(log), EMPTY).value), Image(log))
  {
    hide SegmentRecovered;
    hide SegmentBytes;
    hide Replay;
    hide Sound;
    SoundSegments(read, Image(log), log, 0, EMPTY);
    hide Records;
  }

  /** The files after a crash that kept `n` bytes of the last segment. */
  function Crashed(files: seq<seq<byte>>, n: nat): seq<seq<byte>>
    requires files != [] && n <= |files[|files| - 1]|
  {
    files[|files| - 1 := files[|files| - 1][..n]]
  }

  /** What is left of a log when a crash cuts its last segment to `n` bytes and recovery repairs it. */
  function Kept(log: seq<Segment>, n: nat): (r: seq<Segment>)
    requires log != [] && n <= |SegmentBytes(log[|log| - 1])|
    ensures |r| == |log|
  {
    WithLast(log, CutTo(log[|log| - 1], n))
  }

  /** The bytes behind the last whole record after such a crash. */
  function StrayBytes(log: seq<Segment>, n: nat): nat
    requires log != []
  {
    Residue(RecordBytes, log[|log| - 1].records, n)
  }

  lemma KeptSound(read: PayloadReader, log: seq<Segment>, n: nat)
    requires log != [] && AllSound(read, log) && n <= |SegmentBytes(log[|log| - 1])|
    ensures AllSound(read, Kept(log, n))
    ensures exists dropped :: Records(log) == Records(Kept(log, n)) + dropped
  {
    hide RecordBytes;
    hide Survivors;
    hide Residue;
    hide Loggable;
    hide Replay;
    hide SegmentRecovered;
    var last := log[|log| - 1];
    var m := Survivors(RecordBytes, last.records, n);
    CutBytes(read, last, n);
    hide SegmentBytes;
    RecordsWithLast(log, CutTo(last, n));
    LastRecords(log);
    assert last.records == last.records[..m] + last.records[m..];
    assert Records(log) == Records(Kept(log, n)) + last.records[m..];
  }

  /**
   Crash recovery: whatever was logged and wherever the crash cut the last segment, recovery
   succeeds, its state is the replay of exactly the records that survived whole, and a tail of four
   or more stray bytes is cut off.
   */
  lemma CrashRecovery(read: PayloadReader, log: seq<Segment>, n: nat)
    requires log != [] && AllSound(read, log) && n <= |SegmentBytes(log[|log| - 1])|
    ensures Replay(read, Records(Kept(log, n)), EMPTY).Ok?
    ensures RecoveredFrom(read, Crashed(Image(log), n), 0, EMPTY)
            == (Ok(Replay(read, Records(Kept(log, n)), EMPTY).value.(tornTails := if StrayBytes(log, n) < 4 then 0 else 1)),
                Image(Kept(log, n)))
  {
    hide SegmentRecovered;
    hide RecordBytes;
    hide Loggable;
    hide Survivors;
    hide Residue;
    hide Replay;
    hide LogBytes;
    hide Sound;
    var (front, last) := (log[..|log| - 1], log[|log| - 1]);
    var (files, cut) := (Crashed(Image(log), n), CutTo(last, n));
    SoundSegments(read, files, front, 0, EMPTY);
    var st := Replay(read, Records(front), EMPTY).value;
    RecordsLoggable(read, front);
    ReplayOk(read, Records(front), EMPTY);
    CutSegment(read, last, n, st);
    LastFileRecovered(read, files, st);
    RecordsWithLast(log, cut);
    ReplayAppend(read, Records(front), cut.records, EMPTY);
    hide Records;
    hide SegmentBytes;
    assert files[|log| - 1 := SegmentBytes(cut)] == Image(Kept(log, n));
  }

  /** Recovering a second time gives the same state, finds nothing to cut, and leaves the files alone. */
  lemma RecoveryIdempotent(read: PayloadReader, log: seq<Segment>, n: nat)
    requires log != [] && AllSound(read, log) && n <= |SegmentBytes(log[|log| - 1])|
    ensures var (first, files) := RecoveredFrom(read, Crashed(Image(log), n), 0, EMPTY);
            && first.Ok?
            && RecoveredFrom(read, files, 0, EMPTY) == (Ok(first.value.(tornTails := 0)), files)
  {
    hide RecoveredFrom;
    hide Replay;
    hide SegmentBytes;
    hide Sound;
    hide Residue;
    CrashRecovery(read, log, n);
    var kept := Kept(log, n);
    KeptSound(read, log, n);
    hide Kept;
    IntactRecovery(read, kept);
    RecordsLoggable(read, kept);
    ReplayOk(read, Records(kept), EMPTY);
  }
}
