/**
 Crash recovery (crates/nova-storage/src/recovery.rs): scanning a segment, cutting a torn tail,
 and replaying the records into collections.
 */
module Recovery {
  import opened Core
  import opened Bytes
  import opened Documents
  import opened DocumentIds
  import opened NbfFormat
  import opened Wal

  /** `document_from_payload`: the JSON reader, which may refuse the bytes. */
  type PayloadReader = seq<byte> -> Option<Document>

  datatype State = State(collections: Collections, maxSequence: u64, replayed: nat, tornTails: nat)

  const EMPTY := State(map[], 0, 0, 0)

  // ---- scanning ----

  datatype End = Clean | Torn | Corrupt

  /** The records at the front of a file, what is left behind them, and why the scan stopped. */
  datatype Scanned = Scanned(records: seq<NbfRecord>, rest: seq<byte>, end: End)

  lemma DecodeProgress(s: seq<byte>)
    requires DecodeBytes(s).Record?
    ensures |DecodeBytes(s).rest| < |s|
  {
    DecodeRestPrefix(s[4..], 0);
  }

  function Scan(s: seq<byte>): (r: Scanned)
    ensures |r.rest| <= |s|
    decreases |s|
  {
    match DecodeBytes(s)
    case CleanEof => Scanned([], s, Clean)
    case Failed(code) => Scanned([], s, if code == TornWriteDetected then Torn else Corrupt)
    case Record(r, rest) =>
      DecodeProgress(s);
      var t := Scan(rest);
      Scanned([r] + t.records, t.rest, t.end)
  }

  // ---- replay ----

  /** `apply_record_to_state`. */
  function Apply(read: PayloadReader, r: NbfRecord, collections: Collections): Result<Collections> {
    var key := (r.namespace, r.collection);
    var store := StoreOf(collections, key);
    match r.recordType
    case Insert | Update =>
      (match read(r.payload)
       case None => Err(StorageError)
       case Some(doc) => Ok(collections[key := store[r.documentId := doc]]))
    case Delete => Ok(collections[key := store - {r.documentId}])
    case Checkpoint | TxBegin | TxCommit | TxRollback => Ok(collections[key := store])
  }

  function Max(a: u64, b: u64): u64 {
    if a > b then a else b
  }

  function ReplayOne(read: PayloadReader, r: NbfRecord, st: State): Result<State> {
    var collections :- Apply(read, r, st.collections);
    Ok(State(collections, Max(st.maxSequence, r.sequence), st.replayed + 1, st.tornTails))
  }

  function Replay(read: PayloadReader, rs: seq<NbfRecord>, st: State): Result<State>
    decreases |rs|
  {
    if rs == [] then Ok(st)
    else
      var st' :- ReplayOne(read, rs[0], st);
      Replay(read, rs[1..], st')
  }

  lemma {:induction false} ReplayAppend(read: PayloadReader, a: seq<NbfRecord>, b: seq<NbfRecord>, st: State)
    ensures Replay(read, a + b, st) ==
            if Replay(read, a, st).Ok? then Replay(read, b, Replay(read, a, st).value) else Replay(read, a, st)
    decreases |a|
  {
    if a == [] {
      assert a + b == b;
    } else {
      assert (a + b)[1..] == a[1..] + b;
      var one := ReplayOne(read, a[0], st);
      if one.Ok? {
        ReplayAppend(read, a[1..], b, one.value);
      }
    }
  }

  /** What recovery makes of `file` when only `s`, a tail of it, is still unread. */
  function RestRecovered(read: PayloadReader, file: seq<byte>, s: seq<byte>, st: State): Result<(State, seq<byte>)>
    requires |s| <= |file|
  {
    var t := Scan(s);
    var st' :- Replay(read, t.records, st);
    match t.end
    case Clean => Ok((st', file))
    case Torn => Ok((st'.(tornTails := st'.tornTails + 1), file[..|file| - |t.rest|]))
    case Corrupt => Err(WalCorrupted)
  }

  /** What recovery makes of one segment file: the new state and the new file contents. */
  function SegmentRecovered(read: PayloadReader, file: seq<byte>, st: State): Result<(State, seq<byte>)> {
    RestRecovered(read, file, file, st)
  }

  /** The first record decides, then the rest. */
  lemma ScanStep(s: seq<byte>, r: NbfRecord, rest: seq<byte>)
    requires DecodeBytes(s) == Record(r, rest)
    ensures |rest| < |s| && Scan(s) == Scanned([r] + Scan(rest).records, Scan(rest).rest, Scan(rest).end)
  {
    hide DecodeBytes;
    DecodeProgress(s);
  }

  lemma RestRecoveredStep(read: PayloadReader, file: seq<byte>, s: seq<byte>, st: State, r: NbfRecord, rest: seq<byte>)
    requires |s| <= |file| && DecodeBytes(s) == Record(r, rest)
    ensures |rest| < |s|
    ensures RestRecovered(read, file, s, st) ==
            match ReplayOne(read, r, st)
            case Err(code) => Err(code)
            case Ok(st') => RestRecovered(read, file, rest, st')
  {
    hide DecodeBytes;
    ScanStep(s, r, rest);
    assert ([r] + Scan(rest).records)[1..] == Scan(rest).records;
  }

  /** Where nothing more can be decoded. */
  lemma RestRecoveredEnd(read: PayloadReader, file: seq<byte>, s: seq<byte>, st: State)
    requires |s| <= |file| && !DecodeBytes(s).Record?
    ensures RestRecovered(read, file, s, st)
            == if DecodeBytes(s).CleanEof? then Ok((st, file))
               else if DecodeBytes(s).code == TornWriteDetected then Ok((st.(tornTails := st.tornTails + 1), file[..|file| - |s|]))
               else Err(WalCorrupted)
  {
    hide DecodeBytes;
  }

  /** Recovery of all segments from the `i`-th on: the verdict and the files afterwards. */
  function RecoveredFrom(read: PayloadReader, segments: seq<seq<byte>>, i: nat, st: State): (r: (Result<State>, seq<seq<byte>>))
    requires i <= |segments|
    ensures |r.1| == |segments|
    decreases |segments| - i
  {
    if i == |segments| then (Ok(st), segments)
    else match SegmentRecovered(read, segments[i], st)
      case Err(code) => (Err(code), segments)
      case Ok((st', file)) => RecoveredFrom(read, segments[i := file], i + 1, st')
  }

  // ---- the program ----

  class RecoveredState {
    var collections: Collections
    var maxSequence: u64
    var recordsReplayed: nat
    var tornTailsTruncated: nat

    constructor ()
      ensures View() == EMPTY
    {
      collections, maxSequence, recordsReplayed, tornTailsTruncated := map[], 0, 0, 0;
    }

    function View(): State
      reads this
    {
      State(collections, maxSequence, recordsReplayed, tornTailsTruncated)
    }
  }

  /** `recover_segment`: returns the file contents that recovery leaves behind. */
  method RecoverSegment(read: PayloadReader, file: seq<byte>, state: RecoveredState) returns (res: Result<seq<byte>>)
    modifies state
    ensures match SegmentRecovered(read, file, old(state.View()))
            case Ok((st, contents)) => res == Ok(contents) && state.View() == st
            case Err(code) => res == Err(code)
  {
    hide DecodeBytes;
    hide IsDocumentId;
    hide Apply;
    hide RestRecovered;
    var reader := new Reader(file);
    var lastValidOffset := 0;
    assert reader.Rest() == file;
    while true
      invariant reader.Valid() && reader.data == file && lastValidOffset == reader.pos
      invariant fresh(reader)
      invariant SegmentRecovered(read, file, old(state.View())) == RestRecovered(read, file, reader.Rest(), state.View())
      decreases |file| - reader.pos
    {
      ghost var unread := reader.Rest();
      if !DecodeBytes(unread).Record? { RestRecoveredEnd(read, file, unread, state.View()); }
      var decoded := Decode(reader);
      match decoded {
        case Ok(Some(record)) =>
          RestRecoveredStep(read, file, unread, state.View(), record, reader.Rest());
          var updated :- Apply(read, record, state.collections);
          state.maxSequence := Max(state.maxSequence, record.sequence);
          state.collections := updated;
          state.recordsReplayed := state.recordsReplayed + 1;
          lastValidOffset := reader.pos;
        case Ok(None) =>
          return Ok(file);
        case Err(code) =>
          if code == TornWriteDetected {
            state.tornTailsTruncated := state.tornTailsTruncated + 1;
            return Ok(file[..lastValidOffset]);
          }
          return Err(WalCorrupted);
      }
    }
  }

  /** `RecoveryManager::recover` over the segments of a directory, in ascending order. */
  method Recover(read: PayloadReader, dir: WalDirectory) returns (res: Result<RecoveredState>)
    modifies dir
    ensures var (verdict, files) := RecoveredFrom(read, old(dir.segments), 0, EMPTY);
            && dir.segments == files
            && (match verdict
                case Ok(st) => res.Ok? && fresh(res.value) && res.value.View() == st
                case Err(code) => res == Err(code))
  {
    var state := new RecoveredState();
    var i := 0;
    while i < |dir.segments|
      invariant i <= |dir.segments|
      invariant fresh(state)
      invariant RecoveredFrom(read, old(dir.segments), 0, EMPTY) == RecoveredFrom(read, dir.segments, i, state.View())
    {
      var file :- RecoverSegment(read, dir.segments[i], state);
      dir.segments := dir.segments[i := file];
      i := i + 1;
    }
    return Ok(state);
  }
}
