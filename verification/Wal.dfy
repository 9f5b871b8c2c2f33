/**
 The write-ahead log (crates/nova-storage/src/wal.rs). The directory is the list of its segment
 files, file `k` holding segment `k`; operating-system writes are taken to succeed.
 */
module Wal {
  import opened Core
  import opened Bytes
  import opened DocumentIds
  import opened NbfFormat

  /** What one successful append does to the segment files. */
  function Appended(segments: seq<seq<byte>>, limit: nat, bytes: seq<byte>): (r: seq<seq<byte>>)
    requires segments != []
    ensures Flatten(r) == Flatten(segments) + bytes
    ensures |r| >= |segments|
  {
    var last := |segments| - 1;
    if |segments[last]| + |bytes| > limit then
      FlattenAppend(segments, [bytes]);
      FlattenOne(bytes);
      segments + [bytes]
    else
      FlattenLast(segments, bytes);
      segments[last := segments[last] + bytes]
  }

  /** `fetch_add(1) + 1` on an AtomicU64. */
  function NextSequenceOf(current: u64): u64 {
    (current + 1) % U64_LIMIT
  }

  class WalDirectory {
    var segments: seq<seq<byte>>

    constructor ()
      ensures segments == []
    {
      segments := [];
    }
  }

  class WriteAheadLog {
    const dir: WalDirectory
    const limit: nat
    var segmentIndex: nat
    var sequence: u64
    var segmentSize: nat

    /** The counters describe the active file: it is the last one, and its tracked size is its length. */
    ghost predicate Valid()
      reads this, dir
    {
      segmentIndex + 1 == |dir.segments| && segmentSize == |dir.segments[segmentIndex]|
    }

    /** `WriteAheadLog::open`: continues the last segment, or starts segment 0; the sequence is set later. */
    constructor Open(dir: WalDirectory, limit: nat)
      modifies dir
      ensures Valid() && this.dir == dir && this.limit == limit && sequence == 0
      ensures dir.segments == if old(dir.segments) == [] then [[]] else old(dir.segments)
    {
      this.dir := dir;
      this.limit := limit;
      var index := if |dir.segments| > 0 then |dir.segments| - 1 else 0;
      segmentIndex := index;
      sequence := 0;
      new;
      if |dir.segments| == 0 {
        dir.segments := [[]];
      }
      segmentSize := |dir.segments[index]|;
    }

    method SetSequence(n: u64)
      modifies this`sequence
      ensures sequence == n
    {
      sequence := n;
    }

    method NextSequence() returns (n: u64)
      modifies this`sequence
      ensures n == sequence == NextSequenceOf(old(sequence))
    {
      sequence := NextSequenceOf(sequence);
      n := sequence;
    }

    method RotateSegment()
      requires Valid()
      modifies this`segmentIndex, this`segmentSize, dir
      ensures Valid() && dir.segments == old(dir.segments) + [[]]
    {
      segmentIndex := segmentIndex + 1;
      dir.segments := dir.segments + [[]];
      segmentSize := 0;
    }

    /** The second half of `append`: rotate if the record does not fit, then write it. */
    method Write(encoded: seq<byte>)
      requires Valid()
      modifies this`segmentIndex, this`segmentSize, dir
      ensures Valid() && dir.segments == Appended(old(dir.segments), limit, encoded)
    {
      if segmentSize + |encoded| > limit {
        RotateSegment();
        assert dir.segments[segmentIndex] + encoded == encoded;
      }
      dir.segments := dir.segments[segmentIndex := dir.segments[segmentIndex] + encoded];
      segmentSize := segmentSize + |encoded|;
    }

    /** `WriteAheadLog::append`, with the clock as a parameter. */
    method Append(recordType: RecordType, ns: string, coll: string, id: DocumentId, payload: seq<byte>, txId: Option<u64>, timestamp: u64)
      returns (res: Result<u64>)
      requires Valid()
      modifies this, dir
      ensures Valid() && sequence == NextSequenceOf(old(sequence))
      ensures var r := NbfRecord(sequence, recordType, 0, txId, timestamp, ns, coll, id, payload);
              if Encodable(r)
              then res == Ok(sequence) && dir.segments == Appended(old(dir.segments), limit, RecordBytes(r))
              else res == Err(StorageError) && dir.segments == old(dir.segments)
    {
      var seqNo := NextSequence();
      var record := NbfRecord(seqNo, recordType, 0, txId, timestamp, ns, coll, id, payload);
      var encoded :- Encode(record);
      Write(encoded);
      return Ok(seqNo);
    }
  }

  /** Segments that are within the limit or hold a single oversized record. */
  ghost predicate WithinLimit<T>(enc: T -> seq<byte>, segments: seq<seq<byte>>, limit: nat, layout: seq<seq<T>>) {
    && |segments| == |layout|
    && (forall i :: 0 <= i < |segments| ==> segments[i] == EncodeAll(enc, layout[i]))
    && (forall i :: 0 <= i < |segments| ==> |segments[i]| <= limit || |layout[i]| == 1)
  }

  /** The segment files after appending `items` one after another. */
  function AppendedAll<T>(enc: T -> seq<byte>, segments: seq<seq<byte>>, limit: nat, items: seq<T>): (r: seq<seq<byte>>)
    requires segments != []
    ensures r != []
    decreases |items|
  {
    if items == [] then segments
    else AppendedAll(enc, Appended(segments, limit, enc(items[0])), limit, items[1..])
  }

  /**
   Serial appends: rotation loses and reorders nothing, and every segment is within the limit or
   holds one oversized record.
   */
  lemma {:induction false} RotationBounds<T>(enc: T -> seq<byte>, segments: seq<seq<byte>>, limit: nat, layout: seq<seq<T>>, items: seq<T>)
    returns (out: seq<seq<T>>)
    requires segments != [] && WithinLimit(enc, segments, limit, layout)
    ensures WithinLimit(enc, AppendedAll(enc, segments, limit, items), limit, out)
    ensures Flatten(out) == Flatten(layout) + items
    decreases |items|
  {
    hide Appended;
    if items == [] {
      out := layout;
    } else {
      hide WithinLimit;
      var r := items[0];
      var layout' := AppendKeepsLimit(enc, segments, limit, layout, r);
      out := RotationBounds(enc, Appended(segments, limit, enc(r)), limit, layout', items[1..]);
      assert items == [r] + items[1..];
    }
  }

  lemma AppendKeepsLimit<T>(enc: T -> seq<byte>, segments: seq<seq<byte>>, limit: nat, layout: seq<seq<T>>, item: T)
    returns (out: seq<seq<T>>)
    requires segments != [] && WithinLimit(enc, segments, limit, layout)
    ensures WithinLimit(enc, Appended(segments, limit, enc(item)), limit, out)
    ensures Flatten(out) == Flatten(layout) + [item]
  {
    var last := |segments| - 1;
    EncodeOne(enc, item);
    if |segments[last]| + |enc(item)| > limit {
      out := layout + [[item]];
      FlattenAppend(layout, [[item]]);
      FlattenOne([item]);
    } else {
      out := layout[last := layout[last] + [item]];
      EncodeAllAppend(enc, layout[last], [item]);
      FlattenLast(layout, [item]);
    }
  }
}
