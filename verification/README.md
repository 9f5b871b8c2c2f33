# A Dafny model of NOVA DB

NOVA DB is a document database: mutations are appended as checksummed records to a segmented log, replayed on
restart, kept in memory per collection, found through secondary indexes, queried in a small language (NQL) and
served over a framed protocol. This project models that core and proves what its parts promise each other.

## What is modelled

* **Log and recovery.** `Crc32` is the bitwise checksum; `NbfFormat` the record format, both as functions on bytes and
  as the piecewise reader and writer; `LengthDamage` what its length prefixes let pass; `Wal`, `Recovery` and `CrashSafety` the segment
  files, replay and repair; `StrayTails` what repair misses; `LogRuns` a state machine of any number of appending threads with
  crashes and reopenings in between.
* **Values and documents.** `Values`, `ValueLaws` and `ValueTrust` hold the three relations on values (equality, order, hash) and where
  they agree, `FloatGrid` the doubles around an integer; `Documents`, `FieldLaws`, `DocumentIds` and `Json` hold field paths, identifiers and what a trip through JSON changes.
* **Indexes and queries.** `Indexes`, `IndexManagers`, `Evaluator`, `EvaluatorLaws`, `AssignmentLaws`, `Planner` and `Queries`. An index is *exact* when it
  lists each document that has the field under the document's current value and nothing else.
* **The engine.** `EngineState` states when memory, log and events agree; `EngineIndexes`, `EngineLog` and
  `EngineStatements` prepare the class `Engine.DatabaseEngine`, whose methods are the statements run one at a time.
  `IndexRaces` and `Interleaving` take the same statements apart into the steps that really interleave: an insert
  checks, logs, stores and indexes in four separately locked steps.
* **NQL.** `Lexing`/`Lexers` and `Grammar`/`Statements`/`Parsers` give lexer and parser as functions on what is left and
  as the cursor loops that follow them; `Printing`, `StatementPrinting` and `TextPrinting` print and prove the way back.
* **Protocol and snapshots.** `NvpFrame` and `NvpCodec` decode frames from a chunked stream; `Snapshots` flattens
  collection names and restores them.

Methods with loops or changing fields are proved against functions, and the properties are lemmas about those
functions. Parameters stand for what the code takes from outside: the clock, the order in which a hash map is walked,
the UUID text form (`UuidText`), the JSON text of documents and snapshots (`Codec`, `SnapshotText`, both allowed to fail), and which
characters outside ASCII are letters (`Alphabet`).

## Where the code departs from what one would expect

* docs/recovery.md says a partial tail is cut back to the last record. One to three stray bytes are read as a clean end
  and stay. A record that still fits behind them is acknowledged and ruins the log: no later start of the engine succeeds
  unless a crash happens to cut the record off (`StrayTails.AppendAfterCrash`, `Engine.DatabaseEngine.Open`, `LogRuns.CrashInv`).
* A damaged length that reaches past the end of its segment passes for a torn write, and repair cuts off the whole records
  behind it (`LengthDamage.LengthDamageLooksTorn`, `StrayTails.LengthDamageCutsSegment`).
* `decode` hashes the trimmed id with the stored length, so damage that gives an id outer white space is not surely noticed
  (`NbfFormat.CorruptionDetected`).
* A transaction of `Some(0)` comes back as `None` (`NbfFormat.RoundTrip`).
* REMOVE takes a filter that fails on a document as not selecting it, but `i64::MIN / -1` panics: such a document stops the
  whole statement before it removes anything (`Engine.DatabaseEngine.ExecuteRemove`, `EvaluatorLaws.PanickingFilter`).
* A failing assignment can leave a document changed and unlogged; exactly when is `AssignmentLaws.HalfApplied`, and what
  that does to the agreement of memory and log is `Engine.DatabaseEngine.ExecuteUpdate`.
* Two inserts of one id that are both in flight can leave memory and log apart (`Interleaving.TwoInsertsOfOneId`), and an
  update or removal that overtakes the index step of an insert can leave a stale index entry; exactly when is
  `IndexRaces.OvertakenByUpdate` and `IndexRaces.OvertakenByRemoval`, and over whole runs `Interleaving.BecomesStale` and
  `Interleaving.QuietIndexesExact`.
* A filter that accepts a missing field finds fewer documents through an index than by a scan
  (`Planner.PlanPreservesMeaning`), one on `id` finds none (`Planner.IdIndexFindsNothing`), and a BETWEEN with reversed
  bounds panics (`Queries.PanicsExactly`).
* Equality, order and hash come apart on NaN, on zeros of different sign and on integers that do not survive the
  conversion to a float; the exact conditions are `ValueTrust.OrderTrusted`, `ValueTrust.HashTrusted` and
  `ValueTrust.MiddleFloat`.
* Where its comparator is no total preorder on the documents found, a sort may return any order, or panic (`Queries.Find`).
* A snapshot does not give back a collection whose names contain `::` or whose namespace ends in a colon
  (`Snapshots.SnapshotRoundTrip`), and under the name of another collection with the same flat name such a one may return in
  its place (`Snapshots.NamedReturns`, `Snapshots.AnyMayReturn`).

## Model

| member | source | states |
|---|---|---|
| `Crc32.BurstDetected` | crates/nova-storage/src/format.rs:264-283 | Two byte strings of one length that differ only inside four consecutive bytes have different checksums (IEEE 802.3-2018, clause 3.2.9, as docs/storage.md names it) |
| `Crc32.UpdateAppend` | crates/nova-storage/src/format.rs:265-276 | Hashing a concatenation is hashing its parts one after another |
| `Crc32.UpdateInjective` | crates/nova-storage/src/format.rs:264-283 | From different registers, the same bytes lead to different registers: each step can be undone |
| `Crc32.Hasher.Feed` | crates/nova-storage/src/format.rs:264-276 | Updating the hasher piece by piece follows the bitwise definition |
| `NbfFormat.AppendText` | crates/nova-storage/src/format.rs:76-99 | A string field of at most 65535 bytes is appended with its length; a longer one is refused |
| `NbfFormat.AppendHeader` | crates/nova-storage/src/format.rs:61-74 | The header fields are appended in the order of the layout |
| `NbfFormat.HashPieces` | crates/nova-storage/src/format.rs:264-276 | Hashing the fields one by one gives the checksum of the laid-out record |
| `NbfFormat.Encode` | crates/nova-storage/src/format.rs:58-117 | Exactly the records within the size limits are encoded, to their layout followed by the checksum of all of it; the third limit check can never fire |
| `NbfFormat.Decode` | crates/nova-storage/src/format.rs:121-296 | Reads one record off the reader: a record and the position behind it, a clean end, or the error that the field-by-field definition gives |
| `NbfFormat.RoundTrip` | crates/nova-storage/src/format.rs:58-296 | Decoding an encoded record, whatever follows it, returns it and stops right behind it; the record comes back unchanged iff its transaction is not `Some(0)` |
| `NbfFormat.StrictPrefix` | crates/nova-storage/src/format.rs:123-127 | A strict prefix of an encoded record is a clean end below four bytes and a torn write from four bytes on |
| `NbfFormat.HashedPiecewise` | crates/nova-storage/src/format.rs:264-276 | The ten pieces that `decode` hashes give the checksum that `encode` computed in one go |
| `NbfFormat.CorruptionDetected` | crates/nova-storage/src/format.rs:264-283 | A change inside four consecutive bytes outside the length prefixes never passes for a torn write or a clean end, whatever follows, and is refused unless it gave the id outer white space, which is trimmed before hashing; if version, type and names are intact and the id bytes read as any id, as a checksum mismatch |
| `NbfFormat.ChecksumDamageDetected` | crates/nova-storage/src/format.rs:278-283 | A changed stored checksum is a checksum mismatch |
| `LengthDamage.LengthDamageLooksTorn` | crates/nova-storage/src/format.rs:171-262 | What the checksum does not protect: a namespace, collection or id length that reaches past the end reads as a torn write, and a payload length iff it is within the limit and fewer bytes follow than it and the checksum need |
| `LengthDamage.OwnLength` | crates/nova-storage/src/format.rs:76-107 | The record with a length put in its place is the encoded record, if that is its own length |
| `DocumentIds.NewDocumentId` | crates/nova-core/src/document.rs:15-27 | A text is accepted iff it is not empty after trimming and then has at most 256 bytes; an accepted id is the trimmed text, and an id is accepted as itself |
| `Utf8.DecodeEncode` | crates/nova-storage/src/format.rs:171-188 | Decoding the UTF-8 bytes of a string returns the string |
| `Utf8.EncodeDecode` | crates/nova-storage/src/format.rs:171-188 | Bytes that decode are the encoding of what they decode to, so a name has one byte form |
| `Wal.WriteAheadLog.Open` | crates/nova-storage/src/wal.rs:34-73 | Continues the last segment or starts segment 0; the tracked size is the length of the active file |
| `Wal.WriteAheadLog.RotateSegment` | crates/nova-storage/src/wal.rs:188-219 | Adds one empty segment, makes it the active one and resets the tracked size |
| `Wal.WriteAheadLog.Write` | crates/nova-storage/src/wal.rs:115-159 | Rotates iff the record does not fit, then appends it to the active file; the tracked size stays the file's length |
| `Wal.WriteAheadLog.Append` | crates/nova-storage/src/wal.rs:91-169 | An encodable record is appended with the next sequence number; another one is refused, uses up a number and leaves the files alone |
| `Wal.RotationBounds` | crates/nova-storage/src/wal.rs:118-122 | Serial appends lose and reorder nothing, and keep every segment within the limit or with one oversized record |
| `Recovery.RecoverSegment` | crates/nova-storage/src/recovery.rs:81-159 | The loop over one segment: the state it leaves, and the file cut at the last good offset iff a torn write was met |
| `Recovery.Recover` | crates/nova-storage/src/recovery.rs:49-78 | Recovery of a whole directory equals its segment-by-segment definition, in result, state and files |
| `Recovery.ReplayAppend` | crates/nova-storage/src/recovery.rs:162-183 | Replaying two lists of records is replaying their concatenation, so segment boundaries do not matter |
| `CrashSafety.ScanCutSegment` | crates/nova-storage/src/recovery.rs:93-155 | A segment, stray bytes and all, cut anywhere: the scan yields exactly the records that survived whole, and ends clean iff fewer than four bytes are left over |
| `CrashSafety.SoundSegments` | crates/nova-storage/src/recovery.rs:65-78 | Segments of whole records with at most three stray bytes behind them are replayed in order and left as they are |
| `CrashSafety.IntactRecovery` | crates/nova-storage/src/recovery.rs:49-159 | A sound log is replayed whole, and recovery leaves its files alone |
| `CrashSafety.CrashRecovery` | crates/nova-storage/src/recovery.rs:49-159 | After any appends and a crash at any byte of the last segment, recovery succeeds with the replay of exactly the surviving records, and cuts a tail of four or more stray bytes |
| `CrashSafety.RecoveryIdempotent` | crates/nova-storage/src/recovery.rs:124-143 | Recovering again gives the same state and changes no file |
| `StrayTails.AppendAfterCrash` | crates/nova-storage/src/wal.rs:115-159 | Crash anywhere, recover the directory, append, recover: the second recovery fails as corrupted iff the crash left one to three stray bytes and the record still fits the segment; otherwise, a rotation included, it replays the surviving records and the new one |
| `StrayTails.AppendedImage` | crates/nova-storage/src/wal.rs:115-159 | An append that is not behind stray bytes adds its record to the log and leaves it sound |
| `StrayTails.AppendRuins` | crates/nova-storage/src/recovery.rs:120-143 | A record appended behind stray bytes ruins the log |
| `StrayTails.RuinedFails` | crates/nova-storage/src/recovery.rs:144-154 | A ruined log is refused by every recovery, which leaves its files alone |
| `StrayTails.RuinedStays` | crates/nova-storage/src/wal.rs:115-159 | Whatever is appended to a ruined log, it stays ruined |
| `StrayTails.CorruptionStopsRecovery` | crates/nova-storage/src/recovery.rs:144-154 | A damaged record, in any segment and with anything behind it, makes the recovery of the directory fail and cuts nothing |
| `StrayTails.TornWriteCutsSegment` | crates/nova-storage/src/recovery.rs:124-143 | A torn write, real or apparent, in any segment cuts off everything behind it there; recovery goes on with the next segment |
| `StrayTails.LengthDamageCutsSegment` | crates/nova-storage/src/recovery.rs:124-143 | Any of the four lengths of a record, damaged so that it reaches past the end, makes recovery cut off everything behind it in that segment, whole records too |
| `LogRuns.ReserveInv` | crates/nova-storage/src/wal.rs:81-83 | Drawing a number keeps all numbers different |
| `LogRuns.RotateInv` | crates/nova-storage/src/wal.rs:188-219 | So does a rotation at any time, even one decided on a stale size |
| `LogRuns.WriteInv` | crates/nova-storage/src/wal.rs:144-159 | So does writing under the file lock, in any order of the reserved numbers, behind stray bytes too |
| `LogRuns.CrashInv` | crates/nova-server/src/engine.rs:35-44 | A crash at any byte, with recovery: the engine runs again, all numbers different, iff nothing was written behind stray bytes or the crash cut that off; otherwise the log is ruined |
| `LogRuns.StepInv` | crates/nova-storage/src/wal.rs:91-169 | Reserving a number, rotating, writing, and a crash at any byte with recovery and reopening each keep the log invariant, in any interleaving of threads |
| `LogRuns.RunsKeepInv` | crates/nova-storage/src/wal.rs:76-169 | In every state of every run, over any number of crashes: while an engine runs, the sequence numbers of written and reserved records are pairwise different, lost ones included, and the tracked size is the active file's length; once none runs, the log is ruined |
| `LogRuns.CrashAnywhere` | crates/nova-storage/src/recovery.rs:49-159 | From any state of any run, a crash at any byte recovers to the replay of exactly the surviving records, or, iff a record was written behind stray bytes and is not cut off, fails and changes nothing |
| `LogRuns.ReplayMaximum` | crates/nova-storage/src/recovery.rs:109-115 | The recovered maximum is at least every replayed sequence number |
| `ValueLaws.TotalOrder` | crates/nova-core/src/value.rs:180-220 | On values whose integers convert exactly, nested to any depth, `cmp` is a total order; what compares equal has one canonical form |
| `ValueLaws.CmpReverse` | crates/nova-core/src/value.rs:180-220 | Swapping the arguments reverses `cmp`, on all values |
| `ValueLaws.EqualImpliesEq` | crates/nova-core/src/value.rs:145-220 | What compares `Equal` is `==`, on all values |
| `ValueLaws.EqCanon` | crates/nova-core/src/value.rs:145-168 | On exact values `==` is identity of canonical forms, so it is an equivalence |
| `ValueLaws.HashCanon` | crates/nova-core/src/value.rs:223-272 | An integer hashes like the float it is equal to, at any depth |
| `ValueLaws.Coherent` | crates/nova-core/src/value.rs:145-272 | On exact values `==` and `cmp` agree, and equal values have equal hash streams |
| `ValueLaws.FloatDisagreement` | crates/nova-core/src/value.rs:151-158 | Floats are equal but ordered apart iff they are NaNs of different bits or zeros of different sign |
| `ValueTrust.MiddleFloat` | crates/nova-core/src/value.rs:151-158 | `==` and `cmp` fail to be transitive at two integers through a float iff the integers differ and convert to the same float |
| `ValueLaws.LargeIntegersBreakTheLaws` | crates/nova-core/src/value.rs:145-272 | An input: 2^53, 2^53 + 1 and the float 2^53 break transitivity of `==` and of `cmp`, and an equal pair of them hashes apart |
| `ValueTrust.ConvertsToZero` | crates/nova-core/src/value.rs:157 | Only zero converts to a zero, and every other integer to a finite float |
| `ValueTrust.OrderTrusted` | crates/nova-core/src/value.rs:145-220 | Everything `==` to a value also compares `Equal` to it iff it holds no NaN and no zero, at any depth |
| `ValueLaws.SpecialFloatsBreakTheLaws` | crates/nova-core/src/value.rs:145-272 | Inputs: negative zero against the integer 0 and two NaNs are `==` and ordered apart, and the NaNs hash apart too |
| `ValueTrust.HashTrusted` | crates/nova-core/src/value.rs:223-272 | Everything `==` to a value has its hash stream iff, at any depth, it holds no NaN, no integer that is neither a double nor the largest one, and no integral double from 2^53 to 2^63 in magnitude, except those below 2^54 that are twice an odd number |
| `ValueTrust.SurvivesExactly` | crates/nova-core/src/value.rs:231-241 | An integer comes back from its float iff it is a double or the largest integer, to which the cast saturates |
| `ValueTrust.SafeExactly` | crates/nova-core/src/value.rs:231-241 | The test of `HashTrusted` at a float says exactly that every integer converting to it comes back |
| `FloatGrid.RoundedDouble` | crates/nova-core/src/value.rs:157 | An integer beyond 2^53 converts to a double, in its own binade or at the end of it, and to itself iff it is one |
| `ValueTrust.SmallSurvives` | crates/nova-core/src/value.rs:231-241 | Every integer up to 2^53 comes back from its float |
| `Documents.GetPut` | crates/nova-core/src/document.rs:123-125 | Inserting a field changes what is read under its key and nothing else |
| `Documents.StoredFieldVisible` | crates/nova-core/src/document.rs:102-120 | A value stored under the literal text of a path is read through it iff the path has no dot, or the nested walk ends nowhere or at the same value |
| `Json.NormIdentity` | crates/nova-core/src/value.rs:348-409 | A value survives the trip through JSON iff it has no non-finite float, no string that reads as a UUID, no bytes and no timestamp, at any depth |
| `Json.NormStable` | crates/nova-core/src/value.rs:348-409 | What comes back from JSON is a value that JSON keeps |
| `Json.NormIdempotent` | crates/nova-core/src/value.rs:348-409 | A second trip through JSON changes no document |
| `Grouping.SelectGroups` | crates/nova-index/src/ordered.rs:61-74 | Scanning a range of an exact index is indexing the documents whose key lies in the range |
| `Indexes.InsertKeepsExact` | crates/nova-index/src/manager.rs:41-50 | Notifying an exact index of a new document gives the exact index of the larger store |
| `Indexes.UpdateKeepsExact` | crates/nova-index/src/manager.rs:52-69 | So does notifying it of an update, on exact values; the shortcut for equal values is sound |
| `Indexes.RemoveKeepsExact` | crates/nova-index/src/manager.rs:71-80 | So does notifying it of a removal |
| `Indexes.LengthCountsDocuments` | crates/nova-index/src/ordered.rs:76-78 | An exact index lists each document that has the field once, so `len` is their number |
| `IndexManagers.SecondaryIndex.Insert` | crates/nova-index/src/ordered.rs:36-42 | Adds the id under its key |
| `IndexManagers.SecondaryIndex.Remove` | crates/nova-index/src/ordered.rs:44-52 | Takes the id out, and the key away with its last id |
| `IndexManagers.SecondaryIndex.Lookup` | crates/nova-index/src/ordered.rs:54-59 | Lists the ids under the key, each once |
| `IndexManagers.SecondaryIndex.Scan` | crates/nova-index/src/ordered.rs:61-74 | Lists the ids under all keys in range; the hash index refuses; a reversed range panics unless the index is empty |
| `IndexManagers.SecondaryIndex.Len` | crates/nova-index/src/hash.rs:65-67 | The number of (key, id) entries |
| `IndexManagers.IndexManager.DropIndex` | crates/nova-index/src/manager.rs:23-25 | Removes the index of the name iff there is one, and says so |
| `IndexManagers.IndexManager.AddIndex` | crates/nova-index/src/manager.rs:18-21 | Registers the index under its name, replacing one of that name |
| `IndexManagers.IndexManager.FindIndexForField` | crates/nova-index/src/manager.rs:33-38 | Finds an index on the field iff there is one |
| `IndexManagers.IndexManager.OnInsert` | crates/nova-index/src/manager.rs:41-50 | Every index gets the document's entry, and no index is missed |
| `IndexManagers.IndexManager.OnUpdate` | crates/nova-index/src/manager.rs:52-69 | Every index moves the document's entry iff its values differ |
| `IndexManagers.IndexManager.OnRemove` | crates/nova-index/src/manager.rs:71-80 | Every index loses the document's entry |
| `IndexManagers.IndexManager.Rebuild` | crates/nova-index/src/manager.rs:82-93 | Rebuilding makes every index the exact one of the store, which is what incremental upkeep keeps |
| `Evaluator.ApplyAssignments` | crates/nova-query/src/evaluator.rs:166-176 | The loop gives the result and the document of assigning one after another, half changed if one fails |
| `Evaluator.AssignedKeepsId` | crates/nova-query/src/evaluator.rs:166-176 | Assignments never change the id |
| `AssignmentLaws.HalfApplied` | crates/nova-query/src/evaluator.rs:166-173 | A failing UPDATE leaves a document unchanged iff the assignments before the first failing one end up writing back what was there; always if the first one fails |
| `AssignmentLaws.DistinctHalfApplied` | crates/nova-query/src/evaluator.rs:166-173 | If no field is assigned twice, that is the case iff each of those assignments writes what the document holds |
| `AssignmentLaws.ChangedBackExample` | crates/nova-query/src/evaluator.rs:166-173 | An input that shows why the fields must differ: a field changed and changed back leaves the document as it was |
| `AssignmentLaws.HalfAppliedExample` | crates/nova-query/src/evaluator.rs:166-173 | An input on which a failing second assignment leaves the first one in the document |
| `EvaluatorLaws.DivisionLaw` | crates/nova-query/src/evaluator.rs:105-129 | Integer quotient and remainder belong together: the dividend is quotient times divisor plus a smaller remainder of the dividend's sign, wherever the code does not fail or panic |
| `EvaluatorLaws.SubtractionUndoesAddition` | crates/nova-query/src/evaluator.rs:75-95 | Wrapped subtraction undoes wrapped addition, and the sum is exact iff it fits 64 bits |
| `EvaluatorLaws.DeMorgan` | crates/nova-query/src/evaluator.rs:25-55 | De Morgan's laws hold of every two expressions on every document, errors and short-circuiting included |
| `EvaluatorLaws.BetweenUnfolds` | crates/nova-query/src/evaluator.rs:133-139 | BETWEEN evaluates like `x >= lo AND x <= hi` iff the upper bound does not fail where only BETWEEN evaluates it |
| `EvaluatorLaws.InUnfolds` | crates/nova-query/src/evaluator.rs:141-150 | IN with a non-empty list evaluates like the chain of its equalities joined by OR, errors and short-circuiting included |
| `EvaluatorLaws.UndividedNeverPanics` | crates/nova-query/src/evaluator.rs:12-152 | An expression without a division or remainder panics on no document |
| `EvaluatorLaws.PanickingFilter` | crates/nova-query/src/evaluator.rs:105-116 | An input: `x / -1 > 0` panics on a document iff its `x` is the smallest 64-bit integer, so it stops a REMOVE that `unwrap_or(false)` is meant to keep going |
| `Planner.FilterVerdict` | crates/nova-query/src/evaluator.rs:12-152 | On an indexable filter the evaluator's verdict depends on the value of the one field only, and never fails |
| `Planner.PlanMatchesVerdict` | crates/nova-query/src/planner.rs:63-174 | The key or range that the planner picks holds exactly the values the filter accepts |
| `Planner.PlanPreservesMeaning` | crates/nova-query/src/planner.rs:63-174 | On exact indexes and values, the plan finds the same documents as a scan iff the filter rejects a missing field or every document has it |
| `Planner.IdIndexFindsNothing` | crates/nova-query/src/planner.rs:74-97 | A planned lookup by `id` finds nothing at all, as `id` is never a stored field |
| `Sorting.SortLaws` | crates/nova-server/src/engine.rs:276-296 | For a total preorder the stable sort returns an ordered permutation |
| `Queries.PanicsExactly` | crates/nova-query/src/planner.rs:140-161 | Executing a plan panics iff it is a BETWEEN with reversed bounds on an ordered, non-empty index |
| `Queries.CandidateIds` | crates/nova-server/src/engine.rs:239-264 | The candidate list holds each id as often as the plan lists it |
| `Queries.FilterCandidates` | crates/nova-server/src/engine.rs:266-274 | Keeps the stored, accepted candidates in order; the first evaluation error is the statement's |
| `Queries.CandidatesOnce` | crates/nova-server/src/engine.rs:239-264 | On exact indexes no plan lists a candidate twice |
| `Queries.FindAgreesWithScan` | crates/nova-server/src/engine.rs:211-274 | FIND through the chosen plan returns the stored matching documents, each exactly once, and so as many as COUNT counts |
| `Queries.SortedFind` | crates/nova-server/src/engine.rs:276-296 | A sorted FIND of documents on which the comparator is a total preorder is an ordered permutation of the matches |
| `Queries.ExactComparable` | crates/nova-server/src/engine.rs:276-296 | On documents with exact values the comparator is a total preorder, in both directions of sorting |
| `Queries.PagesConcatenate` | crates/nova-server/src/engine.rs:298-307 | Successive OFFSET/LIMIT pages of one order make up the whole result |
| `Statements.ParsedBoundsFit` | crates/nova-query/src/parser.rs:364-374 | The offset and limit of a parsed FIND add up to less than 2^64, so `off + l` cannot overflow |
| `Queries.Find` | crates/nova-server/src/engine.rs:211-313 | A panic if the plan panics; otherwise, for some ordering of the plan's candidates, the filter's first error or the page of the filtered documents: stably sorted if the comparator is a total preorder on them, and if it is not in any order, or a panic |
| `Queries.Count` | crates/nova-server/src/engine.rs:429-452 | Succeeds iff no document makes the filter fail, with the number of matches |
| `Queries.Exists` | crates/nova-server/src/engine.rs:454-478 | Without errors says whether there is a match; it may answer true before it meets an error |
| `EngineState.FaithfulExists` | crates/nova-storage/src/format.rs:299-306 | For any documents there is a faithful codec that writes all of them, so the assumption on JSON text can be met |
| `Json.LawfulExists` | crates/nova-core/src/value.rs:348-409 | There are UUID text forms as the model asks for, so the assumption on them can be met |
| `EngineState.PutKeepsAgreement` | crates/nova-server/src/engine.rs:173-184 | Logging and storing a document keep: replaying the log gives memory, normalised by JSON |
| `EngineState.DeleteKeepsAgreement` | crates/nova-server/src/engine.rs:392-411 | So do logging and carrying out a removal |
| `EngineState.ReplayedNormal` | crates/nova-storage/src/recovery.rs:162-183 | Every replayed document is JSON-normal and filed under its own id |
| `EngineState.UnloggedChange` | crates/nova-server/src/engine.rs:333-341 | A document changed without a record: memory and log still agree iff JSON cannot tell the change |
| `EngineState.StoredNamesFit` | crates/nova-storage/src/wal.rs:91-169 | While memory and log agree, every stored document lies in a collection whose names can be encoded |
| `EngineState.EventPut` | crates/nova-server/src/engine.rs:194-203 | Emitting the event of a put keeps: applying all events to the start state gives memory, one event per record in order |
| `EngineState.EventDelete` | crates/nova-server/src/engine.rs:411-420 | So does the event of a removal |
| `EngineState.AgreedPut` | crates/nova-server/src/engine.rs:173-203 | One put keeps all three views (memory, log replay, events) in agreement, with strictly ascending sequence numbers |
| `EngineState.AgreedDelete` | crates/nova-server/src/engine.rs:392-421 | One removal keeps all three views in agreement |
| `EngineState.RestartRestoresMemory` | crates/nova-server/src/engine.rs:39-60 | Restarting on an intact log gives back memory, normalised by JSON, and leaves the files alone |
| `EngineIndexes.NoIndexesExact` | crates/nova-server/src/engine.rs:49-55 | The managers without indexes that a freshly opened engine has are exact, if the documents are |
| `EngineIndexes.InsertKeepsIndexed` | crates/nova-server/src/engine.rs:187-191 | An insert keeps every index of every collection exact |
| `EngineIndexes.UpdateKeepsIndexed` | crates/nova-server/src/engine.rs:343 | An update keeps every index exact |
| `EngineIndexes.RemoveKeepsIndexed` | crates/nova-server/src/engine.rs:402 | A removal keeps every index exact |
| `EngineIndexes.CreateKeepsIndexed` | crates/nova-server/src/engine.rs:488-507 | Creating or replacing an index keeps all of them exact |
| `EngineIndexes.DropKeepsIndexed` | crates/nova-server/src/engine.rs:524-540 | Dropping an index keeps the others exact |
| `EngineIndexes.BuildIndex` | crates/nova-server/src/engine.rs:500-507 | The loop that fills a new index from the store builds the exact index |
| `EngineIndexes.IndexNameInjective` | crates/nova-server/src/engine.rs:488 | Two fields of a collection never share an index name |
| `EngineLog.RecoverySucceeds` | crates/nova-server/src/engine.rs:35-44 | On an empty directory, or a log cut by a crash at any byte, recovery gives files that hold the surviving records and the documents they stand for |
| `EngineLog.TapeAppended` | crates/nova-storage/src/wal.rs:115-159 | One acknowledged append keeps the engine's history of its log true, whether it grows the log or ruins it |
| `EngineLog.CleanStop` | crates/nova-server/src/engine.rs:35-44 | Stopping cleanly is the crash that cuts nothing: everything survives |
| `Engine.DatabaseEngine.Open` | crates/nova-server/src/engine.rs:35-73 | On an empty directory, or after a crash at any byte, the engine opens with its views in step, its memory the replay of exactly the surviving records, no indexes, and these exact if the documents are; on a ruined log it fails and changes nothing |
| `Engine.DatabaseEngine.RestartGivesMemory` | crates/nova-server/src/engine.rs:35-73 | An engine in step can be killed and reopened: its log is recoverable and stands for its memory, normalised by JSON, unless a record was written behind stray bytes, and then it is ruined |
| `Engine.DatabaseEngine.StartsInterleaving` | crates/nova-server/src/engine.rs:35-73 | An engine in step with exact indexes, a freshly opened one for instance, is a start of the concurrent runs |
| `Engine.DatabaseEngine.LogPut` | crates/nova-server/src/engine.rs:173-177 | Succeeds iff JSON can write the document and names and payload are within the limits; then the record is in the log, and ruins it iff it went behind stray bytes |
| `Engine.DatabaseEngine.ExecuteInsert` | crates/nova-server/src/engine.rs:157-209 | Succeeds iff the id is free and the document can be written and fits; a failure changes nothing; success puts the document into memory, log, indexes and events, all views in step |
| `Engine.DatabaseEngine.LogRecord` | crates/nova-storage/src/wal.rs:91-169 | The engine's append: an encodable record joins the log with the next number, any other one leaves it alone |
| `Engine.DatabaseEngine.LogUpdate` | crates/nova-server/src/engine.rs:336-346 | Logging a changed document and telling the indexes brings the views back in step |
| `Engine.DatabaseEngine.UpdateAll` | crates/nova-server/src/engine.rs:331-348 | The update loop, in any order of documents: one record and one pending event per accepted document; on error other documents are updated or untouched, and memory and log agree iff the failed document reads the same as JSON |
| `Engine.DatabaseEngine.RemoveOne` | crates/nova-server/src/engine.rs:392-406 | One removal always succeeds and takes the document out of memory, indexes and log replay |
| `Engine.DatabaseEngine.Targets` | crates/nova-server/src/engine.rs:386-390 | The targets are the matching documents, a filter that fails on a document not selecting it, unless the filter panics on some document: then so does the statement |
| `Engine.DatabaseEngine.RemoveAll` | crates/nova-server/src/engine.rs:392-406 | The removal loop always succeeds: exactly the targets disappear, one record and one pending event each |
| `Engine.DatabaseEngine.Unlogged` | crates/nova-server/src/engine.rs:333-341 | A document changed in memory only leaves memory and log in agreement iff JSON cannot tell the change |
| `Engine.DatabaseEngine.UpdateOne` | crates/nova-server/src/engine.rs:331-348 | One document of an update: changed, logged, indexed and pending as an event; on error left changed and unlogged, and memory and log agree iff JSON cannot tell it from what it was |
| `Engine.DatabaseEngine.ExecuteUpdate` | crates/nova-server/src/engine.rs:316-369 | On success exactly the accepted documents are updated, one record and event each, all views in step and indexes exact; on error no events are emitted, other documents are updated or untouched, and memory and log agree iff the document it failed on reads the same as JSON |
| `Engine.DatabaseEngine.ExecuteRemove` | crates/nova-server/src/engine.rs:371-427 | Fails, by a panic and without a change, iff the filter panics on a stored document; otherwise exactly the matching documents are gone from memory, log replay and indexes, one record and event each |
| `Engine.DatabaseEngine.ExecuteFind` | crates/nova-server/src/engine.rs:211-314 | In every state with exact indexes, an error-free filter that may be planned finds exactly the matching documents, sorted and paged as asked |
| `Engine.DatabaseEngine.ExecuteCount` | crates/nova-server/src/engine.rs:429-452 | The number of matches, or an error iff the filter fails on some document |
| `Engine.DatabaseEngine.ExecuteExists` | crates/nova-server/src/engine.rs:454-478 | Whether there are matches |
| `Engine.DatabaseEngine.ExecuteCreateIndex` | crates/nova-server/src/engine.rs:480-522 | The collection gets the exact index of its documents under the name of the field |
| `Engine.DatabaseEngine.ExecuteDropIndex` | crates/nova-server/src/engine.rs:524-548 | Removes the index of the field, or reports that there is none |
| `IndexRaces.StoreStep` | crates/nova-server/src/engine.rs:179-184 | Storing a new document keeps the race invariant of an index that has not heard of it; a stale entry under its key becomes the right one |
| `IndexRaces.RemoveStep` | crates/nova-index/src/manager.rs:71-80 | A removal keeps it, and keeps what is stale, even of a document whose insert has not told the indexes yet |
| `IndexRaces.BuildStep` | crates/nova-server/src/engine.rs:500-507 | An index built from the store meets it at once, with nothing stale |
| `IndexRaces.UpdateStep` | crates/nova-index/src/manager.rs:52-69 | An update keeps it, also of a document whose insert has not told the indexes yet; it makes nothing stale, and an entry under the new key is stale no longer |
| `IndexRaces.IndexStep` | crates/nova-server/src/engine.rs:187-191 | The late index step keeps it too; its entry is stale at once iff the key of the first version is no longer the document's |
| `IndexRaces.QuietIsExact` | crates/nova-index/src/manager.rs:41-80 | With no insert in between, an index is the exact one iff it has no stale entry |
| `IndexRaces.StaleEntry` | crates/nova-server/src/engine.rs:179-191 | An update between the store step and the index step that changes the field's value leaves the document listed under the first value as well |
| `IndexRaces.OvertakenByUpdate` | crates/nova-server/src/engine.rs:179-191 | After such an update the index is exact iff the first version had no such field, or an equal value in it |
| `IndexRaces.OvertakenByRemoval` | crates/nova-server/src/engine.rs:179-191 | After a removal in that place the index is exact iff the document had no such field |
| `IndexRaces.HealedLater` | crates/nova-index/src/manager.rs:52-69 | A later update back to the first version makes the index of an overtaken insert exact again |
| `Interleaving.LogStep` | crates/nova-server/src/engine.rs:157-427 | Every step of every statement keeps: log replay is memory plus the inserts logged and not yet stored |
| `Interleaving.RunsKeepLog` | crates/nova-server/src/engine.rs:157-427 | So that holds in every interleaving, for distinct ids in flight and no failed step |
| `Interleaving.RunsKeepIndexes` | crates/nova-server/src/engine.rs:157-522 | In every interleaving each stored document whose index step is done is listed in each index under its current value, and what is listed under another value are exactly the stale entries |
| `Interleaving.QuietIndexesExact` | crates/nova-server/src/engine.rs:157-522 | Where no insert waits for its index step, the indexes are exact iff none has a stale entry |
| `Interleaving.BecomesStale` | crates/nova-server/src/engine.rs:179-191 | An entry becomes stale by the index step of an overtaken insert only, whose first version had the field while what is stored now has no equal value in it |
| `Interleaving.TwoInsertsOfOneId` | crates/nova-server/src/engine.rs:161-184 | Two inserts of one id in flight, stored in the other order than logged: memory and log agree iff the two documents are the same up to JSON |
| `Lexers.Lexer.SkipLine` | crates/nova-query/src/lexer.rs:165-175 | A comment ends behind the next line feed or with the text |
| `Lexers.Lexer.ReadDigits` | crates/nova-query/src/lexer.rs:232-250 | Digits and at most one dot that a digit follows |
| `Lexers.Lexer.ReadString` | crates/nova-query/src/lexer.rs:177-218 | The string loop returns the unescaped content up to the closing quote, or reports that there is none |
| `Lexers.Lexer.ReadNumber` | crates/nova-query/src/lexer.rs:220-277 | The number loop takes the longest number with one dot, and refuses integers beyond 64 bits |
| `Lexers.Lexer.ReadWord` | crates/nova-query/src/lexer.rs:279-330 | The word loop takes the longest identifier, which is a keyword if it is one in upper case |
| `Lexers.Lexer.ReadSymbol` | crates/nova-query/src/lexer.rs:332-531 | The longer of two fitting symbols is taken; a single `&` or `|` is refused |
| `Lexers.Lexer.NextToken` | crates/nova-query/src/lexer.rs:156-535 | One round of the main loop: white space, comment, string, number, word or symbol, tried in this order |
| `Lexers.Lexer.Tokenize` | crates/nova-query/src/lexer.rs:153-540 | The main loop returns the tokens of the text-by-text definition, and always ends them with `Eof` |
| `TextPrinting.TokenUndone` | crates/nova-query/src/lexer.rs:153-540 | Every printable token, written out and followed by nothing or a space, is read back |
| `TextPrinting.TextUndone` | crates/nova-query/src/lexer.rs:153-540 | The lexer undoes the printer: any list of integers, strings, keywords, symbols and non-keyword identifiers, written with single spaces, comes back followed by `Eof` |
| `TextPrinting.KeywordFound` | crates/nova-query/src/lexer.rs:290-327 | Each keyword's text is recognised as that keyword |
| `TextPrinting.StatementTextUndone` | crates/nova-query/src/parser.rs:86-374 | From a statement to text and back through lexer and parser gives the statement |
| `Grammar.Parse` | crates/nova-query/src/parser.rs:387-610 | Every successful expression parse uses at least one token, at every level (the functions terminate on all token lists) |
| `Grammar.ParseValue` | crates/nova-query/src/parser.rs:613-704 | So does every successful value literal |
| `Printing.ValueUndone` | crates/nova-query/src/parser.rs:613-704 | The parser undoes the printer of values: scalars, arrays and objects to any depth |
| `Printing.PathUndone` | crates/nova-query/src/parser.rs:376-384 | The parser undoes the printer of dotted field paths |
| `Printing.ChainUndone` | crates/nova-query/src/parser.rs:391-415 | A left-associative level reads the whole chain of operators on the left before it looks at what follows |
| `Printing.Undone` | crates/nova-query/src/parser.rs:387-610 | The parser undoes the printer that writes only the parentheses precedence requires, at every level, for every expressible expression, and stops at any token that cannot continue it |
| `Printing.ParsedExpressible` | crates/nova-query/src/parser.rs:387-704 | Everything the parser returns can be printed, so parsing after printing is the identity on all parser results |
| `StatementPrinting.StatementUndone` | crates/nova-query/src/parser.rs:86-374 | The parser undoes the printer of every kind of statement, and leaves whatever cannot continue it |
| `StatementPrinting.InsertedDocument` | crates/nova-query/src/parser.rs:166-212 | The document of an INSERT is rebuilt from the object that names it, wherever `id` stands in the order |
| `Parsers.Parser.Advance` | crates/nova-query/src/parser.rs:29-37 | Moves one token on, but never past the last one |
| `Parsers.Parser.ParseFieldPath` | crates/nova-query/src/parser.rs:376-384 | The path loop follows the grammar |
| `Parsers.Parser.ParseValueLiteral` | crates/nova-query/src/parser.rs:613-704 | The literal parser and its loops follow the grammar and terminate |
| `Parsers.Parser.ParseOr` | crates/nova-query/src/parser.rs:391-402 | The OR loop follows the grammar |
| `Parsers.Parser.ParseAnd` | crates/nova-query/src/parser.rs:404-415 | The AND loop follows the grammar |
| `Parsers.Parser.ParseComparison` | crates/nova-query/src/parser.rs:417-497 | Comparisons do not chain; BETWEEN takes its own AND; IN takes a list |
| `Parsers.Parser.ParseAdditive` | crates/nova-query/src/parser.rs:499-516 | The additive loop follows the grammar |
| `Parsers.Parser.ParseMultiplicative` | crates/nova-query/src/parser.rs:518-540 | The multiplicative loop follows the grammar |
| `Parsers.Parser.ParseUnary` | crates/nova-query/src/parser.rs:542-558 | Prefix operators nest to the right |
| `Parsers.Parser.ParsePrimaryExpr` | crates/nova-query/src/parser.rs:560-610 | Literals, paths and parentheses follow the grammar |
| `Parsers.Parser.ParseExprList` | crates/nova-query/src/parser.rs:478-490 | The items of an IN list, up to the closing parenthesis |
| `Parsers.Parser.ParseFindStatement` | crates/nova-query/src/parser.rs:121-163 | FIND with its clauses in their fixed order |
| `Parsers.Parser.ParseInsertStatement` | crates/nova-query/src/parser.rs:166-212 | INSERT with or without INTO and parentheses, of an object only |
| `Parsers.Parser.FillDocument` | crates/nova-query/src/parser.rs:181-193 | A valid string under `id` or `_id` names the document, the later one winning; all other entries become fields |
| `Parsers.Parser.ParseUpdateStatement` | crates/nova-query/src/parser.rs:215-251 | UPDATE with its assignments and optional filter |
| `Parsers.Parser.ParseCreateIndex` | crates/nova-query/src/parser.rs:310-345 | CREATE INDEX, ordered unless TYPE says otherwise |
| `Parsers.Parser.ParseUsize` | crates/nova-query/src/parser.rs:364-374 | LIMIT and OFFSET take a non-negative integer |
| `Parsers.Parser.ParseOneStatement` | crates/nova-query/src/parser.rs:86-374 | The statement parsers follow the grammar, terminate and never index outside the tokens, on every token list that ends in `Eof` |
| `NvpFrame.Encode` | crates/nova-protocol/src/frame.rs:76-111 | Exactly the payloads within the limit are framed |
| `NvpFrame.RoundTrip` | crates/nova-protocol/src/frame.rs:76-191 | Decoding an encoded frame, whatever follows, returns it and its length |
| `NvpFrame.StrictPrefix` | crates/nova-protocol/src/frame.rs:115-191 | A strict prefix of a frame is waited for, never refused |
| `NvpFrame.VerdictStable` | crates/nova-protocol/src/frame.rs:115-191 | More bytes never change a verdict that is already there |
| `NvpFrame.CorruptionDetected` | crates/nova-protocol/src/frame.rs:115-191 | A change inside four consecutive bytes of flags, request id or payload is a checksum mismatch |
| `NvpCodec.Decode` | crates/nova-protocol/src/codec.rs:20-29 | Takes one whole frame off the front of the buffer, or leaves the buffer alone |
| `NvpCodec.EncodeTo` | crates/nova-protocol/src/codec.rs:35-41 | Appends the frame, or refuses it and leaves the buffer alone |
| `NvpCodec.DrainBuffer` | crates/nova-protocol/src/codec.rs:20-29 | Decoding until nothing is left to decode delivers what the byte-level definition says |
| `NvpCodec.ChunkingIndependent` | crates/nova-protocol/src/codec.rs:20-29 | Whatever the bytes, what is delivered does not depend on how they are cut into chunks |
| `NvpCodec.FramesArrive` | crates/nova-protocol/src/codec.rs:20-41 | Any list of frames, in any chunks, arrives as that list and leaves an empty buffer |
| `Snapshots.SplitsBack` | crates/nova-storage/src/snapshot.rs:182-187 | A flat name splits into its two names iff neither contains `::` and the namespace does not end in a colon |
| `Snapshots.FlattenStore` | crates/nova-storage/src/snapshot.rs:48-54 | A store is written with all its documents, and their number counted |
| `Snapshots.RestoreStore` | crates/nova-storage/src/snapshot.rs:188-193 | Documents under valid ids are restored under the trimmed id |
| `Snapshots.FaithfulTextExists` | crates/nova-storage/src/snapshot.rs:56-61 | For any collections there is a faithful snapshot text that writes all of them, so the assumption on it can be met |
| `Snapshots.Create` | crates/nova-storage/src/snapshot.rs:44-76 | Succeeds iff the payload can be written; then every collection is in it under its flat name, with the number of documents and the checksum of the data |
| `Snapshots.Restore` | crates/nova-storage/src/snapshot.rs:142-198 | Changed data is refused; otherwise exactly the flat names of two parts are restored, with the documents under valid ids |
| `Snapshots.SnapshotRoundTrip` | crates/nova-storage/src/snapshot.rs:44-198 | Restoring returns every collection, empty ones too, with its documents JSON-normalised, iff all their names can be split back; a collection whose names cannot is never restored |
| `Snapshots.NamedReturns` | crates/nova-storage/src/snapshot.rs:44-198 | Of one name, when others cannot be named: it returns iff it splits back and a collection has its flat name, with the documents of one of those; a collection returns right if JSON cannot tell its documents from those of any other with its flat name |
| `Snapshots.AnyMayReturn` | crates/nova-storage/src/snapshot.rs:44-54 | Each collection with the flat name of a nameable one may be what returns under that name, for some order of the hash map |
| `Snapshots.SharedFlatName` | crates/nova-storage/src/snapshot.rs:45 | An input: `("a:", "b")` and `("a", ":b")` share a flat name, and only the second can be named |
| `Snapshots.NameableApart` | crates/nova-storage/src/snapshot.rs:182-187 | Two collections that can be named never share a flat name |
| `Snapshots.BackUpAndRestore` | crates/nova-storage/src/snapshot.rs:36-198 | Creating a snapshot and restoring it fails only if the payload cannot be written, and gives the same collections up to JSON iff all of them can be named; in any case exactly the names that split back return, each with the documents of a collection of its flat name |
| `Snapshots.SecondTrip` | crates/nova-storage/src/snapshot.rs:44-198 | A second snapshot and restore of whatever came back from the first changes nothing more |
| `Snapshots.BackUpTwice` | crates/nova-storage/src/snapshot.rs:36-198 | Two snapshots and restorations in a row, of any collections: the second gives exactly what the first gave |
| `Snapshots.SnapshotDamageNoticed` | crates/nova-storage/src/snapshot.rs:170-177 | A change inside four consecutive bytes of the data file is noticed |

## Left out

- Error texts, source positions, `Display`, plan descriptions, metrics and status JSON: an error is its code.
- File system calls, fsync, the buffered writer and the fault hooks: a directory is the list of its segment files, numbered from 0 without gaps, writes succeed, and a crash keeps a prefix of the last file.
- serde_json text and UUID text: represented by parameters that may fail to write, with the laws `Faithful`, `FaithfulText` and `Lawful` for what they do write; document ids that bypass `DocumentId::new` through deserialisation are not covered.
- Rounding of `f64` arithmetic and of decimal literals: finite floats are reals; only the conversion of integers to floats rounds as the hardware does.
- Order of index scans and of hash-map walks: the lists are described as bags, and loops take their elements in any order.
- Two index types in one class: `SecondaryIndex` identifies keys by canonical form, which is what both maps do on exact values; outside them neither is modelled.
- The engine keeps its index managers as map values; sharing of index objects is modelled in `IndexManagers` only.
- Wrap-around of the 64-bit sequence counter in the engine: its methods ask for room; `Wal` and `LogRuns` model the counter itself.
- LogRuns.RunsKeepInv: once recovery has failed no engine runs any more; repair of the files by hand is not modelled.
- Queries.Find: outside the documents its comparator orders totally, the sorted order is left open, as the contract of `sort_by` leaves it.
- Interleaving.RunsKeepLog: an update statement is its document updates in any order, each one step, and failed steps are excluded.
- TextPrinting.TextUndone: decimal fractions are not printed, as their text goes through floating point.
- Statement printing of INSERT writes the id under `id` and starts from a new document given as a parameter.
- BEGIN, COMMIT and ROLLBACK execution and `nova compact`: accepted by the code without effect.
- WATCH delivery, sockets, HTTP, the command line, the client library and configuration.
