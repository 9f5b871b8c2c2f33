/**
 Snapshots (crates/nova-storage/src/snapshot.rs): all collections under flat names `namespace::collection`,
 written as JSON with a checksum, and rebuilt from it. The two files are values here.
 */
module Snapshots {
  import opened Core
  import opened Bytes
  import opened Documents
  import opened DocumentIds
  import opened Json
  import opened Grouping
  import Crc32

  type FlatStore = map<string, Document>
  type Flat = map<string, FlatStore>

  /** `serde_json` on the payload of a snapshot; writing may fail. */
  datatype SnapshotText = SnapshotText(write: Flat -> Option<seq<byte>>, read: seq<byte> -> Option<Flat>)

  function NormStore(u: UuidText, store: FlatStore): FlatStore {
    map id | id in store :: NormDocument(u, store[id])
  }

  function NormFlat(u: UuidText, flat: Flat): Flat {
    map s | s in flat :: NormStore(u, flat[s])
  }

  /** What could be written reads back as the same collections with every document normalised. */
  ghost predicate FaithfulText(u: UuidText, text: SnapshotText) {
    Lawful(u) && forall flat :: text.write(flat).Some? ==> text.read(text.write(flat).value) == Some(NormFlat(u, flat))
  }

  /** A text for the collections of a list, which writes the place in the list. */
  function ListText(u: UuidText, flats: seq<Flat>): SnapshotText {
    SnapshotText(flat => if flat in flats then Some(seq(IndexOf(flats, flat), _ => 0)) else None,
                 b => if |b| < |flats| then Some(NormFlat(u, flats[|b|])) else None)
  }

  /** For any collections there is a faithful text that can write all of them. */
  lemma {:induction false} FaithfulTextExists(u: UuidText, flats: seq<Flat>)
    requires Lawful(u)
    ensures FaithfulText(u, ListText(u, flats)) && forall flat :: flat in flats ==> ListText(u, flats).write(flat).Some?
  {
    hide IsDocumentId;
    hide NormFlat;
    var text := ListText(u, flats);
    forall flat | text.write(flat).Some? ensures text.read(text.write(flat).value) == Some(NormFlat(u, flat)) {
      assert |text.write(flat).value| == IndexOf(flats, flat);
    }
  }

  // ---- names ----

  function FlatKey(key: CollectionKey): string {
    key.0 + "::" + key.1
  }

  predicate ColonPair(s: string) {
    |s| >= 2 && s[0] == ':' && s[1] == ':'
  }

  /** `split("::")`. */
  function SplitPairs(s: string): (parts: seq<string>)
    ensures parts != []
  {
    if s == "" then [""]
    else if ColonPair(s) then [""] + SplitPairs(s[2..])
    else
      var rest := SplitPairs(s[1..]);
      [[s[0]] + rest[0]] + rest[1..]
  }

  predicate NoPair(s: string) {
    forall i :: 0 <= i < |s| - 1 ==> !(s[i] == ':' && s[i + 1] == ':')
  }

  predicate EndsInColon(s: string) {
    s != "" && s[|s| - 1] == ':'
  }

  /** The names that survive flattening. */
  predicate Nameable(key: CollectionKey) {
    NoPair(key.0) && !EndsInColon(key.0) && NoPair(key.1)
  }

  lemma {:induction false} SplitOff(ns: string, rest: string)
    requires NoPair(ns) && !EndsInColon(ns)
    ensures SplitPairs(ns + "::" + rest) == [ns] + SplitPairs(rest)
  {
    var s := ns + "::" + rest;
    if ns == "" {
      assert s[2..] == rest;
    } else {
      assert s[1..] == ns[1..] + "::" + rest;
      assert !ColonPair(s) by {
        if |ns| > 1 { assert s[1] == ns[1] && !(ns[0] == ':' && ns[0 + 1] == ':'); }
      }
      forall i | 0 <= i < |ns[1..]| - 1 ensures !(ns[1..][i] == ':' && ns[1..][i + 1] == ':') {
        assert !(ns[i + 1] == ':' && ns[i + 1 + 1] == ':');
      }
      SplitOff(ns[1..], rest);
      assert [ns[0]] + ns[1..] == ns;
    }
  }

  /** A part starts with the character the text starts with. */
  lemma FirstPart(s: string)
    ensures SplitPairs(s)[0] != "" ==> s != "" && SplitPairs(s)[0][0] == s[0]
  {
  }

  lemma {:induction false} PartsHaveNoPair(s: string)
    ensures forall i :: 0 <= i < |SplitPairs(s)| ==> NoPair(SplitPairs(s)[i])
  {
    if s != "" {
      if ColonPair(s) {
        PartsHaveNoPair(s[2..]);
      } else {
        var rest := SplitPairs(s[1..]);
        PartsHaveNoPair(s[1..]);
        FirstPart(s[1..]);
        var first := [s[0]] + rest[0];
        forall i | 0 <= i < |first| - 1 ensures !(first[i] == ':' && first[i + 1] == ':') {
          if i > 0 { assert !(rest[0][i - 1] == ':' && rest[0][i - 1 + 1] == ':'); }
        }
      }
    }
  }

  lemma {:induction false} NoPairOnePart(s: string)
    requires NoPair(s)
    ensures SplitPairs(s) == [s]
  {
    if s != "" {
      assert !ColonPair(s) by { if |s| >= 2 { assert !(s[0] == ':' && s[0 + 1] == ':'); } }
      forall i | 0 <= i < |s[1..]| - 1 ensures !(s[1..][i] == ':' && s[1..][i + 1] == ':') {
        assert !(s[i + 1] == ':' && s[i + 1 + 1] == ':');
      }
      NoPairOnePart(s[1..]);
      assert [s[0]] + s[1..] == s;
    }
  }

  lemma NoPairFront(s: string)
    requires NoPair(s) && EndsInColon(s)
    ensures NoPair(s[..|s| - 1]) && !EndsInColon(s[..|s| - 1])
  {
    var front := s[..|s| - 1];
    forall i | 0 <= i < |front| - 1 ensures !(front[i] == ':' && front[i + 1] == ':') {
      assert !(s[i] == ':' && s[i + 1] == ':');
    }
    if front != "" { assert front[|front| - 1] == s[|front| - 1]; }
  }

  /** A colon at the end of the namespace goes over to the collection. */
  lemma ColonMoves(ns: string, coll: string)
    requires NoPair(ns) && EndsInColon(ns)
    ensures SplitPairs(FlatKey((ns, coll)))[0] == ns[..|ns| - 1]
  {
    var front := ns[..|ns| - 1];
    NoPairFront(ns);
    SplitOff(front, ":" + coll);
    hide SplitPairs;
    hide NoPair;
    assert FlatKey((ns, coll)) == front + "::" + (":" + coll);
  }

  /** A flat name splits back into the two names exactly if neither contains `::` and the namespace does not end in a colon. */
  lemma SplitsBack(key: CollectionKey)
    ensures SplitPairs(FlatKey(key)) == [key.0, key.1] <==> Nameable(key)
  {
    hide SplitPairs;
    PartsHaveNoPair(FlatKey(key));
    hide NoPair;
    if Nameable(key) {
      SplitOff(key.0, key.1);
      NoPairOnePart(key.1);
    } else if NoPair(key.0) && EndsInColon(key.0) {
      ColonMoves(key.0, key.1);
      assert |SplitPairs(FlatKey(key))[0]| != |key.0|;
    } else {
      assert forall i :: 0 <= i < |SplitPairs(FlatKey(key))| ==> NoPair(SplitPairs(FlatKey(key))[i]);
      assert [key.0, key.1][0] == key.0 && [key.0, key.1][1] == key.1;
    }
  }

  // ---- what the two loops do ----

  /** A store under plain strings for ids. */
  ghost predicate SameStore(flat: FlatStore, store: Store) {
    && (forall id: string :: id in flat ==> IsDocumentId(id) && id in store && flat[id] == store[id])
    && (forall id :: id in store ==> id in flat)
  }

  /** Every collection is in the snapshot under its flat name, and nothing else; of two with one flat name the last wins. */
  ghost predicate Flattens(collections: Collections, flat: Flat) {
    && (forall key :: key in collections ==> FlatKey(key) in flat)
    && (forall s :: s in flat ==> exists key :: key in collections && FlatKey(key) == s && SameStore(flat[s], collections[key]))
  }

  /** Entries whose id is valid are kept under it. */
  ghost predicate StoreRestored(flat: FlatStore, store: Store) {
    && (forall id: string :: id in flat && NewDocumentId(id).Ok? ==> NewDocumentId(id).value in store)
    && (forall id :: id in store ==> exists text :: text in flat && NewDocumentId(text) == Ok(id) && store[id] == flat[text])
  }

  /** Exactly the flat names of two parts are restored. */
  ghost predicate Unflattens(flat: Flat, collections: Collections) {
    && (forall key :: key in collections <==> FlatKey(key) in flat && SplitPairs(FlatKey(key)) == [key.0, key.1])
    && (forall key :: key in collections ==> StoreRestored(flat[FlatKey(key)], collections[key]))
  }

  // ---- the round trip ----

  ghost predicate SameNormalisedStore(u: UuidText, store: Store, restored: Store) {
    restored.Keys == store.Keys && forall id :: id in store ==> restored[id] == NormDocument(u, store[id])
  }

  lemma StoreRoundTrip(u: UuidText, store: Store, flat: FlatStore, restored: Store)
    requires SameStore(flat, store) && StoreRestored(NormStore(u, flat), restored)
    ensures SameNormalisedStore(u, store, restored)
  {
    hide IsDocumentId;
    hide NormDocument;
    var back := NormStore(u, flat);
    forall id: DocumentId | id in store
      ensures id in restored
    {
      assert id in back && NewDocumentId(id) == Ok(id);
    }
    forall id: DocumentId | id in restored
      ensures id in store && restored[id] == NormDocument(u, store[id])
    {
      var text :| text in back && NewDocumentId(text) == Ok(id) && restored[id] == back[text];
      assert IsDocumentId(text);
    }
  }

  /** The same collections, every document normalised by JSON. */
  ghost predicate SameCollections(u: UuidText, collections: Collections, restored: Collections) {
    && restored.Keys == collections.Keys
    && forall key :: key in collections ==> SameNormalisedStore(u, collections[key], restored[key])
  }

  predicate AllNameable(collections: Collections) {
    forall key :: key in collections ==> Nameable(key)
  }

  /**
   Restoring a snapshot returns every collection, the empty ones too, with its documents normalised by
   JSON, exactly when every collection can be named: a collection that cannot is never restored.
   */
  lemma SnapshotRoundTrip(u: UuidText, collections: Collections, flat: Flat, restored: Collections)
    requires Flattens(collections, flat) && Unflattens(NormFlat(u, flat), restored)
    ensures SameCollections(u, collections, restored) <==> AllNameable(collections)
    ensures forall key :: key in collections && !Nameable(key) ==> key !in restored
  {
    hide IsDocumentId;
    hide Nameable;
    hide SameStore;
    hide StoreRestored;
    hide SameNormalisedStore;
    hide NormStore;
    hide FlatKey;
    forall key: CollectionKey ensures SplitPairs(FlatKey(key)) == [key.0, key.1] <==> Nameable(key) {
      SplitsBack(key);
    }
    hide SplitPairs;
    if AllNameable(collections) {
      forall key: CollectionKey
        ensures key in restored <==> key in collections
        ensures key in restored && key in collections ==> SameNormalisedStore(u, collections[key], restored[key])
      {
        if FlatKey(key) in flat && Nameable(key) {
          var k :| k in collections && FlatKey(k) == FlatKey(key) && SameStore(flat[FlatKey(key)], collections[k]);
          assert SplitPairs(FlatKey(k)) == [k.0, k.1] && SplitPairs(FlatKey(key)) == [key.0, key.1];
          assert [k.0, k.1][0] == [key.0, key.1][0] && [k.0, k.1][1] == [key.0, key.1][1];
          assert k == key;
          assert NormFlat(u, flat)[FlatKey(key)] == NormStore(u, flat[FlatKey(key)]);
          StoreRoundTrip(u, collections[key], flat[FlatKey(key)], restored[key]);
        }
      }
    } else {
      var key :| key in collections && !Nameable(key);
      assert key !in restored;
    }
  }

  // ---- which collections return when some cannot be named ----

  /** No two collections that can be named share a flat name. */
  lemma NameableApart(a: CollectionKey, b: CollectionKey)
    requires Nameable(a) && Nameable(b) && FlatKey(a) == FlatKey(b)
    ensures a == b
  {
    SplitsBack(a);
    SplitsBack(b);
    assert [a.0, a.1][0] == [b.0, b.1][0] && [a.0, a.1][1] == [b.0, b.1][1];
  }

  /** An input: two collections with one flat name, of which only the second can be named. */
  lemma SharedFlatName()
    ensures FlatKey(("a:", "b")) == FlatKey(("a", ":b")) && !Nameable(("a:", "b")) && Nameable(("a", ":b"))
  {
  }

  predicate Sharing(collections: Collections, key: CollectionKey, other: CollectionKey) {
    other in collections && FlatKey(other) == FlatKey(key)
  }

  /** The store is that of a collection with this flat name, normalised. */
  ghost predicate ComesFrom(u: UuidText, collections: Collections, key: CollectionKey, store: Store) {
    exists other :: Sharing(collections, key, other) && SameNormalisedStore(u, collections[other], store)
  }

  /** JSON cannot tell the two stores apart. */
  ghost predicate NormalisedAlike(u: UuidText, a: Store, b: Store) {
    a.Keys == b.Keys && forall id :: id in a ==> NormDocument(u, a[id]) == NormDocument(u, b[id])
  }

  /** Exactly the names that split back return, each with the documents of a collection that has its flat name. */
  ghost predicate ReturnedByName(u: UuidText, collections: Collections, restored: Collections) {
    && (forall key :: key in restored <==> Nameable(key) && exists other :: Sharing(collections, key, other))
    && (forall key :: key in restored ==> ComesFrom(u, collections, key, restored[key]))
  }

  /**
   What comes back under a name that a snapshot can be read under: the documents of one of the collections
   with that flat name. If JSON cannot tell those apart, or there is only one, it is the right one.
   */
  lemma NamedReturns(u: UuidText, collections: Collections, flat: Flat, restored: Collections, key: CollectionKey)
    requires Flattens(collections, flat) && Unflattens(NormFlat(u, flat), restored)
    ensures key in restored <==> Nameable(key) && exists other :: Sharing(collections, key, other)
    ensures key in restored ==> ComesFrom(u, collections, key, restored[key])
    ensures key in collections && Nameable(key)
            && (forall other :: Sharing(collections, key, other) ==> NormalisedAlike(u, collections[other], collections[key])) ==>
              key in restored && SameNormalisedStore(u, collections[key], restored[key])
  {
    hide IsDocumentId;
    hide Nameable;
    hide SameStore;
    hide StoreRestored;
    hide NormStore;
    hide FlatKey;
    hide NormDocument;
    SplitsBack(key);
    hide SplitPairs;
    if other :| Sharing(collections, key, other) {
      assert FlatKey(other) in flat;
    }
    if FlatKey(key) in flat {
      var other :| other in collections && FlatKey(other) == FlatKey(key) && SameStore(flat[FlatKey(key)], collections[other]);
      assert Sharing(collections, key, other);
    }
    if key in restored {
      var other :| other in collections && FlatKey(other) == FlatKey(key) && SameStore(flat[FlatKey(key)], collections[other]);
      assert Sharing(collections, key, other);
      assert NormFlat(u, flat)[FlatKey(key)] == NormStore(u, flat[FlatKey(key)]);
      StoreRoundTrip(u, collections[other], flat[FlatKey(key)], restored[key]);
    }
    if key in collections { assert Sharing(collections, key, key); }
  }

  lemma AllReturnByName(u: UuidText, collections: Collections, flat: Flat, restored: Collections)
    requires Flattens(collections, flat) && Unflattens(NormFlat(u, flat), restored)
    ensures ReturnedByName(u, collections, restored)
  {
    hide IsDocumentId;
    hide Flattens;
    hide Unflattens;
    hide Nameable;
    hide SameNormalisedStore;
    hide Sharing;
    hide ComesFrom;
    hide NormalisedAlike;
    forall key: CollectionKey
      ensures key in restored <==> Nameable(key) && exists other :: Sharing(collections, key, other)
      ensures key in restored ==> ComesFrom(u, collections, key, restored[key])
    {
      NamedReturns(u, collections, flat, restored, key);
    }
  }

  function FlatStoreOf(store: Store): (flat: FlatStore)
    ensures SameStore(flat, store)
  {
    map id: DocumentId | id in store :: id := store[id]
  }

  /** One of the collections with a flat name, `last` if that is one of them. */
  ghost function Winner(collections: Collections, last: CollectionKey, s: string): (key: CollectionKey)
    requires last in collections && exists key :: key in collections && FlatKey(key) == s
    ensures key in collections && FlatKey(key) == s && (FlatKey(last) == s ==> key == last)
  {
    if FlatKey(last) == s then last else var key :| key in collections && FlatKey(key) == s; key
  }

  /** The snapshot in which of all collections with one flat name `last` is written last. */
  ghost function FlatWith(collections: Collections, last: CollectionKey): Flat
    requires last in collections
  {
    map s | s in (set key | key in collections :: FlatKey(key)) :: FlatStoreOf(collections[Winner(collections, last, s)])
  }

  /** Any collection with its flat name may be what comes back under a name: it depends on the order of a hash map. */
  lemma AnyMayReturn(u: UuidText, collections: Collections, key: CollectionKey, last: CollectionKey)
    requires Nameable(key) && Sharing(collections, key, last)
    ensures exists flat :: Flattens(collections, flat) && forall restored: Collections ::
              Unflattens(NormFlat(u, flat), restored) ==> key in restored && SameNormalisedStore(u, collections[last], restored[key])
  {
    hide IsDocumentId;
    hide SameStore;
    hide StoreRestored;
    hide NormStore;
    hide FlatKey;
    var flat := FlatWith(collections, last);
    assert Flattens(collections, flat);
    SplitsBack(key);
    hide SplitPairs;
    hide Nameable;
    forall restored: Collections | Unflattens(NormFlat(u, flat), restored)
      ensures key in restored && SameNormalisedStore(u, collections[last], restored[key])
    {
      assert SameStore(flat[FlatKey(key)], collections[last]);
      assert NormFlat(u, flat)[FlatKey(key)] == NormStore(u, flat[FlatKey(key)]);
      StoreRoundTrip(u, collections[last], flat[FlatKey(key)], restored[key]);
    }
  }

  lemma SecondStore(u: UuidText, store: Store, once: Store, twice: Store)
    requires Lawful(u) && SameNormalisedStore(u, store, once) && SameNormalisedStore(u, once, twice)
    ensures twice == once
  {
    hide IsDocumentId;
    forall id: DocumentId | id in store
      ensures twice[id] == once[id]
    {
      NormIdempotent(u, store[id]);
    }
  }

  /** A second trip changes nothing more, whatever came back from the first. */
  lemma SecondTrip(u: UuidText, collections: Collections, once: Collections, twice: Collections)
    requires Lawful(u) && ReturnedByName(u, collections, once) && SameCollections(u, once, twice)
    ensures twice == once
  {
    hide IsDocumentId;
    hide Nameable;
    hide SameNormalisedStore;
    forall key: CollectionKey | key in once
      ensures twice[key] == once[key]
    {
      var other :| Sharing(collections, key, other) && SameNormalisedStore(u, collections[other], once[key]);
      SecondStore(u, collections[other], once[key], twice[key]);
    }
  }

  // ---- create and restore ----

  datatype Metadata = Metadata(id: string, documentCount: nat, sizeBytes: nat, checksum: nat)

  function IdSets(collections: Collections): map<CollectionKey, set<DocumentId>> {
    map key | key in collections :: collections[key].Keys
  }

  /** All documents of all collections. */
  ghost function DocumentCount(collections: Collections): nat {
    |Bag(IdSets(collections))|
  }

  method FlattenStore(store: Store) returns (flat: FlatStore, count: nat)
    ensures SameStore(flat, store) && count == |store|
  {
    hide IsDocumentId;
    flat := map[];
    count := 0;
    var todo := store.Keys;
    while todo != {}
      invariant todo <= store.Keys && count + |todo| == |store|
      invariant forall id: string :: id in flat ==> IsDocumentId(id) && id in store && flat[id] == store[id]
      invariant forall id :: id in store && id !in todo ==> id in flat
      decreases todo
    {
      var id :| id in todo;
      flat := flat[id := store[id]];
      count := count + 1;
      todo := todo - {id};
    }
  }

  lemma CountOne(collections: Collections, key: CollectionKey)
    requires key in collections
    ensures DocumentCount(collections) == |collections[key]| + DocumentCount(collections - {key})
  {
    hide IsDocumentId;
    BagRemove(IdSets(collections), key);
    assert IdSets(collections) - {key} == IdSets(collections - {key});
  }

  /** The files of a snapshot with the given payload: none if it cannot be written. */
  ghost predicate IsSnapshotOf(text: SnapshotText, id: string, collections: Collections, flat: Flat, res: Result<(Metadata, seq<byte>)>) {
    match text.write(flat)
    case None => res == Err(StorageError)
    case Some(data) => res == Ok((Metadata(id, DocumentCount(collections), |data|, Crc32.Checksum(data)), data))
  }

  /** `SnapshotManager::create`; a later collection with the same flat name replaces an earlier one. */
  method Create(text: SnapshotText, id: string, collections: Collections) returns (res: Result<(Metadata, seq<byte>)>)
    ensures exists flat :: Flattens(collections, flat) && IsSnapshotOf(text, id, collections, flat, res)
  {
    hide IsDocumentId;
    hide SameStore;
    hide FlatKey;
    var all: Flat := map[];
    var count := 0;
    var todo := collections;
    while todo != map[]
      invariant todo.Keys <= collections.Keys && forall key :: key in todo ==> todo[key] == collections[key]
      invariant count + DocumentCount(todo) == DocumentCount(collections)
      invariant forall key :: key in collections && key !in todo ==> FlatKey(key) in all
      invariant forall s :: s in all ==> exists key :: key in collections && FlatKey(key) == s && SameStore(all[s], collections[key])
      decreases |todo|
    {
      var key :| key in todo;
      CountOne(todo, key);
      hide DocumentCount;
      var store, n := FlattenStore(todo[key]);
      all := all[FlatKey(key) := store];
      count := count + n;
      todo := todo - {key};
    }
    assert todo == map[];
    assert DocumentCount(map[]) == 0 by { assert IdSets(map[]) == map[]; }
    var data := text.write(all);
    res := if data.None? then Err(StorageError) else Ok((Metadata(id, count, |data.value|, Crc32.Checksum(data.value)), data.value));
    assert Flattens(collections, all) && IsSnapshotOf(text, id, collections, all, res);
  }

  method RestoreStore(flat: FlatStore) returns (store: Store)
    ensures StoreRestored(flat, store)
  {
    hide IsDocumentId;
    store := map[];
    var todo := flat.Keys;
    while todo != {}
      invariant todo <= flat.Keys
      invariant forall text: string :: text in flat && text !in todo && NewDocumentId(text).Ok? ==> NewDocumentId(text).value in store
      invariant forall id :: id in store ==> exists text :: text in flat && NewDocumentId(text) == Ok(id) && store[id] == flat[text]
      decreases todo
    {
      var text :| text in todo;
      var id := NewDocumentId(text);
      if id.Ok? { store := store[id.value := flat[text]]; }
      todo := todo - {text};
    }
  }

  lemma JoinParts(s: string, parts: seq<string>)
    requires parts == SplitPairs(s) && |parts| == 2
    ensures FlatKey((parts[0], parts[1])) == s
  {
    JoinTwo(s);
  }

  lemma {:induction false} OnePartIsAll(s: string)
    requires |SplitPairs(s)| == 1
    ensures SplitPairs(s)[0] == s
  {
    if s != "" {
      OnePartIsAll(s[1..]);
      assert [s[0]] + s[1..] == s;
    }
  }

  lemma {:induction false} JoinTwo(s: string)
    requires |SplitPairs(s)| == 2
    ensures s == SplitPairs(s)[0] + "::" + SplitPairs(s)[1]
  {
    if ColonPair(s) {
      OnePartIsAll(s[2..]);
      assert s == "::" + s[2..];
    } else {
      JoinTwo(s[1..]);
      assert s == [s[0]] + s[1..];
    }
  }

  /** `SnapshotManager::restore`: damaged data is refused; a flat name that does not have two parts is skipped. */
  method Restore(text: SnapshotText, meta: Metadata, data: seq<byte>) returns (res: Result<Collections>)
    ensures Crc32.Checksum(data) != meta.checksum ==> res == Err(ChecksumMismatch)
    ensures Crc32.Checksum(data) == meta.checksum && text.read(data).None? ==> res == Err(StorageError)
    ensures Crc32.Checksum(data) == meta.checksum && text.read(data).Some? ==> res.Ok? && Unflattens(text.read(data).value, res.value)
  {
    hide IsDocumentId;
    hide StoreRestored;
    hide SplitPairs;
    var hasher := new Crc32.Hasher();
    hasher.Feed(data);
    var calculated := hasher.Finalize();
    if calculated != meta.checksum { return Err(ChecksumMismatch); }
    var payload := text.read(data);
    if payload.None? { return Err(StorageError); }
    var flat := payload.value;
    var collections: Collections := map[];
    var todo := flat.Keys;
    while todo != {}
      invariant todo <= flat.Keys
      invariant forall key :: key in collections <==>
                  FlatKey(key) in flat && FlatKey(key) !in todo && SplitPairs(FlatKey(key)) == [key.0, key.1]
      invariant forall key :: key in collections ==> StoreRestored(flat[FlatKey(key)], collections[key])
      decreases todo
    {
      var s :| s in todo;
      var parts := SplitPairs(s);
      todo := todo - {s};
      if |parts| == 2 {
        JoinParts(s, parts);
        var store := RestoreStore(flat[s]);
        var key := (parts[0], parts[1]);
        forall k: CollectionKey | FlatKey(k) == s && SplitPairs(FlatKey(k)) == [k.0, k.1] ensures k == key {
          assert [k.0, k.1][0] == parts[0] && [k.0, k.1][1] == parts[1];
        }
        assert parts == [key.0, key.1];
        collections := collections[key := store];
      }
    }
    return Ok(collections);
  }

  /**
   A snapshot and its restoration. The one thing that can go wrong is that the snapshot cannot be written;
   what is restored is the same, up to JSON, exactly if every collection can be named. In any case the
   names that split back return, and nothing else.
   */
  method BackUpAndRestore(text: SnapshotText, id: string, collections: Collections, ghost u: UuidText)
    returns (res: Result<Collections>)
    requires FaithfulText(u, text)
    ensures res.Err? ==> exists flat :: Flattens(collections, flat) && text.write(flat).None?
    ensures res.Ok? ==>
      && (SameCollections(u, collections, res.value) <==> AllNameable(collections))
      && ReturnedByName(u, collections, res.value)
  {
    hide IsDocumentId;
    hide Flattens;
    hide Unflattens;
    hide SameCollections;
    hide AllNameable;
    hide Nameable;
    hide NormFlat;
    hide DocumentCount;
    var created := Create(text, id, collections);
    ghost var flat :| Flattens(collections, flat) && IsSnapshotOf(text, id, collections, flat, created);
    if created.Err? { return Err(created.code); }
    res := Restore(text, created.value.0, created.value.1);
    SnapshotRoundTrip(u, collections, flat, res.value);
    AllReturnByName(u, collections, flat, res.value);
    hide ReturnedByName;
  }

  lemma ReturnedNameable(u: UuidText, collections: Collections, restored: Collections)
    requires ReturnedByName(u, collections, restored)
    ensures AllNameable(restored)
  {
    hide IsDocumentId;
    hide Nameable;
    hide ComesFrom;
  }

  /** Two snapshots in a row: the second restores exactly what the first did, whatever that was. */
  method BackUpTwice(text: SnapshotText, id: string, collections: Collections, ghost u: UuidText)
    returns (once: Result<Collections>, twice: Result<Collections>)
    requires FaithfulText(u, text)
    ensures once.Ok? ==> ReturnedByName(u, collections, once.value)
    ensures once.Ok? && twice.Ok? ==> twice.value == once.value
  {
    hide IsDocumentId;
    hide Flattens;
    hide AllNameable;
    hide SameCollections;
    hide ReturnedByName;
    once := BackUpAndRestore(text, id, collections, u);
    if once.Err? { return once, once; }
    ReturnedNameable(u, collections, once.value);
    twice := BackUpAndRestore(text, id, once.value, u);
    if twice.Ok? { SecondTrip(u, collections, once.value, twice.value); }
  }

  /** Any change of a snapshot file confined to four consecutive bytes is noticed before anything is restored. */
  lemma SnapshotDamageNoticed(text: SnapshotText, flat: Flat, damaged: seq<byte>, at: nat)
    requires text.write(flat).Some? && Crc32.DifferInWindow(text.write(flat).value, damaged, at)
    ensures Crc32.Checksum(damaged) != Crc32.Checksum(text.write(flat).value)
  {
    Crc32.BurstDetected(text.write(flat).value, damaged, at);
  }
}
