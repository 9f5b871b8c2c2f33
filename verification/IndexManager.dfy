/** The index objects and the manager that notifies them (crates/nova-index/src). */
module IndexManagers {
  import opened Core
  import opened Values
  import opened ValueLaws
  import opened Documents
  import opened DocumentIds
  import opened Grouping
  import opened Indexes

  // ---- ranges ----

  predicate AboveStart(b: Bound, key: Value) {
    match b
    case Unbounded => true
    case Included(v) => Cmp(key, v) != Less
    case Excluded(v) => Cmp(key, v) == Greater
  }

  predicate BelowEnd(b: Bound, key: Value) {
    match b
    case Unbounded => true
    case Included(v) => Cmp(key, v) != Greater
    case Excluded(v) => Cmp(key, v) == Less
  }

  predicate InRange(range: IndexRange, key: Value) {
    AboveStart(range.start, key) && BelowEnd(range.end, key)
  }

  function RangeTest(range: IndexRange): Value -> bool {
    key => InRange(range, key)
  }

  /** `BTreeMap::range` panics on these: the start lies behind the end. */
  predicate Reversed(range: IndexRange) {
    && !range.start.Unbounded? && !range.end.Unbounded?
    && (Cmp(range.start.value, range.end.value) == Greater
        || (Cmp(range.start.value, range.end.value) == Equal && range.start.Excluded? && range.end.Excluded?))
  }

  /** The ids of a set, in some order. */
  method Listing(s: set<DocumentId>) returns (ids: seq<DocumentId>)
    ensures multiset(ids) == multiset(s)
  {
    ids := [];
    var rest := s;
    while rest != {}
      invariant rest <= s && multiset(ids) + multiset(rest) == multiset(s)
      decreases rest
    {
      var id :| id in rest;
      ids := ids + [id];
      rest := rest - {id};
    }
  }

  /** Both index types; they differ in how the map finds a key, and in range scans. */
  class SecondaryIndex {
    const name: string
    const field: string
    const kind: Kind
    var entries: Entries

    constructor (name: string, field: string, kind: Kind)
      ensures this.name == name && this.field == field && this.kind == kind && entries == map[]
    {
      this.name, this.field, this.kind := name, field, kind;
      entries := map[];
    }

    method Insert(key: Value, id: DocumentId)
      modifies this
      ensures entries == Add(old(entries), Canon(key), id)
    {
      var k := Canon(key);
      if k !in entries { entries := entries[k := {}]; }
      entries := entries[k := entries[k] + {id}];
    }

    method Remove(key: Value, id: DocumentId)
      modifies this
      ensures entries == Drop(old(entries), Canon(key), id)
    {
      hide IsDocumentId;
      hide Canon;
      var k := Canon(key);
      if k in entries {
        entries := entries[k := entries[k] - {id}];
        if entries[k] == {} {
          entries := entries - {k};
        }
      }
    }

    method Lookup(key: Value) returns (ids: seq<DocumentId>)
      ensures multiset(ids) == multiset(At(entries, Canon(key)))
    {
      if Canon(key) in entries {
        ids := Listing(entries[Canon(key)]);
      } else {
        ids := [];
      }
    }

    /** `scan`: not supported by the hash index, and a panic on a reversed range unless the index is empty. */
    method Scan(range: IndexRange) returns (res: Result<seq<DocumentId>>)
      ensures kind == HashKind ==> res == Err(IndexNotFound)
      ensures kind == OrderedKind && entries != map[] && Reversed(range) ==> res == Err(Panicked)
      ensures kind == OrderedKind && (entries == map[] || !Reversed(range)) ==>
                res.Ok? && multiset(res.value) == Bag(Select(entries, RangeTest(range)))
    {
      if kind == HashKind { return Err(IndexNotFound); }
      ghost var chosen := Select(entries, RangeTest(range));
      if entries == map[] {
        assert chosen == map[];
        return Ok([]);
      }
      if Reversed(range) { return Err(Panicked); }
      var ids := [];
      var todo := map k | k in entries && InRange(range, k) :: entries[k];
      assert todo == chosen;
      while todo != map[]
        invariant multiset(ids) + Bag(todo) == Bag(chosen)
        decreases |todo|
      {
        var k :| k in todo;
        BagRemove(todo, k);
        var part := Listing(todo[k]);
        ids := ids + part;
        todo := todo - {k};
      }
      return Ok(ids);
    }

    method Len() returns (n: nat)
      ensures n == |Bag(entries)|
    {
      n := 0;
      var todo := entries;
      while todo != map[]
        invariant n + |Bag(todo)| == |Bag(entries)|
        decreases |todo|
      {
        var k :| k in todo;
        BagRemove(todo, k);
        n := n + |todo[k]|;
        todo := todo - {k};
      }
    }

    method Clear()
      modifies this
      ensures entries == map[]
    {
      entries := map[];
    }
  }

  class IndexManager {
    var indexes: map<string, SecondaryIndex>

    /** No index is registered twice, and each under its own name. */
    ghost predicate Valid()
      reads this
    {
      && (forall m, n :: m in indexes && n in indexes && m != n ==> indexes[m] != indexes[n])
      && (forall n :: n in indexes ==> indexes[n].name == n)
    }

    constructor ()
      ensures Valid() && indexes == map[]
    {
      indexes := map[];
    }

    /** `add_index`; an index of the same name is replaced. */
    method AddIndex(index: SecondaryIndex)
      requires Valid() && index !in indexes.Values
      modifies this
      ensures Valid() && indexes == old(indexes)[index.name := index]
    {
      assert forall n :: n in indexes ==> indexes[n] in indexes.Values;
      indexes := indexes[index.name := index];
    }

    method DropIndex(name: string) returns (dropped: bool)
      requires Valid()
      modifies this
      ensures Valid() && dropped == (name in old(indexes)) && indexes == old(indexes) - {name}
    {
      dropped := name in indexes;
      indexes := indexes - {name};
    }

    /** `find_index_for_field`: some index on the field, if there is one. */
    method FindIndexForField(field: string) returns (found: Option<SecondaryIndex>)
      ensures match found
              case Some(index) => index in indexes.Values && index.field == field
              case None => forall n :: n in indexes ==> indexes[n].field != field
    {
      if n :| n in indexes && indexes[n].field == field {
        assert indexes[n] in indexes.Values;
        found := Some(indexes[n]);
      } else {
        found := None;
      }
    }

    /** `on_insert`. */
    method OnInsert(doc: Document)
      requires Valid()
      modifies indexes.Values
      ensures forall n :: n in indexes ==>
                indexes[n].entries == DocInserted(old(indexes[n].entries), indexes[n].field, doc)
    {
      var todo := indexes.Keys;
      while todo != {}
        invariant todo <= indexes.Keys
        invariant forall n :: n in todo ==> indexes[n].entries == old(indexes[n].entries)
        invariant forall n :: n in indexes && n !in todo ==>
                    indexes[n].entries == DocInserted(old(indexes[n].entries), indexes[n].field, doc)
        decreases todo
      {
        var n :| n in todo;
        var index := indexes[n];
        assert index in indexes.Values;
        match FieldValue(doc, index.field) {
          case Some(v) => index.Insert(v, doc.id);
          case None =>
        }
        todo := todo - {n};
      }
    }

    /** `on_update`. */
    method OnUpdate(before: Document, after: Document)
      requires Valid()
      modifies indexes.Values
      ensures forall n :: n in indexes ==>
                indexes[n].entries == DocUpdated(old(indexes[n].entries), indexes[n].field, before, after)
    {
      hide IsDocumentId;
      hide DocUpdated;
      var todo := indexes.Keys;
      while todo != {}
        invariant todo <= indexes.Keys
        invariant forall n :: n in todo ==> indexes[n].entries == old(indexes[n].entries)
        invariant forall n :: n in indexes && n !in todo ==>
                    indexes[n].entries == DocUpdated(old(indexes[n].entries), indexes[n].field, before, after)
        decreases todo
      {
        var n :| n in todo;
        var index := indexes[n];
        assert index in indexes.Values;
        MoveEntry(index, before, after);
        todo := todo - {n};
      }
    }

    /** One round of the loop of `on_update`. */
    method MoveEntry(index: SecondaryIndex, before: Document, after: Document)
      modifies index
      ensures index.entries == DocUpdated(old(index.entries), index.field, before, after)
    {
      hide IsDocumentId;
      hide FieldValue;
      hide Canon;
      hide SameOption;
      var oldValue, newValue := FieldValue(before, index.field), FieldValue(after, index.field);
      if !SameOption(oldValue, newValue) {
        if oldValue.Some? { index.Remove(oldValue.value, before.id); }
        if newValue.Some? { index.Insert(newValue.value, after.id); }
      }
    }

    /** `on_remove`. */
    method OnRemove(doc: Document)
      requires Valid()
      modifies indexes.Values
      ensures forall n :: n in indexes ==>
                indexes[n].entries == DocRemoved(old(indexes[n].entries), indexes[n].field, doc)
    {
      var todo := indexes.Keys;
      while todo != {}
        invariant todo <= indexes.Keys
        invariant forall n :: n in todo ==> indexes[n].entries == old(indexes[n].entries)
        invariant forall n :: n in indexes && n !in todo ==>
                    indexes[n].entries == DocRemoved(old(indexes[n].entries), indexes[n].field, doc)
        decreases todo
      {
        var n :| n in todo;
        var index := indexes[n];
        assert index in indexes.Values;
        match FieldValue(doc, index.field) {
          case Some(v) => index.Remove(v, doc.id);
          case None =>
        }
        todo := todo - {n};
      }
    }

    method ClearAll()
      requires Valid()
      modifies indexes.Values
      ensures forall n :: n in indexes ==> indexes[n].entries == map[]
    {
      var names := indexes.Keys;
      while names != {}
        invariant names <= indexes.Keys
        invariant forall n :: n in indexes && n !in names ==> indexes[n].entries == map[]
        decreases names
      {
        var n :| n in names;
        assert indexes[n] in indexes.Values;
        indexes[n].Clear();
        names := names - {n};
      }
    }

    /** `rebuild` from the documents of a store: every index becomes the exact index of the store. */
    method Rebuild(store: Store)
      requires Valid() && WellKeyed(store)
      modifies indexes.Values
      ensures forall n :: n in indexes ==> indexes[n].entries == EntriesOf(store, indexes[n].field)
    {
      hide IsDocumentId;
      hide EntriesOf;
      hide DocInserted;
      ClearAll();
      var todo := store.Keys;
      ghost var done: Store := map[];
      EmptyStoreEmptyIndex();
      while todo != {}
        invariant todo <= store.Keys
        invariant forall id :: id in done <==> id in store && id !in todo
        invariant forall id :: id in done ==> done[id] == store[id]
        invariant forall n :: n in indexes ==> indexes[n].entries == EntriesOf(done, indexes[n].field)
        decreases todo
      {
        var id :| id in todo;
        OnInsert(store[id]);
        forall n | n in indexes
          ensures indexes[n].entries == EntriesOf(done[id := store[id]], indexes[n].field)
        {
          InsertKeepsExact(done, indexes[n].field, store[id]);
        }
        todo := todo - {id};
        done := done[id := store[id]];
      }
      assert done == store;
    }
  }
}
