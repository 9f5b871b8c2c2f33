/**
 What an UPDATE leaves of a document when one of its assignments fails
 (crates/nova-query/src/evaluator.rs, `apply_assignments`).
 */
module AssignmentLaws {
  import opened Core
  import opened Values
  import opened Documents
  import opened DocumentIds
  import opened FieldLaws
  import opened Ast
  import opened Evaluator

  /** What the assignments that go through write, in turn. */
  function Writes(doc: Document, assignments: seq<Assignment>): (r: seq<Field>)
    ensures |r| <= |assignments|
    decreases |assignments|
  {
    if assignments == [] || IsIdPath(assignments[0].field) || Eval(assignments[0].expr, doc).Err? then []
    else
      var f := Field(assignments[0].field, Eval(assignments[0].expr, doc).value);
      [f] + Writes(doc.(fields := Put(doc.fields, f.key, f.value)), assignments[1..])
  }

  function Stored(fields: seq<Field>, writes: seq<Field>): seq<Field>
    decreases |writes|
  {
    if writes == [] then fields else Stored(Put(fields, writes[0].key, writes[0].value), writes[1..])
  }

  /** The last value written under a key. */
  function LastWrite(writes: seq<Field>, key: string): Option<Value> {
    if writes == [] then None
    else
      var later := LastWrite(writes[1..], key);
      if later.Some? then later else if writes[0].key == key then Some(writes[0].value) else None
  }

  lemma {:induction false} AssignedIsStored(doc: Document, assignments: seq<Assignment>)
    ensures Assigned(doc, assignments).1 == doc.(fields := Stored(doc.fields, Writes(doc, assignments)))
    decreases |assignments|
  {
    hide IsDocumentId;
    hide Eval;
    if assignments != [] && !IsIdPath(assignments[0].field) && Eval(assignments[0].expr, doc).Ok? {
      var v := Eval(assignments[0].expr, doc).value;
      var changed := doc.(fields := Put(doc.fields, assignments[0].field, v));
      AssignedIsStored(changed, assignments[1..]);
      assert Writes(doc, assignments)[1..] == Writes(changed, assignments[1..]);
    }
  }

  lemma {:induction false} StoredGet(fields: seq<Field>, writes: seq<Field>, key: string)
    requires Sorted(fields)
    ensures Sorted(Stored(fields, writes))
    ensures Get(Stored(fields, writes), key)
            == if LastWrite(writes, key).Some? then LastWrite(writes, key) else Get(fields, key)
    decreases |writes|
  {
    hide KeyLess;
    if writes != [] {
      var (k, v) := (writes[0].key, writes[0].value);
      PutSorted(fields, k, v);
      GetPut(fields, k, v, key);
      StoredGet(Put(fields, k, v), writes[1..], key);
    }
  }

  /** The last value written under each key is the one that was there. */
  ghost predicate WritesBack(fields: seq<Field>, writes: seq<Field>) {
    forall key :: LastWrite(writes, key).Some? ==> LastWrite(writes, key) == Get(fields, key)
  }

  lemma {:induction false} StoredSame(fields: seq<Field>, writes: seq<Field>)
    requires Sorted(fields)
    ensures Stored(fields, writes) == fields <==> WritesBack(fields, writes)
  {
    hide KeyLess;
    var stored := Stored(fields, writes);
    StoredGet(fields, writes, "");
    forall key
      ensures Get(stored, key) == if LastWrite(writes, key).Some? then LastWrite(writes, key) else Get(fields, key)
    {
      StoredGet(fields, writes, key);
    }
    hide Stored;
    hide LastWrite;
    hide Get;
    hide Sorted;
    if WritesBack(fields, writes) {
      SameReadingSame(fields, stored);
    }
  }

  /**
   A failing UPDATE leaves a document as it was exactly if the assignments before the first failing one
   end up writing back what was there; always, if the first one fails.
   */
  lemma {:induction false} HalfApplied(doc: Document, assignments: seq<Assignment>, now: i64)
    requires Sorted(doc.fields) && AssignmentsApplied(doc, assignments, now).0.Err?
    ensures AssignmentsApplied(doc, assignments, now).1 == doc <==> WritesBack(doc.fields, Writes(doc, assignments))
    ensures assignments != []
    ensures Eval(assignments[0].expr, doc).Err? || IsIdPath(assignments[0].field) ==>
              AssignmentsApplied(doc, assignments, now).1 == doc
  {
    hide IsDocumentId;
    hide Eval;
    hide KeyLess;
    AssignedIsStored(doc, assignments);
    StoredSame(doc.fields, Writes(doc, assignments));
    hide WritesBack;
  }

  // ---- targets that differ ----

  /** The assignment writes what the document holds. */
  predicate NoOp(doc: Document, a: Assignment) {
    Eval(a.expr, doc).Ok? && Get(doc.fields, a.field) == Some(Eval(a.expr, doc).value)
  }

  predicate DistinctTargets(assignments: seq<Assignment>) {
    forall i, j :: 0 <= i < j < |assignments| ==> assignments[i].field != assignments[j].field
  }

  lemma {:induction false} WritesTargets(doc: Document, assignments: seq<Assignment>, key: string)
    requires forall i :: 0 <= i < |assignments| ==> assignments[i].field != key
    ensures LastWrite(Writes(doc, assignments), key) == None
    decreases |assignments|
  {
    hide IsDocumentId;
    hide Eval;
    var writes := Writes(doc, assignments);
    if writes != [] {
      var changed := doc.(fields := Put(doc.fields, writes[0].key, writes[0].value));
      assert writes[1..] == Writes(changed, assignments[1..]);
      WritesTargets(changed, assignments[1..], key);
    }
  }

  /** If no field is assigned twice, that means that each of those assignments writes what is there already. */
  lemma {:induction false} DistinctHalfApplied(doc: Document, assignments: seq<Assignment>)
    requires Sorted(doc.fields) && DistinctTargets(assignments)
    ensures WritesBack(doc.fields, Writes(doc, assignments))
            <==> forall i :: 0 <= i < |Writes(doc, assignments)| ==> NoOp(doc, assignments[i])
    decreases |assignments|
  {
    hide IsDocumentId;
    hide Eval;
    hide KeyLess;
    var writes := Writes(doc, assignments);
    if writes != [] {
      var (a, rest) := (assignments[0], assignments[1..]);
      var changed := doc.(fields := Put(doc.fields, writes[0].key, writes[0].value));
      assert writes[1..] == Writes(changed, rest);
      assert DistinctTargets(rest);
      WritesTargets(changed, rest, a.field);
      assert LastWrite(writes, a.field) == Some(writes[0].value);
      if NoOp(doc, a) {
        PutSame(doc.fields, writes[0].key, writes[0].value);
        assert changed == doc;
        DistinctHalfApplied(doc, rest);
        WritesBackCons(doc.fields, writes);
        assert forall i :: 0 < i < |writes| ==> assignments[i] == rest[i - 1];
        assert forall i :: 0 <= i < |writes| - 1 ==> rest[i] == assignments[i + 1];
      } else {
        assert LastWrite(writes, a.field) != Get(doc.fields, a.field);
        assert !NoOp(doc, assignments[0]);
      }
    }
  }

  lemma WritesBackCons(fields: seq<Field>, writes: seq<Field>)
    requires writes != [] && Get(fields, writes[0].key) == Some(writes[0].value)
    requires LastWrite(writes[1..], writes[0].key) == None
    ensures WritesBack(fields, writes) <==> WritesBack(fields, writes[1..])
  {
    if WritesBack(fields, writes) {
      forall key | LastWrite(writes[1..], key).Some? ensures LastWrite(writes[1..], key) == Get(fields, key) {
        assert LastWrite(writes, key) == LastWrite(writes[1..], key);
      }
    }
  }

  /** An input: a later assignment that fails leaves the earlier one in the document. */
  lemma HalfAppliedExample(doc: Document, v: Value, now: i64)
    requires Get(doc.fields, "a") != Some(v)
    ensures var bad := Binary(Divide, Literal(Int(1)), Literal(Int(0)));
            var (res, changed) := AssignmentsApplied(doc, [Assignment("a", Literal(v)), Assignment("b", bad)], now);
            res == Err(InvalidQuery) && changed != doc && Get(changed.fields, "a") == Some(v)
  {
    var bad := Binary(Divide, Literal(Int(1)), Literal(Int(0)));
    var list := [Assignment("a", Literal(v)), Assignment("b", bad)];
    GetPut(doc.fields, "a", v, "a");
    var first := doc.(fields := Put(doc.fields, "a", v));
    assert list[1..][0] == Assignment("b", bad);
    assert Eval(bad, first) == Err(InvalidQuery);
    assert Assigned(first, list[1..]) == (Err(InvalidQuery), first);
  }

  /** An input on which a field is changed and changed back: the document is as it was, though the first write was none of its values. */
  lemma ChangedBackExample(doc: Document, now: i64)
    requires Sorted(doc.fields) && Get(doc.fields, "a") == Some(Int(1))
    ensures var bad := Binary(Divide, Literal(Int(1)), Literal(Int(0)));
            var list := [Assignment("a", Literal(Int(2))), Assignment("a", Literal(Int(1))), Assignment("b", bad)];
            AssignmentsApplied(doc, list, now) == (Err(InvalidQuery), doc) && !NoOp(doc, list[0])
  {
    hide IsDocumentId;
    hide KeyLess;
    var bad := Binary(Divide, Literal(Int(1)), Literal(Int(0)));
    var list := [Assignment("a", Literal(Int(2))), Assignment("a", Literal(Int(1))), Assignment("b", bad)];
    var once := doc.(fields := Put(doc.fields, "a", Int(2)));
    var twice := doc.(fields := Put(once.fields, "a", Int(1)));
    assert list[1..] == [Assignment("a", Literal(Int(1))), Assignment("b", bad)];
    assert list[1..][1..] == [Assignment("b", bad)];
    assert Eval(bad, twice) == Err(InvalidQuery);
    assert Assigned(twice, [Assignment("b", bad)]) == (Err(InvalidQuery), twice);
    assert Assigned(once, list[1..]) == (Err(InvalidQuery), twice);
    assert Assigned(doc, list) == (Err(InvalidQuery), twice);
    hide Eval;
    PutSorted(doc.fields, "a", Int(2));
    PutSorted(once.fields, "a", Int(1));
    forall key ensures Get(twice.fields, key) == Get(doc.fields, key) {
      GetPut(doc.fields, "a", Int(2), key);
      GetPut(once.fields, "a", Int(1), key);
    }
    SameReadingSame(twice.fields, doc.fields);
  }
}
