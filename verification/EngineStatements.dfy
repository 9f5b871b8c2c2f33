/** What UPDATE and REMOVE do to the documents, and where their loops stand half way. */
module EngineStatements {
  import opened Core
  import opened Values
  import opened Documents
  import opened DocumentIds
  import opened Ast
  import opened Evaluator
  import opened Indexes
  import opened Planner
  import opened Queries
  import opened Json
  import opened EngineState

  // ---- what an update does to one document ----

  /** `after` is `before` with the assignments applied, one version on, at some time. */
  predicate IsUpdateOf(assignments: seq<Assignment>, before: Document, after: Document) {
    var (res, changed) := Assigned(before, assignments);
    res.Ok? && after == changed.(version := before.version + 1, updatedAt := after.updatedAt)
  }

  /** What a failed update leaves of a document: the assignments before the failing one, or all of them if the log refused. */
  predicate IsFailedUpdateOf(assignments: seq<Assignment>, before: Document, after: Document) {
    var (res, changed) := Assigned(before, assignments);
    if res.Err? then after == changed else IsUpdateOf(assignments, before, after)
  }

  /** What the update statement does to a document: change it if the filter accepts it, else nothing. */
  predicate UpdatedIf(filter: Option<Expr>, assignments: seq<Assignment>, before: Document, after: Document) {
    match MatchesFilter(filter, before)
    case Ok(accepted) => if accepted then IsUpdateOf(assignments, before, after) else after == before
    case Err(_) => false
  }

  ghost predicate AllUpdated(filter: Option<Expr>, assignments: seq<Assignment>, before: Store, after: Store) {
    before.Keys == after.Keys && forall id :: id in before ==> UpdatedIf(filter, assignments, before[id], after[id])
  }

  /** No other collection changed. */
  ghost predicate Elsewhere(was: Collections, now: Collections, key: CollectionKey) {
    forall k :: k != key ==> StoreOf(now, k) == StoreOf(was, k)
  }

  /** Where the loop of `execute_update` stands when the documents `todo` are still to be visited. */
  ghost predicate UpdateProgress(filter: Option<Expr>, assignments: seq<Assignment>, was: Collections, now: Collections,
                                 key: CollectionKey, todo: set<DocumentId>, accepted: set<DocumentId>)
  {
    && key in now && todo <= StoreOf(was, key).Keys == now[key].Keys && Elsewhere(was, now, key)
    && (forall id :: id in todo ==> now[key][id] == StoreOf(was, key)[id])
    && (forall id :: id in now[key] && id !in todo ==> UpdatedIf(filter, assignments, StoreOf(was, key)[id], now[key][id]))
    && (forall id :: id in accepted <==> id in StoreOf(was, key) && id !in todo && Accepted(filter, StoreOf(was, key)[id]))
  }

  ghost predicate ExactSoFar(now: Collections, key: CollectionKey, todo: set<DocumentId>) {
    forall id :: id in StoreOf(now, key) && id !in todo ==> ExactDocument(StoreOf(now, key)[id])
  }

  /** The document an update failed on, as it was and as it is left; none if the filter itself failed. */
  datatype Gap = NoGap | Gap(before: Document, after: Document)

  /** Where an update that failed leaves the collections: other documents are updated or untouched. */
  ghost predicate StoppedUpdate(filter: Option<Expr>, assignments: seq<Assignment>, was: Collections, now: Collections,
                                key: CollectionKey, gap: Gap)
  {
    && Elsewhere(was, now, key) && StoreOf(now, key).Keys == StoreOf(was, key).Keys
    && (gap.Gap? ==>
          && gap.after.id in StoreOf(was, key)
          && StoreOf(was, key)[gap.after.id] == gap.before && StoreOf(now, key)[gap.after.id] == gap.after
          && Accepted(filter, gap.before) && IsFailedUpdateOf(assignments, gap.before, gap.after))
    && (forall id :: id in StoreOf(was, key) && !(gap.Gap? && id == gap.after.id) ==>
          StoreOf(now, key)[id] == StoreOf(was, key)[id]
          || UpdatedIf(filter, assignments, StoreOf(was, key)[id], StoreOf(now, key)[id]))
  }

  /** JSON cannot tell what the failed document was from what it is. */
  predicate Harmless(u: UuidText, gap: Gap) {
    gap.Gap? ==> NormDocument(u, gap.after) == NormDocument(u, gap.before)
  }

  lemma UpdateStarts(filter: Option<Expr>, assignments: seq<Assignment>, was: Collections, key: CollectionKey)
    requires key in was
    ensures UpdateProgress(filter, assignments, was, was, key, was[key].Keys, {})
  {
    hide IsDocumentId;
    hide UpdatedIf;
    hide Accepted;
  }

  lemma UpdateTarget(filter: Option<Expr>, assignments: seq<Assignment>, was: Collections, now: Collections,
                     key: CollectionKey, todo: set<DocumentId>, accepted: set<DocumentId>, id: DocumentId)
    requires UpdateProgress(filter, assignments, was, now, key, todo, accepted) && id in todo
    ensures key in now && id in now[key] && |todo - {id}| == |todo| - 1
    ensures StoppedUpdate(filter, assignments, was, now, key, NoGap)
  {
    hide IsDocumentId;
    hide UpdatedIf;
    hide Accepted;
  }

  lemma UpdateFails(filter: Option<Expr>, assignments: seq<Assignment>, was: Collections, now: Collections,
                    key: CollectionKey, todo: set<DocumentId>, accepted: set<DocumentId>, after: Document)
    requires UpdateProgress(filter, assignments, was, now, key, todo, accepted) && after.id in todo
    requires key in now && after.id in now[key] && MatchesFilter(filter, now[key][after.id]) == Ok(true)
    requires IsFailedUpdateOf(assignments, now[key][after.id], after)
    ensures StoppedUpdate(filter, assignments, was, WithDocument(now, key, after), key, Gap(now[key][after.id], after))
  {
    hide IsDocumentId;
    hide UpdatedIf;
    hide IsFailedUpdateOf;
    hide MatchesFilter;
    var then' := WithDocument(now, key, after);
    assert forall id :: id in now[key] && id != after.id ==> then'[key][id] == now[key][id];
  }

  lemma UpdateMoves(filter: Option<Expr>, assignments: seq<Assignment>, was: Collections, now: Collections,
                    key: CollectionKey, todo: set<DocumentId>, accepted: set<DocumentId>, after: Document)
    requires UpdateProgress(filter, assignments, was, now, key, todo, accepted) && after.id in todo
    requires key in now && after.id in now[key] && MatchesFilter(filter, now[key][after.id]) == Ok(true)
    requires IsUpdateOf(assignments, now[key][after.id], after)
    ensures var then' := WithDocument(now, key, after);
            && UpdateProgress(filter, assignments, was, then', key, todo - {after.id}, accepted + {after.id})
            && |accepted + {after.id}| == |accepted| + 1
            && (ExactSoFar(then', key, todo - {after.id}) ==> ExactSoFar(now, key, todo) && ExactDocument(after))
  {
    hide IsDocumentId;
    hide IsUpdateOf;
    hide MatchesFilter;
    hide ExactDocument;
    var then' := WithDocument(now, key, after);
    assert UpdatedIf(filter, assignments, now[key][after.id], after);
    hide UpdatedIf;
    assert forall id :: id in now[key] && id != after.id ==> then'[key][id] == now[key][id];
    assert then'[key][after.id] == after;
    if ExactSoFar(then', key, todo - {after.id}) {
      forall id | id in now[key] && id !in todo ensures ExactDocument(now[key][id]) {
        assert then'[key][id] == now[key][id];
      }
    }
  }

  lemma UpdateSkips(filter: Option<Expr>, assignments: seq<Assignment>, was: Collections, now: Collections,
                    key: CollectionKey, todo: set<DocumentId>, accepted: set<DocumentId>, id: DocumentId)
    requires UpdateProgress(filter, assignments, was, now, key, todo, accepted) && id in todo
    requires key in now && id in now[key] && MatchesFilter(filter, now[key][id]) == Ok(false)
    ensures UpdateProgress(filter, assignments, was, now, key, todo - {id}, accepted)
    ensures ExactSoFar(now, key, todo - {id}) ==> ExactSoFar(now, key, todo)
  {
    hide IsDocumentId;
    hide IsUpdateOf;
    hide MatchesFilter;
    hide ExactDocument;
  }

  lemma UpdateDone(filter: Option<Expr>, assignments: seq<Assignment>, was: Collections, now: Collections,
                   key: CollectionKey, accepted: set<DocumentId>)
    requires UpdateProgress(filter, assignments, was, now, key, {}, accepted)
    ensures Elsewhere(was, now, key) && AllUpdated(filter, assignments, StoreOf(was, key), StoreOf(now, key))
    ensures StoreOf(now, key).Keys == StoreOf(was, key).Keys && accepted == Matching(StoreOf(was, key), filter)
    ensures ExactStore(StoreOf(now, key)) ==> ExactSoFar(now, key, {})
  {
    hide IsDocumentId;
    hide UpdatedIf;
    hide MatchesFilter;
    hide ExactDocument;
  }

  lemma MatchingFits(store: Store, filter: Option<Expr>)
    ensures Matching(store, filter) <= store.Keys && |Matching(store, filter)| <= |store|
  {
    hide IsDocumentId;
    hide Accepted;
    assert Matching(store, filter) <= store.Keys;
    SubsetSize(Matching(store, filter), store.Keys);
  }

  lemma {:induction false} SubsetSize<T>(a: set<T>, b: set<T>)
    requires a <= b
    ensures |a| <= |b|
  {
    if x :| x in a {
      SubsetSize(a - {x}, b - {x});
    }
  }

  /** Making sure that a collection exists changes no store. */
  lemma TouchedStores(c: Collections, key: CollectionKey)
    ensures forall k :: StoreOf(c[key := StoreOf(c, key)], k) == StoreOf(c, k)
  {
    hide IsDocumentId;
  }

  /** Where the loop of `execute_remove` stands. */
  ghost predicate RemoveProgress(was: Collections, now: Collections, key: CollectionKey, targets: set<DocumentId>, todo: set<DocumentId>) {
    && key in now && todo <= targets <= StoreOf(was, key).Keys && Elsewhere(was, now, key)
    && now[key] == StoreOf(was, key) - (targets - todo)
  }

  lemma RemoveStarts(was: Collections, key: CollectionKey, targets: set<DocumentId>)
    requires key in was && targets <= was[key].Keys
    ensures RemoveProgress(was, was, key, targets, targets)
  {
    hide IsDocumentId;
  }

  lemma RemoveMoves(was: Collections, now: Collections, key: CollectionKey, targets: set<DocumentId>, todo: set<DocumentId>, id: DocumentId)
    requires RemoveProgress(was, now, key, targets, todo) && id in todo
    ensures key in now && id in now[key] && |todo - {id}| == |todo| - 1
    ensures RemoveProgress(was, WithoutDocument(now, key, id), key, targets, todo - {id})
  {
    hide IsDocumentId;
    assert targets - (todo - {id}) == (targets - todo) + {id};
    assert StoreOf(was, key) - (targets - todo) - {id} == StoreOf(was, key) - (targets - (todo - {id}));
  }

  lemma RemoveElsewhere(was: Collections, now: Collections, key: CollectionKey, targets: set<DocumentId>, todo: set<DocumentId>)
    requires RemoveProgress(was, now, key, targets, todo)
    ensures Elsewhere(was, now, key) && (todo == {} ==> StoreOf(now, key) == StoreOf(was, key) - targets)
  {
    hide IsDocumentId;
    assert targets - {} == targets;
  }

  lemma {:induction false} AssignedKeepsVersion(doc: Document, assignments: seq<Assignment>)
    ensures Assigned(doc, assignments).1.version == doc.version
    decreases |assignments|
  {
    hide IsDocumentId;
    hide Eval;
    if assignments != [] && Eval(assignments[0].expr, doc).Ok? && !IsIdPath(assignments[0].field) {
      var v := Eval(assignments[0].expr, doc).value;
      AssignedKeepsVersion(doc.(fields := Put(doc.fields, assignments[0].field, v)), assignments[1..]);
    }
  }

  lemma AppliedIsUpdate(doc: Document, assignments: seq<Assignment>, now: i64)
    ensures var (res, changed) := AssignmentsApplied(doc, assignments, now);
            && changed.id == doc.id && IsFailedUpdateOf(assignments, doc, changed)
            && (res.Ok? ==> IsUpdateOf(assignments, doc, changed))
  {
    hide IsDocumentId;
    hide Assigned;
    AssignedKeepsId(doc, assignments);
    AssignedKeepsVersion(doc, assignments);
  }

  lemma NothingStored(filter: Option<Expr>, sort: Option<SortClause>, limit: Option<nat>, offset: Option<nat>)
    ensures IsMatchList([], map[], filter) && Presented([], sort, limit, offset) == []
  {
    hide IsDocumentId;
    assert Matching(map[], filter) == {} && IdsOf([]) == [];
  }
}
