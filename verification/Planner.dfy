/**
 The query planner (crates/nova-query/src/planner.rs) against a plain scan: which filters it answers
 from an index, and when the answer is the same.
 */
module Planner {
  import opened Core
  import opened Values
  import opened ValueLaws
  import opened Documents
  import opened DocumentIds
  import opened Ast
  import opened Evaluator
  import opened Grouping
  import opened Indexes
  import opened IndexManagers

  /** What the planner asks of an index it found. */
  datatype IndexRef = IndexRef(name: string, kind: Kind)

  /** `find_index_for_field`. */
  type Finder = string -> Option<IndexRef>

  datatype QueryPlan =
    | IndexLookup(name: string, key: Value)
    | IndexRangeScan(name: string, range: IndexRange)
    | SeqScan

  function RangeFor(op: BinaryOp, v: Value): Option<IndexRange> {
    match op
    case Gt => Some(IndexRange(Excluded(v), Unbounded))
    case GtEq => Some(IndexRange(Included(v), Unbounded))
    case Lt => Some(IndexRange(Unbounded, Excluded(v)))
    case LtEq => Some(IndexRange(Unbounded, Included(v)))
    case _ => None
  }

  /** `QueryPlanner::plan`; sorting and paging are passed through untouched and left out here. */
  function Plan(filter: Option<Expr>, find: Finder): QueryPlan {
    match filter
    case Some(Binary(Equals, FieldRef(field), Literal(v))) =>
      (match find(field) case Some(index) => IndexLookup(index.name, v) case None => SeqScan)
    case Some(Binary(Equals, Literal(v), FieldRef(field))) =>
      (match find(field) case Some(index) => IndexLookup(index.name, v) case None => SeqScan)
    case Some(Binary(op, FieldRef(field), Literal(v))) =>
      (match (find(field), RangeFor(op, v))
       case (Some(index), Some(range)) => if index.kind == OrderedKind then IndexRangeScan(index.name, range) else SeqScan
       case (_, _) => SeqScan)
    case Some(Between(FieldRef(field), Literal(lo), Literal(hi))) =>
      (match find(field)
       case Some(index) =>
         if index.kind == OrderedKind then IndexRangeScan(index.name, IndexRange(Included(lo), Included(hi))) else SeqScan
       case None => SeqScan)
    case _ => SeqScan
  }

  // ---- the filters the planner can answer from an index ----

  predicate Indexable(e: Expr) {
    match e
    case Binary(op, FieldRef(_), Literal(_)) => op.Equals? || op.Gt? || op.GtEq? || op.Lt? || op.LtEq?
    case Binary(Equals, Literal(_), FieldRef(_)) => true
    case Between(FieldRef(_), Literal(_), Literal(_)) => true
    case _ => false
  }

  function FieldOf(e: Expr): string
    requires Indexable(e)
  {
    match e
    case Binary(_, FieldRef(field), _) => field
    case Binary(_, _, FieldRef(field)) => field
    case Between(FieldRef(field), _, _) => field
  }

  /** The verdict of such a filter when its field reads as `v`. */
  predicate Verdict(e: Expr, v: Value)
    requires Indexable(e)
  {
    match e
    case Binary(op, FieldRef(_), Literal(x)) => Test(op, v, x)
    case Binary(_, Literal(x), FieldRef(_)) => Eq(x, v)
    case Between(_, Literal(lo), Literal(hi)) => TestBetween(v, lo, hi)
  }

  predicate ExactLiterals(e: Expr)
    requires Indexable(e)
  {
    match e
    case Binary(_, FieldRef(_), Literal(x)) => Exact(x)
    case Binary(_, Literal(x), FieldRef(_)) => Exact(x)
    case Between(_, Literal(lo), Literal(hi)) => Exact(lo) && Exact(hi)
  }

  /** The filters that also accept a document in which the field is missing and so reads as Null. */
  predicate AcceptsMissing(e: Expr)
    requires Indexable(e)
  {
    match e
    case Binary(Lt, _, Literal(x)) => !x.Null?
    case Binary(LtEq, _, _) => true
    case Binary(Gt, _, _) => false
    case Binary(_, FieldRef(_), Literal(x)) => x.Null?
    case Binary(_, Literal(x), FieldRef(_)) => x.Null?
    case Between(_, Literal(lo), _) => lo.Null?
  }

  lemma AcceptsMissingIsNullVerdict(e: Expr)
    requires Indexable(e)
    ensures Verdict(e, Null) <==> AcceptsMissing(e)
  {
  }

  lemma PlannedIsIndexable(e: Expr, find: Finder)
    requires Plan(Some(e), find) != SeqScan
    ensures Indexable(e) && find(FieldOf(e)).Some?
  {
  }

  lemma FilterVerdict(e: Expr, doc: Document)
    requires Indexable(e)
    ensures MatchesFilter(Some(e), doc) == Ok(Verdict(e, ReadField(doc, FieldOf(e))))
  {
    hide Eq;
    hide Cmp;
    hide ReadField;
    match e
    case Binary(op, l, r) =>
      assert Eval(l, doc).Ok? && Eval(r, doc).Ok?;
    case Between(s, lo, hi) =>
      assert Eval(s, doc).Ok? && Eval(lo, doc).Ok? && Eval(hi, doc).Ok?;
  }

  // ---- candidates ----

  datatype Index = Index(field: string, kind: Kind, entries: Entries)

  type Manager = map<string, Index>

  function AllIds(e: Entries): set<DocumentId> {
    set k, id | k in e && id in e[k] :: id
  }

  /** The ids a plan makes the engine look at. */
  function Candidates(plan: QueryPlan, mgr: Manager, store: Store): set<DocumentId> {
    match plan
    case IndexLookup(name, key) => if name in mgr then At(mgr[name].entries, Canon(key)) else store.Keys
    case IndexRangeScan(name, range) =>
      if name in mgr then AllIds(Select(mgr[name].entries, RangeTest(range))) else store.Keys
    case SeqScan => store.Keys
  }

  predicate Accepted(filter: Option<Expr>, doc: Document) {
    MatchesFilter(filter, doc) == Ok(true)
  }

  /** The documents a scan with the filter returns. */
  function Matching(store: Store, filter: Option<Expr>): set<DocumentId> {
    set id | id in store && Accepted(filter, store[id])
  }

  /** The documents found by checking the filter on the candidates of the plan. */
  function Found(plan: QueryPlan, mgr: Manager, store: Store, filter: Option<Expr>): set<DocumentId> {
    set id | id in Candidates(plan, mgr, store) && id in store && Accepted(filter, store[id])
  }

  ghost predicate Consistent(find: Finder, mgr: Manager) {
    forall field :: find(field).Some? ==>
      find(field).value.name in mgr && mgr[find(field).value.name].field == field && mgr[find(field).value.name].kind == find(field).value.kind
  }

  ghost predicate ExactIndexes(mgr: Manager, store: Store) {
    forall n :: n in mgr ==> mgr[n].entries == EntriesOf(store, mgr[n].field)
  }

  predicate ExactStore(store: Store) {
    forall id :: id in store ==> ExactDocument(store[id])
  }

  // ---- canonical keys answer the same questions ----

  lemma {:induction false} IntFreeIsCanonical(v: Value)
    requires IntFree(v)
    ensures Canon(v) == v && SafeInts(v)
    decreases v, 1
  {
    match v {
      case Array(items) =>
        CanonItemsAt(items);
        forall i | 0 <= i < |items| ensures Canon(items[i]) == items[i] && SafeInts(items[i]) { IntFreeIsCanonical(items[i]); }
        assert CanonItems(items) == items;
      case Object(fields) =>
        CanonFieldsAt(fields);
        forall i | 0 <= i < |fields| ensures Canon(fields[i].value) == fields[i].value && SafeInts(fields[i].value) {
          IntFreeIsCanonical(fields[i].value);
        }
        assert CanonFields(fields) == fields;
      case _ =>
    }
  }

  lemma CanonicalKeyOrder(v: Value, x: Value)
    requires SafeInts(v) && SafeInts(x)
    ensures Cmp(Canon(v), x) == Cmp(v, x)
  {
    CanonIntFree(v);
    IntFreeIsCanonical(Canon(v));
    CmpCanon(v, x);
    CmpCanon(Canon(v), x);
  }

  /** The plan's key or range accepts the canonical form of a value exactly when the filter accepts the value. */
  predicate PlanAccepts(plan: QueryPlan, key: Value) {
    match plan
    case IndexLookup(_, x) => key == Canon(x)
    case IndexRangeScan(_, range) => InRange(range, key)
    case SeqScan => true
  }

  lemma PlanMatchesVerdict(e: Expr, find: Finder, v: Value)
    requires Plan(Some(e), find) != SeqScan && Indexable(e) && ExactLiterals(e) && Exact(v)
    ensures PlanAccepts(Plan(Some(e), find), Canon(v)) <==> Verdict(e, v)
  {
    match e
    case Binary(op, FieldRef(_), Literal(x)) =>
      EqCanon(v, x);
      CanonicalKeyOrder(v, x);
    case Binary(_, Literal(x), FieldRef(_)) =>
      EqCanon(x, v);
    case Between(_, Literal(lo), Literal(hi)) =>
      CanonicalKeyOrder(v, lo);
      CanonicalKeyOrder(v, hi);
  }

  // ---- the exact index yields exactly the documents whose value the plan accepts ----

  lemma CandidatesOfExactIndex(plan: QueryPlan, name: string, mgr: Manager, store: Store, id: DocumentId)
    requires !plan.SeqScan? && plan.name == name
    requires name in mgr && mgr[name].entries == EntriesOf(store, mgr[name].field)
    ensures var field := mgr[name].field;
            id in Candidates(plan, mgr, store) <==>
            id in store && IndexKey(store[id], field).Some? && PlanAccepts(plan, IndexKey(store[id], field).value)
  {
    hide IsDocumentId;
    hide IndexKey;
    hide InRange;
    hide Canon;
    var field := mgr[name].field;
    var keys := KeyMap(store, field);
    match plan {
      case IndexLookup(_, x) =>
        GroupAt(keys, Canon(x));
      case IndexRangeScan(_, range) =>
        SelectGroups(keys, RangeTest(range));
        var some := SelectKeys(keys, RangeTest(range));
        var e := Select(mgr[name].entries, RangeTest(range));
        if id in some {
          GroupAt(some, some[id]);
          assert id in At(e, some[id]);
          assert some[id] in e && id in e[some[id]];
        }
        if id in AllIds(e) {
          var k :| k in e && id in e[k];
          GroupAt(some, k);
        }
    }
  }

  /**
   The planner preserves meaning: on an exact index, a planned filter finds the same documents as a
   full scan exactly when it rejects a missing field or no document misses it.
   */
  lemma PlanPreservesMeaning(e: Expr, find: Finder, mgr: Manager, store: Store)
    requires Plan(Some(e), find) != SeqScan
    requires Consistent(find, mgr) && ExactIndexes(mgr, store) && ExactStore(store)
    requires Indexable(e) && ExactLiterals(e) && !IsIdPath(FieldOf(e))
    ensures Found(Plan(Some(e), find), mgr, store, Some(e)) == Matching(store, Some(e)) <==>
            AcceptsMissing(e) ==> WithField(store, FieldOf(e)) == store.Keys
  {
    hide IsDocumentId;
    var (plan, field) := (Plan(Some(e), find), FieldOf(e));
    var found := Found(plan, mgr, store, Some(e));
    var matching := Matching(store, Some(e));
    AcceptsMissingIsNullVerdict(e);
    forall id | id in store
      ensures id in found <==> FieldValue(store[id], field).Some? && Verdict(e, FieldValue(store[id], field).value)
      ensures id in matching <==>
                if FieldValue(store[id], field).Some? then Verdict(e, FieldValue(store[id], field).value) else AcceptsMissing(e)
    {
      FoundOne(e, find, mgr, store, id);
      FilterVerdict(e, store[id]);
    }
    if !AcceptsMissing(e) || WithField(store, field) == store.Keys {
      forall id | id in store
        ensures id in found <==> id in matching
      {
        assert FieldValue(store[id], field).Some? <==> id in WithField(store, field);
      }
      assert found == matching;
    } else {
      var id :| id in store.Keys && id !in WithField(store, field);
      assert id in matching && id !in found;
    }
  }

  lemma FoundOne(e: Expr, find: Finder, mgr: Manager, store: Store, id: DocumentId)
    requires Plan(Some(e), find) != SeqScan && id in store
    requires Consistent(find, mgr) && ExactIndexes(mgr, store) && ExactStore(store)
    requires Indexable(e) && ExactLiterals(e) && !IsIdPath(FieldOf(e))
    ensures id in Found(Plan(Some(e), find), mgr, store, Some(e)) <==>
            FieldValue(store[id], FieldOf(e)).Some? && Verdict(e, FieldValue(store[id], FieldOf(e)).value)
  {
    hide IsDocumentId;
    hide MatchesFilter;
    hide FieldValue;
    hide EntriesOf;
    hide Candidates;
    PlannedIsIndexable(e, find);
    var (plan, field) := (Plan(Some(e), find), FieldOf(e));
    var name := find(field).value.name;
    CandidatesOfExactIndex(plan, name, mgr, store, id);
    FilterVerdict(e, store[id]);
    if FieldValue(store[id], field).Some? {
      FieldValueExact(store[id], field);
      PlanMatchesVerdict(e, find, FieldValue(store[id], field).value);
    }
  }

  /** An index on `id` holds nothing, as no stored field has that name: a planned lookup by id finds no document. */
  lemma {:induction false} IdIndexFindsNothing(e: Expr, find: Finder, mgr: Manager, store: Store)
    requires Plan(Some(e), find) != SeqScan && Consistent(find, mgr) && ExactIndexes(mgr, store)
    requires Indexable(e) && IsIdPath(FieldOf(e))
    requires forall id :: id in store ==> Get(store[id].fields, FieldOf(e)).None?
    ensures Found(Plan(Some(e), find), mgr, store, Some(e)) == {}
  {
    hide IsDocumentId;
    hide MatchesFilter;
    hide EntriesOf;
    hide Candidates;
    PlannedIsIndexable(e, find);
    var (plan, field) := (Plan(Some(e), find), FieldOf(e));
    var found := Found(plan, mgr, store, Some(e));
    forall id | id in found
      ensures false
    {
      CandidatesOfExactIndex(plan, find(field).value.name, mgr, store, id);
    }
  }
}
