/** The reading statements of the engine (crates/nova-server/src/engine.rs): FIND, COUNT and EXISTS. */
module Queries {
  import opened Core
  import opened Values
  import opened ValueLaws
  import opened Documents
  import opened DocumentIds
  import opened Ast
  import opened Evaluator
  import opened Grouping
  import opened Indexes
  import opened IndexManagers
  import opened Planner
  import opened Sorting

  // ---- candidates ----

  /** Whether executing the plan panics: a reversed range on an index that is not empty. */
  predicate Panics(plan: QueryPlan, mgr: Manager) {
    plan.IndexRangeScan? && plan.name in mgr && mgr[plan.name].kind == OrderedKind
    && mgr[plan.name].entries != map[] && Reversed(plan.range)
  }

  /** The candidate list as a bag: a range scan lists an id once for every key it sits under. */
  ghost function CandidateBag(plan: QueryPlan, mgr: Manager, store: Store): multiset<DocumentId> {
    match plan
    case IndexLookup(name, key) =>
      if name in mgr then multiset(At(mgr[name].entries, Canon(key))) else multiset(store.Keys)
    case IndexRangeScan(name, range) =>
      if name !in mgr then multiset(store.Keys)
      else if mgr[name].kind == HashKind then multiset{}
      else Bag(Select(mgr[name].entries, RangeTest(range)))
    case SeqScan => multiset(store.Keys)
  }

  method ScanIndex(entries: Entries, range: IndexRange) returns (ids: seq<DocumentId>)
    ensures multiset(ids) == Bag(Select(entries, RangeTest(range)))
  {
    ids := [];
    var todo := Select(entries, RangeTest(range));
    while todo != map[]
      invariant multiset(ids) + Bag(todo) == Bag(Select(entries, RangeTest(range)))
      decreases |todo|
    {
      var k :| k in todo;
      BagRemove(todo, k);
      var part := Listing(todo[k]);
      ids := ids + part;
      todo := todo - {k};
    }
  }

  method CandidateIds(plan: QueryPlan, mgr: Manager, store: Store) returns (res: Result<seq<DocumentId>>)
    ensures Panics(plan, mgr) ==> res == Err(Panicked)
    ensures !Panics(plan, mgr) ==> res.Ok? && multiset(res.value) == CandidateBag(plan, mgr, store)
  {
    hide IsDocumentId;
    hide RangeTest;
    var ids;
    match plan {
      case IndexLookup(name, key) =>
        if name in mgr { ids := Listing(At(mgr[name].entries, Canon(key))); } else { ids := Listing(store.Keys); }
      case IndexRangeScan(name, range) =>
        if name !in mgr {
          ids := Listing(store.Keys);
        } else if mgr[name].kind == HashKind {
          ids := [];
        } else if mgr[name].entries != map[] && Reversed(range) {
          return Err(Panicked);
        } else {
          ids := ScanIndex(mgr[name].entries, range);
        }
      case SeqScan =>
        ids := Listing(store.Keys);
    }
    return Ok(ids);
  }

  /** The one filter that panics: a BETWEEN with its bounds the wrong way round, on an ordered index that is not empty. */
  lemma PanicsExactly(filter: Option<Expr>, find: Finder, mgr: Manager)
    requires Consistent(find, mgr)
    ensures Panics(Plan(filter, find), mgr) <==>
            && filter.Some? && filter.value.Between? && Indexable(filter.value)
            && Cmp(filter.value.min.value, filter.value.max.value) == Greater
            && find(FieldOf(filter.value)).Some?
            && var name := find(FieldOf(filter.value)).value.name; mgr[name].kind == OrderedKind && mgr[name].entries != map[]
  {
    hide Cmp;
  }

  // ---- filtering ----

  /** The candidates that are stored and pass the filter, in order; the first evaluation error ends it. */
  function Filtered(store: Store, filter: Option<Expr>, ids: seq<DocumentId>): Result<seq<Document>>
    decreases |ids|
  {
    if ids == [] then Ok([])
    else if ids[0] !in store then Filtered(store, filter, ids[1..])
    else
      var accepted :- MatchesFilter(filter, store[ids[0]]);
      var rest :- Filtered(store, filter, ids[1..]);
      Ok(if accepted then [store[ids[0]]] + rest else rest)
  }

  method FilterCandidates(store: Store, filter: Option<Expr>, ids: seq<DocumentId>) returns (res: Result<seq<Document>>)
    ensures res == Filtered(store, filter, ids)
  {
    hide IsDocumentId;
    hide MatchesFilter;
    var results := [];
    var i := 0;
    assert ids[0..] == ids;
    while i < |ids|
      invariant i <= |ids|
      invariant Filtered(store, filter, ids).Ok? <==> Filtered(store, filter, ids[i..]).Ok?
      invariant Filtered(store, filter, ids).Err? ==> Filtered(store, filter, ids) == Filtered(store, filter, ids[i..])
      invariant Filtered(store, filter, ids).Ok? ==>
                  Filtered(store, filter, ids).value == results + Filtered(store, filter, ids[i..]).value
    {
      assert ids[i..][1..] == ids[i + 1..];
      if ids[i] in store {
        var accepted := MatchesFilter(filter, store[ids[i]]);
        if accepted.Err? { return Err(accepted.code); }
        if accepted.value { results := results + [store[ids[i]]]; }
      }
      i := i + 1;
    }
    assert ids[i..] == [] && results + [] == results;
    return Ok(results);
  }

  predicate ErrorFree(store: Store, filter: Option<Expr>) {
    forall id :: id in store ==> MatchesFilter(filter, store[id]).Ok?
  }

  /** The filter makes no stored document's evaluation panic; it may fail in other ways. */
  predicate PanicFree(store: Store, filter: Option<Expr>) {
    forall id :: id in store ==> MatchesFilter(filter, store[id]) != Err(Panicked)
  }

  function IdsOf(docs: seq<Document>): (r: seq<DocumentId>)
    ensures |r| == |docs|
    ensures forall i :: 0 <= i < |docs| ==> r[i] == docs[i].id
  {
    seq(|docs|, i requires 0 <= i < |docs| => docs[i].id)
  }

  lemma {:induction false} FilteredOk(store: Store, filter: Option<Expr>, ids: seq<DocumentId>)
    requires ErrorFree(store, filter)
    ensures Filtered(store, filter, ids).Ok?
    decreases |ids|
  {
    hide IsDocumentId;
    hide MatchesFilter;
    if ids != [] {
      FilteredOk(store, filter, ids[1..]);
    }
  }

  lemma CountFirst<T>(x: T, rest: seq<T>, y: T)
    ensures multiset([x] + rest)[y] == multiset(rest)[y] + (if x == y then 1 else 0)
  {
  }

  /** Filtering a list of candidates keeps the accepted ones, each as often as it was listed. */
  lemma {:induction false} FilteredBag(store: Store, filter: Option<Expr>, ids: seq<DocumentId>, id: DocumentId)
    requires WellKeyed(store) && ErrorFree(store, filter)
    ensures Filtered(store, filter, ids).Ok?
    ensures multiset(IdsOf(Filtered(store, filter, ids).value))[id]
            == if id in Matching(store, filter) then multiset(ids)[id] else 0
    ensures forall d :: d in Filtered(store, filter, ids).value ==> d.id in store && store[d.id] == d
    decreases |ids|
  {
    hide IsDocumentId;
    hide MatchesFilter;
    if ids != [] {
      FilteredBag(store, filter, ids[1..], id);
      CountFirst(ids[0], ids[1..], id);
      assert ids == [ids[0]] + ids[1..];
      var rest := Filtered(store, filter, ids[1..]).value;
      if ids[0] in store && MatchesFilter(filter, store[ids[0]]).value {
        assert IdsOf([store[ids[0]]] + rest) == [ids[0]] + IdsOf(rest);
        CountFirst(ids[0], IdsOf(rest), id);
      }
    }
  }

  // ---- sorting and paging ----

  /** The value a document is sorted by. */
  function SortKey(doc: Document, field: string): Value {
    match FieldValue(doc, field)
    case Some(v) => v
    case None => Null
  }

  /** The comparator handed to `sort_by`. */
  function Compare(sort: SortClause, a: Document, b: Document): Ordering {
    var o := Cmp(SortKey(a, sort.field), SortKey(b, sort.field));
    if sort.direction == Desc then Reverse(o) else o
  }

  function Leq(sort: SortClause): (Document, Document) -> bool {
    (a, b) => Compare(sort, a, b) != Greater
  }

  /** The documents sorted as the statement asks; `sort_by` is stable. */
  function SortedBy(sort: SortClause, docs: seq<Document>): seq<Document> {
    StableSort(Leq(sort), docs)
  }

  lemma CompareLaws(sort: SortClause, a: Document, b: Document, c: Document)
    requires ExactDocument(a) && ExactDocument(b) && ExactDocument(c)
    ensures Compare(sort, a, b) != Greater && Compare(sort, b, c) != Greater ==> Compare(sort, a, c) != Greater
    ensures Compare(sort, a, b) == Greater ==> Compare(sort, b, a) != Greater
  {
    FieldValueExact(a, sort.field);
    FieldValueExact(b, sort.field);
    FieldValueExact(c, sort.field);
    hide FieldValue;
    var (x, y, z) := (SortKey(a, sort.field), SortKey(b, sort.field), SortKey(c, sort.field));
    hide SortKey;
    TotalOrder(x, y, z);
    TotalOrder(y, z, x);
    TotalOrder(z, y, x);
    TotalOrder(x, z, y);
  }

  /** The comparator is a total preorder on these documents, which is what `sort_by` asks for. */
  ghost predicate Comparable(sort: SortClause, docs: seq<Document>) {
    PreorderOn(Leq(sort), iset d | d in docs)
  }

  lemma ExactComparable(sort: SortClause, docs: seq<Document>)
    requires forall d :: d in docs ==> ExactDocument(d)
    ensures Comparable(sort, docs)
  {
    hide IsDocumentId;
    hide ExactDocument;
    hide Compare;
    forall a, b, c | a in docs && b in docs && c in docs
      ensures Leq(sort)(a, b) || Leq(sort)(b, a)
      ensures Leq(sort)(a, b) && Leq(sort)(b, c) ==> Leq(sort)(a, c)
    {
      CompareLaws(sort, a, b, c);
    }
  }

  /** A sorted FIND returns an ordered permutation of the documents it found. */
  lemma SortedFind(sort: SortClause, docs: seq<Document>)
    requires Comparable(sort, docs)
    ensures multiset(SortedBy(sort, docs)) == multiset(docs)
    ensures forall i, j :: 0 <= i < j < |SortedBy(sort, docs)| ==>
              Compare(sort, SortedBy(sort, docs)[i], SortedBy(sort, docs)[j]) != Greater
  {
    hide IsDocumentId;
    hide Compare;
    var domain := iset d | d in docs;
    SortLaws(Leq(sort), domain, docs);
    var r := SortedBy(sort, docs);
    forall i, j | 0 <= i < j < |r|
      ensures Compare(sort, r[i], r[j]) != Greater
    {
      assert Leq(sort)(r[i], r[j]);
    }
  }

  /**
   What `sort_by` may do: sort stably if the comparator is a total preorder on the list; if it is not,
   leave the list in any order, or panic.
   */
  ghost predicate IsSorting(res: Result<seq<Document>>, sort: SortClause, docs: seq<Document>) {
    if Comparable(sort, docs) then res == Ok(SortedBy(sort, docs))
    else res == Err(Panicked) || (res.Ok? && multiset(res.value) == multiset(docs))
  }

  /** `sort_by`, as far as its contract says. */
  method SortResults(sort: SortClause, docs: seq<Document>) returns (res: Result<seq<Document>>)
    ensures IsSorting(res, sort, docs)
  {
    StableSortPermutes(Leq(sort), docs);
    hide Leq;
    return Ok(SortedBy(sort, docs));
  }

  /** OFFSET and LIMIT on the finished list. */
  function Page<T>(results: seq<T>, limit: Option<nat>, offset: Option<nat>): seq<T> {
    var off := if offset.Some? then offset.value else 0;
    if off >= |results| then []
    else
      var end := if limit.Some? && off + limit.value < |results| then off + limit.value else |results|;
      results[off..end]
  }

  /** The pages of size `size` from `offset` on, up to and including the last one. */
  function Pages<T>(results: seq<T>, size: nat, offset: nat): seq<T>
    requires size > 0
    decreases |results| - offset
  {
    if offset >= |results| then []
    else Page(results, Some(size), Some(offset)) + Pages(results, size, offset + size)
  }

  lemma OnePage<T>(results: seq<T>, size: nat, offset: nat)
    requires offset < |results|
    ensures Page(results, None, Some(offset)) == results[offset..]
    ensures Page(results, Some(size), Some(offset))
            == if offset + size < |results| then results[offset..offset + size] else results[offset..]
  {
  }

  lemma SliceThenRest<T>(s: seq<T>, i: nat, j: nat)
    requires i <= j <= |s|
    ensures s[i..j] + s[j..] == s[i..]
  {
  }

  lemma {:induction false} PagesFrom<T>(results: seq<T>, size: nat, offset: nat)
    requires size > 0
    ensures Pages(results, size, offset) == if offset < |results| then results[offset..] else []
    decreases |results| - offset
  {
    hide Page;
    if offset < |results| {
      OnePage(results, size, offset);
      PagesFrom(results, size, offset + size);
      var first := Page(results, Some(size), Some(offset));
      assert Pages(results, size, offset) == first + Pages(results, size, offset + size);
      hide Pages;
      if offset + size < |results| {
        SliceThenRest(results, offset, offset + size);
      } else {
        assert first + [] == first;
      }
    }
  }

  /** Successive pages of one fixed order make up the whole result. */
  lemma PagesConcatenate<T>(results: seq<T>, size: nat, offset: nat)
    requires size > 0
    ensures Pages(results, size, offset) == Page(results, None, Some(offset))
    ensures offset == 0 ==> Pages(results, size, offset) == results
  {
    PagesFrom(results, size, offset);
    hide Pages;
    assert results[0..] == results;
  }

  ghost predicate IsCandidateList(ids: seq<DocumentId>, plan: QueryPlan, mgr: Manager, store: Store) {
    multiset(ids) == CandidateBag(plan, mgr, store)
  }

  function Presented(docs: seq<Document>, sort: Option<SortClause>, limit: Option<nat>, offset: Option<nat>): seq<Document> {
    Page(if sort.Some? then SortedBy(sort.value, docs) else docs, limit, offset)
  }

  /** What a FIND may make of the documents it found: sorted as far as they can be compared, and paged. */
  ghost predicate IsPresentation(res: Result<seq<Document>>, found: seq<Document>,
                                 sort: Option<SortClause>, limit: Option<nat>, offset: Option<nat>)
  {
    if sort.None? || Comparable(sort.value, found) then res == Ok(Presented(found, sort, limit, offset))
    else res == Err(Panicked) || exists order: seq<Document> :: multiset(order) == multiset(found) && res == Ok(Page(order, limit, offset))
  }

  /** What a candidate list makes of a FIND: the filtered, sorted and paged documents, or the filter's first error. */
  ghost predicate IsAnswer(res: Result<seq<Document>>, store: Store, filter: Option<Expr>, ids: seq<DocumentId>,
                           sort: Option<SortClause>, limit: Option<nat>, offset: Option<nat>)
  {
    match Filtered(store, filter, ids)
    case Ok(found) => IsPresentation(res, found, sort, limit, offset)
    case Err(code) => res == Err(code)
  }

  /** `execute_find` on one collection and its indexes. */
  method Find(store: Store, mgr: Manager, find: Finder, filter: Option<Expr>, sort: Option<SortClause>, limit: Option<nat>, offset: Option<nat>)
    returns (res: Result<seq<Document>>)
    ensures Panics(Plan(filter, find), mgr) ==> res == Err(Panicked)
    ensures !Panics(Plan(filter, find), mgr) ==>
              exists ids :: IsCandidateList(ids, Plan(filter, find), mgr, store) && IsAnswer(res, store, filter, ids, sort, limit, offset)
  {
    hide IsDocumentId;
    hide CandidateBag;
    hide Filtered;
    hide Plan;
    hide Comparable;
    hide SortedBy;
    hide Page;
    var candidates := CandidateIds(Plan(filter, find), mgr, store);
    if candidates.Err? { return Err(candidates.code); }
    assert IsCandidateList(candidates.value, Plan(filter, find), mgr, store);
    var filtered := FilterCandidates(store, filter, candidates.value);
    if filtered.Err? {
      res := Err(filtered.code);
      assert IsAnswer(res, store, filter, candidates.value, sort, limit, offset);
      return;
    }
    var results := filtered;
    if sort.Some? { results := SortResults(sort.value, filtered.value); }
    res := if results.Ok? then Ok(Page(results.value, limit, offset)) else results;
    assert IsAnswer(res, store, filter, candidates.value, sort, limit, offset);
  }

  /** `execute_count`: always a scan; any evaluation error fails the statement. */
  method Count(store: Store, filter: Option<Expr>) returns (res: Result<nat>)
    ensures res.Ok? <==> ErrorFree(store, filter)
    ensures res.Ok? ==> res.value == |Matching(store, filter)|
  {
    hide IsDocumentId;
    hide MatchesFilter;
    var c := 0;
    var todo := store.Keys;
    ghost var counted: set<DocumentId> := {};
    while todo != {}
      invariant todo <= store.Keys
      invariant counted == set id | id in store && id !in todo && Accepted(filter, store[id])
      invariant c == |counted|
      invariant forall id :: id in store && id !in todo ==> MatchesFilter(filter, store[id]).Ok?
      decreases todo
    {
      var id :| id in todo;
      var accepted := MatchesFilter(filter, store[id]);
      if accepted.Err? { return Err(accepted.code); }
      todo := todo - {id};
      if accepted.value {
        c := c + 1;
        counted := counted + {id};
      }
    }
    assert counted == Matching(store, filter);
    return Ok(c);
  }

  /** `execute_exists`: stops at the first match. */
  method Exists(store: Store, filter: Option<Expr>) returns (res: Result<bool>)
    ensures ErrorFree(store, filter) ==> res == Ok(Matching(store, filter) != {})
    ensures res == Ok(true) ==> Matching(store, filter) != {}
    ensures res == Ok(false) ==> Matching(store, filter) == {} && ErrorFree(store, filter)
  {
    hide IsDocumentId;
    hide MatchesFilter;
    var todo := store.Keys;
    while todo != {}
      invariant todo <= store.Keys
      invariant forall id :: id in store && id !in todo ==> MatchesFilter(filter, store[id]) == Ok(false)
      decreases todo
    {
      var id :| id in todo;
      var accepted := MatchesFilter(filter, store[id]);
      if accepted.Err? { return Err(accepted.code); }
      if accepted.value {
        assert id in Matching(store, filter);
        return Ok(true);
      }
      todo := todo - {id};
    }
    assert Matching(store, filter) == {};
    return Ok(false);
  }

  // ---- the three statements agree ----

  /** On exact indexes a plan lists every candidate once. */
  lemma CandidatesOnce(plan: QueryPlan, mgr: Manager, store: Store)
    requires ExactIndexes(mgr, store)
    requires plan.IndexRangeScan? && plan.name in mgr ==> mgr[plan.name].kind == OrderedKind
    ensures CandidateBag(plan, mgr, store) == multiset(Candidates(plan, mgr, store))
  {
    hide IsDocumentId;
    hide IndexKey;
    hide RangeTest;
    match plan {
      case IndexRangeScan(name, range) =>
        if name in mgr {
          var keys := KeyMap(store, mgr[name].field);
          SelectGroups(keys, RangeTest(range));
          var some := SelectKeys(keys, RangeTest(range));
          assert mgr[name].entries == Group(keys);
          BagOfGroup(some);
          AllIdsOfGroup(some);
        }
      case _ =>
    }
  }

  lemma AllIdsOfGroup(keys: map<DocumentId, Value>)
    ensures AllIds(Group(keys)) == keys.Keys
  {
    hide IsDocumentId;
    var g := Group(keys);
    forall id | id in keys.Keys ensures id in AllIds(g) {
      GroupAt(keys, keys[id]);
      assert keys[id] in g && id in g[keys[id]];
    }
    forall id | id in AllIds(g) ensures id in keys.Keys {
      var k :| k in g && id in g[k];
      GroupAt(keys, k);
    }
  }

  /** The planner's kinds are the indexes' kinds, so a range is only planned on an ordered index. */
  lemma PlannedKind(filter: Option<Expr>, find: Finder, mgr: Manager)
    requires Consistent(find, mgr)
    ensures var plan := Plan(filter, find); plan.IndexRangeScan? && plan.name in mgr ==> mgr[plan.name].kind == OrderedKind
  {
  }

  /** The conditions under which an index may stand in for a scan. */
  ghost predicate SafeToPlan(filter: Option<Expr>, find: Finder, store: Store) {
    Plan(filter, find) != SeqScan ==>
      && Indexable(filter.value) && ExactLiterals(filter.value) && !IsIdPath(FieldOf(filter.value))
      && (AcceptsMissing(filter.value) ==> WithField(store, FieldOf(filter.value)) == store.Keys)
  }

  /** The matching documents themselves, each once, in some order. */
  ghost predicate IsMatchList(docs: seq<Document>, store: Store, filter: Option<Expr>) {
    && multiset(IdsOf(docs)) == multiset(Matching(store, filter)) && |docs| == |Matching(store, filter)|
    && forall d :: d in docs ==> d.id in store && store[d.id] == d
  }

  lemma MatchesComparable(store: Store, filter: Option<Expr>, docs: seq<Document>, sort: Option<SortClause>)
    requires ExactStore(store) && IsMatchList(docs, store, filter)
    ensures sort.Some? ==> Comparable(sort.value, docs)
  {
    hide IsDocumentId;
    hide ExactDocument;
    hide Matching;
    if sort.Some? { ExactComparable(sort.value, docs); }
  }

  /**
   FIND through the chosen plan returns the same documents as a scan, each exactly once; hence COUNT,
   which always scans, is the number of documents found, and EXISTS says whether there are any.
   */
  lemma FindAgreesWithScan(store: Store, mgr: Manager, find: Finder, filter: Option<Expr>, ids: seq<DocumentId>)
    requires WellKeyed(store) && ExactStore(store) && ExactIndexes(mgr, store) && Consistent(find, mgr)
    requires ErrorFree(store, filter) && SafeToPlan(filter, find, store)
    requires IsCandidateList(ids, Plan(filter, find), mgr, store)
    ensures Filtered(store, filter, ids).Ok? && IsMatchList(Filtered(store, filter, ids).value, store, filter)
  {
    hide IsDocumentId;
    hide MatchesFilter;
    hide Plan;
    hide CandidateBag;
    hide Candidates;
    hide Filtered;
    hide ExactStore;
    hide ExactIndexes;
    hide Consistent;
    var plan := Plan(filter, find);
    PlannedKind(filter, find, mgr);
    CandidatesOnce(plan, mgr, store);
    PlanFindsMatching(store, mgr, find, filter);
    FilteredOk(store, filter, ids);
    var found := Filtered(store, filter, ids).value;
    forall d | d in found ensures d.id in store && store[d.id] == d {
      FilteredBag(store, filter, ids, d.id);
    }
    forall id: DocumentId
      ensures multiset(IdsOf(found))[id] == multiset(Matching(store, filter))[id]
    {
      FilteredBag(store, filter, ids, id);
      if id in Matching(store, filter) {
        assert id in Found(plan, mgr, store, filter);
        assert id in Candidates(plan, mgr, store);
      }
    }
    assert multiset(IdsOf(found)) == multiset(Matching(store, filter));
    assert |multiset(IdsOf(found))| == |IdsOf(found)|;
  }

  lemma PlanFindsMatching(store: Store, mgr: Manager, find: Finder, filter: Option<Expr>)
    requires ExactStore(store) && ExactIndexes(mgr, store) && Consistent(find, mgr)
    requires SafeToPlan(filter, find, store)
    ensures Found(Plan(filter, find), mgr, store, filter) == Matching(store, filter)
  {
    hide IsDocumentId;
    hide MatchesFilter;
    if Plan(filter, find) != SeqScan {
      PlanPreservesMeaning(filter.value, find, mgr, store);
    }
  }
}
