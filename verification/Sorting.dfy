/** A stable sort, as `slice::sort_by` performs it, and its laws. */
module Sorting {

  function InsertSorted<T>(leq: (T, T) -> bool, x: T, xs: seq<T>): seq<T> {
    if xs == [] then [x]
    else if leq(x, xs[0]) then [x] + xs
    else [xs[0]] + InsertSorted(leq, x, xs[1..])
  }

  function StableSort<T>(leq: (T, T) -> bool, xs: seq<T>): seq<T> {
    if xs == [] then [] else InsertSorted(leq, xs[0], StableSort(leq, xs[1..]))
  }

  predicate Ordered<T>(leq: (T, T) -> bool, xs: seq<T>) {
    forall i, j :: 0 <= i < j < |xs| ==> leq(xs[i], xs[j])
  }

  /** The comparison is a total preorder on the given elements. */
  ghost predicate PreorderOn<T(!new)>(leq: (T, T) -> bool, domain: iset<T>) {
    && (forall a, b :: a in domain && b in domain ==> leq(a, b) || leq(b, a))
    && (forall a, b, c :: a in domain && b in domain && c in domain && leq(a, b) && leq(b, c) ==> leq(a, c))
  }

  lemma {:induction false} InsertPermutes<T>(leq: (T, T) -> bool, x: T, xs: seq<T>)
    ensures multiset(InsertSorted(leq, x, xs)) == multiset{x} + multiset(xs)
  {
    if xs != [] {
      assert xs == [xs[0]] + xs[1..];
      if !leq(x, xs[0]) {
        InsertPermutes(leq, x, xs[1..]);
      }
    }
  }

  predicate AllBelow<T>(leq: (T, T) -> bool, x: T, xs: seq<T>) {
    forall i :: 0 <= i < |xs| ==> leq(x, xs[i])
  }

  lemma OrderedCons<T>(leq: (T, T) -> bool, x: T, xs: seq<T>)
    ensures Ordered(leq, [x] + xs) <==> AllBelow(leq, x, xs) && Ordered(leq, xs)
  {
    var r := [x] + xs;
    if Ordered(leq, r) {
      forall i | 0 <= i < |xs| ensures leq(x, xs[i]) { assert leq(r[0], r[i + 1]); }
      forall i, j | 0 <= i < j < |xs| ensures leq(xs[i], xs[j]) { assert leq(r[i + 1], r[j + 1]); }
    }
  }

  lemma {:induction false} InsertBelow<T>(leq: (T, T) -> bool, low: T, x: T, xs: seq<T>)
    requires leq(low, x) && AllBelow(leq, low, xs)
    ensures AllBelow(leq, low, InsertSorted(leq, x, xs))
  {
    if xs != [] && !leq(x, xs[0]) {
      InsertBelow(leq, low, x, xs[1..]);
    }
  }

  predicate Within<T>(xs: seq<T>, domain: iset<T>) {
    forall i :: 0 <= i < |xs| ==> xs[i] in domain
  }

  lemma {:induction false} InsertOrdered<T(!new)>(leq: (T, T) -> bool, domain: iset<T>, x: T, xs: seq<T>)
    requires PreorderOn(leq, domain) && x in domain && Within(xs, domain) && Ordered(leq, xs)
    ensures Ordered(leq, InsertSorted(leq, x, xs)) && Within(InsertSorted(leq, x, xs), domain)
  {
    if xs != [] {
      assert xs == [xs[0]] + xs[1..];
      OrderedCons(leq, xs[0], xs[1..]);
      if leq(x, xs[0]) {
        assert AllBelow(leq, x, xs);
        OrderedCons(leq, x, xs);
      } else {
        InsertOrdered(leq, domain, x, xs[1..]);
        InsertBelow(leq, xs[0], x, xs[1..]);
        OrderedCons(leq, xs[0], InsertSorted(leq, x, xs[1..]));
      }
    }
  }

  /** Whatever the comparison, sorting loses and adds nothing. */
  lemma {:induction false} StableSortPermutes<T>(leq: (T, T) -> bool, xs: seq<T>)
    ensures multiset(StableSort(leq, xs)) == multiset(xs)
  {
    if xs != [] {
      StableSortPermutes(leq, xs[1..]);
      InsertPermutes(leq, xs[0], StableSort(leq, xs[1..]));
      assert xs == [xs[0]] + xs[1..];
    }
  }

  /** Sorting returns an ordered permutation. */
  lemma {:induction false} SortLaws<T(!new)>(leq: (T, T) -> bool, domain: iset<T>, xs: seq<T>)
    requires PreorderOn(leq, domain) && Within(xs, domain)
    ensures Ordered(leq, StableSort(leq, xs)) && Within(StableSort(leq, xs), domain)
    ensures multiset(StableSort(leq, xs)) == multiset(xs)
  {
    StableSortPermutes(leq, xs);
    if xs != [] {
      SortLaws(leq, domain, xs[1..]);
      InsertOrdered(leq, domain, xs[0], StableSort(leq, xs[1..]));
    }
  }
}
