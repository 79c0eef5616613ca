/** The stable insertion sort that stands for the standard library's. */
module Sorting {
  /** Puts `x` after everything that need not come after it. */
  function Place<T>(xs: seq<T>, x: T, before: (T, T) -> bool): seq<T> {
    if xs == [] || before(xs[|xs| - 1], x) then xs + [x]
    else Place(xs[..|xs| - 1], x, before) + [xs[|xs| - 1]]
  }

  function Sort<T>(xs: seq<T>, before: (T, T) -> bool): seq<T> {
    if xs == [] then [] else Place(Sort(xs[..|xs| - 1], before), xs[|xs| - 1], before)
  }

  predicate Ordered<T>(xs: seq<T>, before: (T, T) -> bool) {
    forall i, j :: 0 <= i < j < |xs| ==> before(xs[i], xs[j])
  }

  ghost predicate Preorder<T(!new)>(before: (T, T) -> bool) {
    && (forall a, b :: before(a, b) || before(b, a))
    && (forall a, b, c :: before(a, b) && before(b, c) ==> before(a, c))
  }

  lemma {:induction false} PlacePermutes<T>(xs: seq<T>, x: T, before: (T, T) -> bool)
    ensures multiset(Place(xs, x, before)) == multiset(xs) + multiset{x}
  {
    if xs != [] && !before(xs[|xs| - 1], x) {
      PlacePermutes(xs[..|xs| - 1], x, before);
      assert xs == xs[..|xs| - 1] + [xs[|xs| - 1]];
    }
  }

  lemma {:induction false} PlaceOrders<T(!new)>(xs: seq<T>, x: T, before: (T, T) -> bool)
    requires Preorder(before) && Ordered(xs, before)
    ensures Ordered(Place(xs, x, before), before)
  {
    var n := |xs| - 1;
    if xs != [] && !before(xs[n], x) {
      var r := Place(xs[..n], x, before);
      PlaceOrders(xs[..n], x, before);
      PlacePermutes(xs[..n], x, before);
      forall i | 0 <= i < |r| ensures before(r[i], xs[n]) { assert r[i] in multiset(r); }
    } else if xs != [] {
      forall i | 0 <= i < |xs| ensures before(xs[i], x) { assert i < n ==> before(xs[i], xs[n]); }
    }
  }

  lemma {:induction false} SortPermutes<T>(xs: seq<T>, before: (T, T) -> bool)
    ensures multiset(Sort(xs, before)) == multiset(xs) && |Sort(xs, before)| == |xs|
  {
    hide Place;
    if xs != [] {
      var n := |xs| - 1;
      SortPermutes(xs[..n], before);
      PlacePermutes(Sort(xs[..n], before), xs[n], before);
      assert xs == xs[..n] + [xs[n]];
    }
    assert |multiset(Sort(xs, before))| == |multiset(xs)|;
  }

  lemma {:induction false} SortOrders<T(!new)>(xs: seq<T>, before: (T, T) -> bool)
    requires Preorder(before)
    ensures Ordered(Sort(xs, before), before)
  {
    hide Place, Preorder;
    if xs != [] {
      SortOrders(xs[..|xs| - 1], before);
      PlaceOrders(Sort(xs[..|xs| - 1], before), xs[|xs| - 1], before);
    }
  }

  // ---- Stability ----

  /** The elements of one class, in list order. */
  function OfClass<T>(xs: seq<T>, c: T -> bool): seq<T> {
    if xs == [] then [] else OfClass(xs[..|xs| - 1], c) + (if c(xs[|xs| - 1]) then [xs[|xs| - 1]] else [])
  }

  lemma OfClassAppend<T>(xs: seq<T>, x: T, c: T -> bool)
    ensures OfClass(xs + [x], c) == OfClass(xs, c) + (if c(x) then [x] else [])
  {
    assert (xs + [x])[..|xs|] == xs;
  }

  /** Elements of one class need not come after each other. */
  ghost predicate IsClass<T(!new)>(before: (T, T) -> bool, c: T -> bool) {
    forall a, b :: c(a) && c(b) ==> before(a, b)
  }

  lemma {:induction false} PlaceKeepsOrder<T(!new)>(xs: seq<T>, x: T, before: (T, T) -> bool, c: T -> bool)
    requires IsClass(before, c)
    ensures OfClass(Place(xs, x, before), c) == OfClass(xs, c) + (if c(x) then [x] else [])
  {
    if xs == [] || before(xs[|xs| - 1], x) {
      OfClassAppend(xs, x, c);
    } else {
      var n := |xs| - 1;
      PlaceKeepsOrder(xs[..n], x, before, c);
      OfClassAppend(Place(xs[..n], x, before), xs[n], c);
    }
  }

  lemma {:induction false} SortKeepsOrder<T(!new)>(xs: seq<T>, before: (T, T) -> bool, c: T -> bool)
    requires IsClass(before, c)
    ensures OfClass(Sort(xs, before), c) == OfClass(xs, c)
  {
    hide Place, IsClass;
    if xs != [] {
      SortKeepsOrder(xs[..|xs| - 1], before, c);
      PlaceKeepsOrder(Sort(xs[..|xs| - 1], before), xs[|xs| - 1], before, c);
    }
  }
}
