/** `Array.prototype.sort` with the comparator `b.score - a.score`: descending and stable (ECMA-262 section 23.1.3.30). */
module Sorting {

  ghost predicate NonIncreasing<T>(xs: seq<T>, score: T -> real) {
    forall i, j :: 0 <= i < j < |xs| ==> score(xs[i]) >= score(xs[j])
  }

  function Insert<T>(x: T, xs: seq<T>, score: T -> real): seq<T> {
    if xs == [] then [x]
    else if score(xs[|xs| - 1]) >= score(x) then xs + [x]
    else Insert(x, xs[..|xs| - 1], score) + [xs[|xs| - 1]]
  }

  function SortDescending<T>(xs: seq<T>, score: T -> real): seq<T> {
    if xs == [] then [] else Insert(xs[|xs| - 1], SortDescending(xs[..|xs| - 1], score), score)
  }

  /** The elements with score `v`, in order. */
  function Tied<T>(xs: seq<T>, score: T -> real, v: real): seq<T> {
    if xs == [] then []
    else Tied(xs[..|xs| - 1], score, v) + if score(xs[|xs| - 1]) == v then [xs[|xs| - 1]] else []
  }

  lemma {:induction false} InsertPermutes<T>(x: T, xs: seq<T>, score: T -> real)
    ensures multiset(Insert(x, xs, score)) == multiset(xs) + multiset{x}
  {
    if xs != [] {
      var n := |xs| - 1;
      InsertPermutes(x, xs[..n], score);
      assert xs == xs[..n] + [xs[n]];
    }
  }

  lemma {:induction false} InsertSorts<T>(x: T, xs: seq<T>, score: T -> real)
    requires NonIncreasing(xs, score)
    ensures NonIncreasing(Insert(x, xs, score), score)
  {
    if xs != [] && score(xs[|xs| - 1]) < score(x) {
      var n := |xs| - 1;
      var r := Insert(x, xs[..n], score);
      assert Insert(x, xs, score) == r + [xs[n]];
      hide Insert;
      InsertSorts(x, xs[..n], score);
      InsertPermutes(x, xs[..n], score);
      forall i | 0 <= i < |r| ensures score(r[i]) >= score(xs[n]) {
        assert r[i] in multiset(r);
        assert r[i] == x || r[i] in xs[..n];
      }
    }
  }

  lemma {:induction false} InsertIsStable<T>(x: T, xs: seq<T>, score: T -> real, v: real)
    ensures Tied(Insert(x, xs, score), score, v) == Tied(xs, score, v) + if score(x) == v then [x] else []
  {
    if xs == [] {
      assert Tied([], score, v) == [];
      assert [x][..0] == [];
    } else {
      var n := |xs| - 1;
      var r := Insert(x, xs[..n], score);
      if score(xs[n]) >= score(x) {
        assert (xs + [x])[..|xs|] == xs;
      } else {
        InsertIsStable(x, xs[..n], score, v);
        assert (r + [xs[n]])[..|r|] == r;
      }
    }
  }

  lemma LastApart<T>(xs: seq<T>)
    requires xs != []
    ensures multiset(xs) == multiset(xs[..|xs| - 1]) + multiset{xs[|xs| - 1]}
  {
    assert xs == xs[..|xs| - 1] + [xs[|xs| - 1]];
  }

  lemma {:induction false} SortPermutes<T>(xs: seq<T>, score: T -> real)
    ensures multiset(SortDescending(xs, score)) == multiset(xs)
  {
    if xs != [] {
      hide Insert;
      var n := |xs| - 1;
      SortPermutes(xs[..n], score);
      InsertPermutes(xs[n], SortDescending(xs[..n], score), score);
      LastApart(xs);
      assert SortDescending(xs, score) == Insert(xs[n], SortDescending(xs[..n], score), score);
    }
  }

  lemma {:induction false} SortOrders<T>(xs: seq<T>, score: T -> real)
    ensures NonIncreasing(SortDescending(xs, score), score)
  {
    if xs != [] {
      hide Insert, NonIncreasing;
      SortOrders(xs[..|xs| - 1], score);
      InsertSorts(xs[|xs| - 1], SortDescending(xs[..|xs| - 1], score), score);
    }
  }

  lemma {:induction false} SortIsStable<T>(xs: seq<T>, score: T -> real, v: real)
    ensures Tied(SortDescending(xs, score), score, v) == Tied(xs, score, v)
  {
    if xs != [] {
      hide Insert;
      SortIsStable(xs[..|xs| - 1], score, v);
      InsertIsStable(xs[|xs| - 1], SortDescending(xs[..|xs| - 1], score), score, v);
    }
  }

  /** The sort orders, keeps every element, and leaves ties in their first order. */
  lemma SortDescendingSorts<T>(xs: seq<T>, score: T -> real)
    ensures NonIncreasing(SortDescending(xs, score), score)
    ensures multiset(SortDescending(xs, score)) == multiset(xs)
    ensures forall v :: Tied(SortDescending(xs, score), score, v) == Tied(xs, score, v)
  {
    hide SortDescending, NonIncreasing, Tied;
    SortPermutes(xs, score);
    SortOrders(xs, score);
    forall v ensures Tied(SortDescending(xs, score), score, v) == Tied(xs, score, v) {
      SortIsStable(xs, score, v);
    }
  }
}
