/** Sorting by an order given as a predicate: the specification of the `std::sort` and
    `std::stable_sort` calls of the source.  The result is stable. */
module Sorting {
  ghost predicate TotalPreorder<T(!new)>(le: (T, T) -> bool) {
    && (forall x, y :: le(x, y) || le(y, x))
    && (forall x, y, z :: le(x, y) && le(y, z) ==> le(x, z))
  }

  ghost predicate TotalOrder<T(!new)>(le: (T, T) -> bool) {
    && TotalPreorder(le)
    && (forall x, y :: le(x, y) && le(y, x) ==> x == y)
  }

  ghost predicate Sorted<T>(xs: seq<T>, le: (T, T) -> bool) {
    forall i, k | 0 <= i < k < |xs| :: le(xs[i], xs[k])
  }

  function Insert<T>(x: T, xs: seq<T>, le: (T, T) -> bool): seq<T> {
    if xs == [] || le(x, xs[0]) then [x] + xs
    else [xs[0]] + Insert(x, xs[1..], le)
  }

  function SortBy<T>(xs: seq<T>, le: (T, T) -> bool): seq<T> {
    if xs == [] then [] else Insert(xs[0], SortBy(xs[1..], le), le)
  }

  lemma {:induction false} InsertAdds<T>(x: T, xs: seq<T>, le: (T, T) -> bool)
    ensures multiset(Insert(x, xs, le)) == multiset{x} + multiset(xs)
  {
    if xs != [] && !le(x, xs[0]) {
      InsertAdds(x, xs[1..], le);
      assert xs == [xs[0]] + xs[1..];
    }
  }

  lemma {:induction false} SortedCons<T>(x: T, xs: seq<T>, le: (T, T) -> bool)
    requires Sorted(xs, le) && forall k | 0 <= k < |xs| :: le(x, xs[k])
    ensures Sorted([x] + xs, le)
  {
  }

  lemma {:induction false} InsertSorts<T(!new)>(x: T, xs: seq<T>, le: (T, T) -> bool)
    requires TotalPreorder(le) && Sorted(xs, le)
    ensures Sorted(Insert(x, xs, le), le)
  {
    if xs == [] || le(x, xs[0]) {
      SortedCons(x, xs, le);
    } else {
      var rest := Insert(x, xs[1..], le);
      InsertSorts(x, xs[1..], le);
      InsertAdds(x, xs[1..], le);
      forall k | 0 <= k < |rest| ensures le(xs[0], rest[k]) {
        assert rest[k] in multiset(rest);
        assert rest[k] == x || rest[k] in xs[1..];
      }
      SortedCons(xs[0], rest, le);
    }
  }

  /** The result is sorted and a permutation of the input. */
  lemma {:induction false} SortBySorts<T(!new)>(xs: seq<T>, le: (T, T) -> bool)
    requires TotalPreorder(le)
    ensures Sorted(SortBy(xs, le), le)
    ensures multiset(SortBy(xs, le)) == multiset(xs)
    ensures |SortBy(xs, le)| == |xs|
  {
    if xs != [] {
      SortBySorts(xs[1..], le);
      InsertSorts(xs[0], SortBy(xs[1..], le), le);
      InsertAdds(xs[0], SortBy(xs[1..], le), le);
      assert xs == [xs[0]] + xs[1..];
      assert |multiset(SortBy(xs, le))| == |multiset(xs)|;
    }
  }

  lemma {:induction false} FirstIsLeast<T(!new)>(xs: seq<T>, x: T, le: (T, T) -> bool)
    requires TotalPreorder(le) && Sorted(xs, le) && x in multiset(xs)
    ensures xs != [] && le(xs[0], x)
  {
    var k :| 0 <= k < |xs| && xs[k] == x;
    assert le(x, x);
  }

  lemma {:induction false} WithoutFirst<T>(xs: seq<T>)
    requires xs != []
    ensures multiset(xs) == multiset{xs[0]} + multiset(xs[1..])
  {
    assert xs == [xs[0]] + xs[1..];
  }

  /** Under a total order the elements decide how they are sorted: each next one is the least that is left. */
  lemma {:induction false} ElementsDecideOrder<T(!new)>(xs: seq<T>, ys: seq<T>, le: (T, T) -> bool)
    requires TotalOrder(le) && Sorted(xs, le) && Sorted(ys, le)
    requires multiset(xs) == multiset(ys)
    ensures xs == ys
    decreases |xs|
  {
    if xs == [] {
      assert |multiset(ys)| == |multiset(xs)| == 0;
    } else {
      assert xs[0] in multiset(ys);
      FirstIsLeast(ys, xs[0], le);
      assert ys[0] in multiset(xs);
      FirstIsLeast(xs, ys[0], le);
      WithoutFirst(xs);
      WithoutFirst(ys);
      SameRest(multiset{xs[0]}, multiset(xs[1..]), multiset(ys[1..]));
      ElementsDecideOrder(xs[1..], ys[1..], le);
    }
  }

  lemma {:induction false} SameRest<T>(first: multiset<T>, a: multiset<T>, b: multiset<T>)
    requires first + a == first + b
    ensures a == b
  {
    assert (first + a) - first == a && (first + b) - first == b;
  }

  /** Sorting what is sorted already changes nothing. */
  lemma {:induction false} SortBySorted<T>(xs: seq<T>, le: (T, T) -> bool)
    requires Sorted(xs, le)
    ensures SortBy(xs, le) == xs
  {
    if xs != [] {
      SortBySorted(xs[1..], le);
    }
  }
}
