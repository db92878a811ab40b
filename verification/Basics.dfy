/** Small values and sequence facts that several components share. */
module Basics {
  datatype Option<T> = None | Some(value: T)

  function Min(x: nat, y: nat): nat { if x < y then x else y }

  function Max(x: nat, y: nat): nat { if x < y then y else x }

  /** Subtraction that stops at zero. */
  function Monus(x: nat, y: nat): nat { if x < y then 0 else x - y }

  /** Lines are numbered from 1; 0 stands for a side of a row that bears no line. */
  function Bears(line: nat): nat { if line != 0 then 1 else 0 }

  function Repeat<T>(value: T, count: nat): (r: seq<T>)
    ensures |r| == count && forall k | 0 <= k < count :: r[k] == value
  {
    if count == 0 then [] else Repeat(value, count - 1) + [value]
  }

  /** The part of a sequence from `a` to before `b`, empty where there is none. */
  function Slice<T>(xs: seq<T>, a: nat, b: nat): seq<T> {
    if a <= b <= |xs| then xs[a..b] else []
  }

  lemma {:induction false} Associate<T>(a: seq<T>, b: seq<T>, c: seq<T>)
    ensures a + b + c == a + (b + c)
  {
  }

  lemma {:induction false} AssociateThree<T>(a: seq<T>, b: seq<T>, c: seq<T>, d: seq<T>)
    ensures a + b + c + d == a + (b + c + d)
  {
  }

  lemma {:induction false} SliceAround<T>(xs: seq<T>, a: nat, k: nat, b: nat)
    requires a <= k < b <= |xs|
    ensures xs[a..b] == xs[a..k] + [xs[k]] + xs[k + 1..b]
  {
  }

  lemma {:induction false} DropThenAppend<T>(xs: seq<T>, x: T, begin: nat)
    requires begin <= |xs|
    ensures (xs + [x])[begin..] == xs[begin..] + [x]
  {
  }

  lemma {:induction false} TakeAndDrop<T>(xs: seq<T>, k: nat)
    requires k <= |xs|
    ensures xs[..k] + xs[k..] == xs
  {
  }

  lemma {:induction false} SliceSplits<T>(xs: seq<T>, a: nat, b: nat, c: nat)
    requires a <= b <= c <= |xs|
    ensures xs[a..c] == xs[a..b] + xs[b..c]
  {
  }

  lemma {:induction false} SliceOneMore<T>(xs: seq<T>, begin: nat, end: nat)
    requires begin <= end < |xs|
    ensures xs[begin..end + 1] == xs[begin..end] + [xs[end]]
  {
  }

  // ----- Elements and repetitions -----

  ghost predicate Distinct<T>(xs: seq<T>) {
    forall i, k | 0 <= i < k < |xs| :: xs[i] != xs[k]
  }

  lemma {:induction false} DistinctOccursOnce<T>(xs: seq<T>, x: T)
    requires Distinct(xs)
    ensures multiset(xs)[x] == if x in xs then 1 else 0
  {
    if xs != [] {
      DistinctOccursOnce(xs[1..], x);
      assert xs == [xs[0]] + xs[1..];
    }
  }

  /** Sequences without repetitions that have the same elements are permutations. */
  lemma {:induction false} DistinctSameElements<T(!new)>(xs: seq<T>, ys: seq<T>)
    requires Distinct(xs) && Distinct(ys) && forall x :: x in xs <==> x in ys
    ensures multiset(xs) == multiset(ys)
  {
    forall x ensures multiset(xs)[x] == multiset(ys)[x] {
      DistinctOccursOnce(xs, x);
      DistinctOccursOnce(ys, x);
    }
  }

  /** A permutation of a sequence without repetitions has none. */
  lemma {:induction false} DistinctPermutation<T>(xs: seq<T>, ys: seq<T>)
    requires multiset(xs) == multiset(ys) && Distinct(xs)
    ensures Distinct(ys)
  {
    forall i, k | 0 <= i < k < |ys| ensures ys[i] != ys[k] {
      DistinctOccursOnce(xs, ys[k]);
      assert ys == ys[..k] + [ys[k]] + ys[k + 1..];
      assert ys[i] in ys[..k];
    }
  }

  lemma {:induction false} PermutationKeepsElements<T>(xs: seq<T>, ys: seq<T>)
    requires multiset(xs) == multiset(ys)
    ensures forall x | x in xs :: x in ys
  {
    forall x | x in xs ensures x in ys {
      assert x in multiset(ys);
    }
  }
}
