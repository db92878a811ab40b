/** A batch of ranged edits that all refer to the same document: the order they are applied in, and the
    test that refuses overlapping ones. */
module EditBatch {
  import opened Basics
  import opened EditPositions
  import opened Sorting

  datatype Edit = Edit(range: Range, text: string)

  // ----- The order -----

  /** A normalized range with its place in the batch. */
  datatype Indexed = Indexed(range: Range, index: nat)

  /** Highest start first, then the longer range, then the later entry. */
  predicate NotAfter(a: Indexed, b: Indexed) {
    if a.range.start != b.range.start then Before(b.range.start, a.range.start)
    else if a.range.end != b.range.end then Before(b.range.end, a.range.end)
    else if a.index != b.index then b.index < a.index
    else true
  }

  lemma {:induction false} NotAfterIsTotal()
    ensures TotalOrder(NotAfter)
  {
  }

  function IndexRanges(ranges: seq<Range>): (r: seq<Indexed>)
    ensures |r| == |ranges| && forall k | 0 <= k < |r| :: r[k] == Indexed(Normalized(ranges[k]), k)
  {
    if ranges == [] then []
    else IndexRanges(ranges[..|ranges| - 1]) + [Indexed(Normalized(ranges[|ranges| - 1]), |ranges| - 1)]
  }

  function Indices(sorted: seq<Indexed>): (r: seq<nat>)
    ensures |r| == |sorted| && forall k | 0 <= k < |r| :: r[k] == sorted[k].index
  {
    if sorted == [] then [] else [sorted[0].index] + Indices(sorted[1..])
  }

  function Order(ranges: seq<Range>): seq<nat> {
    Indices(SortBy(IndexRanges(ranges), NotAfter))
  }

  predicate Precedes(ranges: seq<Range>, i: nat, j: nat)
    requires i < |ranges| && j < |ranges|
  {
    i != j && NotAfter(Indexed(Normalized(ranges[i]), i), Indexed(Normalized(ranges[j]), j))
  }

  /** `order` lists every index of the batch once, each preceding those after it. */
  ghost predicate IsOrder(ranges: seq<Range>, order: seq<nat>) {
    && |order| == |ranges|
    && (forall k | 0 <= k < |order| :: order[k] < |ranges|)
    && (forall k, m | 0 <= k < m < |order| :: Precedes(ranges, order[k], order[m]))
    && (forall i: nat | i < |ranges| :: i in order)
  }

  lemma {:induction false} SortedIndexed(ranges: seq<Range>) returns (sorted: seq<Indexed>)
    ensures sorted == SortBy(IndexRanges(ranges), NotAfter) && |sorted| == |ranges|
    ensures forall k | 0 <= k < |sorted| :: sorted[k] in IndexRanges(ranges)
    ensures forall i | 0 <= i < |ranges| :: IndexRanges(ranges)[i] in sorted
    ensures forall k, m | 0 <= k < m < |sorted| :: NotAfter(sorted[k], sorted[m]) && sorted[k] != sorted[m]
  {
    var indexed := IndexRanges(ranges);
    NotAfterIsTotal();
    SortBySorts(indexed, NotAfter);
    sorted := SortBy(indexed, NotAfter);
    forall k | 0 <= k < |sorted| ensures sorted[k] in indexed {
      assert sorted[k] in multiset(indexed);
    }
    forall i | 0 <= i < |ranges| ensures indexed[i] in sorted {
      assert indexed[i] in multiset(sorted);
    }
    DistinctPermutation(indexed, sorted);
  }

  lemma {:induction false} OrderIsOrder(ranges: seq<Range>)
    ensures IsOrder(ranges, Order(ranges))
  {
    var sorted := SortedIndexed(ranges);
    var order := Order(ranges);
    forall k | 0 <= k < |order| ensures order[k] < |ranges|
        && sorted[k] == Indexed(Normalized(ranges[order[k]]), order[k]) {
      assert sorted[k] in IndexRanges(ranges);
    }
    forall k, m | 0 <= k < m < |order| ensures Precedes(ranges, order[k], order[m]) {
      assert NotAfter(sorted[k], sorted[m]) && sorted[k] != sorted[m];
    }
    forall i: nat | i < |ranges| ensures i in order {
      assert IndexRanges(ranges)[i] in sorted;
      var k :| 0 <= k < |sorted| && sorted[k] == IndexRanges(ranges)[i];
      assert order[k] == i;
    }
  }

  /** The order of a batch, as the appliers ask for it. */
  method OrderEditsForApplication(ranges: seq<Range>) returns (order: seq<nat>)
    ensures order == Order(ranges) && IsOrder(ranges, order)
  {
    var indexed: seq<Indexed> := [];
    var i := 0;
    while i < |ranges|
      invariant i <= |ranges| && indexed == IndexRanges(ranges[..i])
    {
      assert ranges[..i + 1][..i] == ranges[..i];
      indexed := indexed + [Indexed(Normalized(ranges[i]), i)];
      i := i + 1;
    }
    assert ranges[..i] == ranges;
    order := Indices(SortBy(indexed, NotAfter));
    OrderIsOrder(ranges);
  }

  // ----- The overlap test -----

  /** Two ranges meet: each starts before the other ends.  An insertion meets only a range it is
      strictly inside. */
  predicate Meet(a: Range, b: Range) {
    Before(Normalized(a).start, Normalized(b).end) && Before(Normalized(b).start, Normalized(a).end)
  }

  ghost predicate AnyPairMeets(ranges: seq<Range>) {
    exists i, j :: 0 <= i < j < |ranges| && Meet(ranges[i], ranges[j])
  }

  /** What the test looks at: a range ends past the start of the one listed just before it. */
  predicate EndsPast(ranges: seq<Range>, order: seq<nat>, k: nat)
    requires 0 < k < |order| && order[k - 1] < |ranges| && order[k] < |ranges|
  {
    Before(Normalized(ranges[order[k - 1]]).start, Normalized(ranges[order[k]]).end)
  }

  /** The adjacent test decides the question about all pairs. */
  lemma {:induction false} AdjacentDecidesAllPairs(ranges: seq<Range>, order: seq<nat>)
    requires IsOrder(ranges, order)
    ensures AnyPairMeets(ranges) <==> exists k :: 0 < k < |order| && EndsPast(ranges, order, k)
  {
    if k :| 0 < k < |order| && EndsPast(ranges, order, k) {
      var i, j := order[k - 1], order[k];
      assert Precedes(ranges, i, j);
      assert Meet(ranges[i], ranges[j]) && Meet(ranges[j], ranges[i]);
      assert AnyPairMeets(ranges);
    }
    if AnyPairMeets(ranges) {
      var i: nat, j: nat :| 0 <= i < j < |ranges| && Meet(ranges[i], ranges[j]);
      assert i in order && j in order;
      var k :| 0 <= k < |order| && order[k] == i;
      var m :| 0 <= m < |order| && order[m] == j;
      MeetingPairShows(ranges, order, if k < m then k else m, if k < m then m else k);
    }
  }

  lemma {:induction false} MeetingPairShows(ranges: seq<Range>, order: seq<nat>, k: nat, m: nat)
    requires IsOrder(ranges, order) && k < m < |order|
    requires Meet(ranges[order[k]], ranges[order[m]])
    ensures EndsPast(ranges, order, m)
  {
    assert k == m - 1 || Precedes(ranges, order[k], order[m - 1]);
  }

  method EditsOverlap(ranges: seq<Range>, order: seq<nat>) returns (overlap: bool)
    requires IsOrder(ranges, order)
    ensures overlap <==> AnyPairMeets(ranges)
  {
    AdjacentDecidesAllPairs(ranges, order);
    var i := 1;
    while i < |order|
      invariant 1 <= i && (|order| > 0 ==> i <= |order|)
      invariant forall k | 0 < k < i && k < |order| :: !EndsPast(ranges, order, k)
    {
      var hi, lo := Normalized(ranges[order[i - 1]]), Normalized(ranges[order[i]]);
      if lo.end.line > hi.start.line || (lo.end.line == hi.start.line && lo.end.column > hi.start.column) {
        assert EndsPast(ranges, order, i);
        return true;
      }
      i := i + 1;
    }
    overlap := false;
  }
}
