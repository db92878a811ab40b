/** Order-preserving pairings of equal elements of two sequences, and the two dynamic
    programs the compare engine scores them with.

    `Best` is the recurrence of the line and token aligners (the larger of the two skips and,
    on a match, the diagonal).  `Greedy` is the recurrence of the codepoint aligner and of the
    common-token measure, which takes the diagonal whenever it can.  Both are proved to be the
    maximum weight over all pairings, `Greedy` under the condition that equal elements weigh
    the same. */
module CommonSubsequence {
  import opened Basics

  /** The largest table that the token and codepoint programs fill. */
  const MAX_INTRALINE_LCS_MATRIX_CELLS := 65536

  type Pair = (nat, nat)

  /** `p` pairs equal elements of `a[i..]` and `b[j..]`, strictly ascending on both sides. */
  ghost predicate Pairing<T>(a: seq<T>, b: seq<T>, p: seq<Pair>, i: nat, j: nat)
    decreases |p|
  {
    p != [] ==>
      && i <= p[0].0 < |a|
      && j <= p[0].1 < |b|
      && a[p[0].0] == b[p[0].1]
      && Pairing(a, b, p[1..], p[0].0 + 1, p[0].1 + 1)
  }

  /** Total weight of the left elements that `p` pairs. */
  ghost function Weight(w: seq<nat>, p: seq<Pair>): nat {
    if p == [] then 0 else (if p[0].0 < |w| then w[p[0].0] else 0) + Weight(w, p[1..])
  }

  ghost predicate UniformWeights<T>(a: seq<T>, w: seq<nat>)
    requires |w| == |a|
  {
    forall i, k | 0 <= i < |a| && 0 <= k < |a| && a[i] == a[k] :: w[i] == w[k]
  }

  function Best<T(==)>(a: seq<T>, b: seq<T>, w: seq<nat>, i: nat, j: nat): nat
    requires |w| == |a| && i <= |a| && j <= |b|
    decreases |a| - i + |b| - j
  {
    if i == |a| || j == |b| then 0
    else
      var skip := Max(Best(a, b, w, i + 1, j), Best(a, b, w, i, j + 1));
      if a[i] == b[j] then Max(skip, w[i] + Best(a, b, w, i + 1, j + 1)) else skip
  }

  /** The walk back through a `Best` table: take a match when the diagonal is no worse than
      either skip, otherwise skip on the left unless the right is strictly better. */
  function Trace<T(==)>(a: seq<T>, b: seq<T>, w: seq<nat>, i: nat, j: nat): seq<Pair>
    requires |w| == |a| && i <= |a| && j <= |b|
    decreases |a| - i + |b| - j
  {
    if i == |a| || j == |b| then []
    else if TakesDiagonal(a, b, w, i, j) then [(i, j)] + Trace(a, b, w, i + 1, j + 1)
    else if Best(a, b, w, i + 1, j) >= Best(a, b, w, i, j + 1) then Trace(a, b, w, i + 1, j)
    else Trace(a, b, w, i, j + 1)
  }

  predicate TakesDiagonal<T(==)>(a: seq<T>, b: seq<T>, w: seq<nat>, i: nat, j: nat)
    requires |w| == |a| && i < |a| && j < |b|
  {
    var diagonal := w[i] + Best(a, b, w, i + 1, j + 1);
    && a[i] == b[j]
    && diagonal >= Best(a, b, w, i + 1, j)
    && diagonal >= Best(a, b, w, i, j + 1)
    && diagonal == Best(a, b, w, i, j)
  }

  lemma {:induction false} PairingWeaken<T>(a: seq<T>, b: seq<T>, p: seq<Pair>, i: nat, j: nat, i0: nat, j0: nat)
    requires Pairing(a, b, p, i, j) && i0 <= i && j0 <= j
    ensures Pairing(a, b, p, i0, j0)
  {
  }

  /** No pairing outweighs the table. */
  lemma {:induction false} BestIsUpperBound<T>(a: seq<T>, b: seq<T>, w: seq<nat>, p: seq<Pair>, i: nat, j: nat)
    requires |w| == |a| && i <= |a| && j <= |b|
    requires Pairing(a, b, p, i, j)
    ensures Weight(w, p) <= Best(a, b, w, i, j)
    decreases |a| - i + |b| - j
  {
    if p == [] {
    } else if p[0] == (i, j) {
      BestIsUpperBound(a, b, w, p[1..], i + 1, j + 1);
    } else if p[0].0 > i {
      BestIsUpperBound(a, b, w, p, i + 1, j);
    } else {
      BestIsUpperBound(a, b, w, p, i, j + 1);
    }
  }

  /** The walk back is a pairing, and it weighs exactly what the table says. */
  lemma {:induction false} TraceAttainsBest<T>(a: seq<T>, b: seq<T>, w: seq<nat>, i: nat, j: nat)
    requires |w| == |a| && i <= |a| && j <= |b|
    ensures Pairing(a, b, Trace(a, b, w, i, j), i, j)
    ensures Weight(w, Trace(a, b, w, i, j)) == Best(a, b, w, i, j)
    decreases |a| - i + |b| - j
  {
    if i == |a| || j == |b| {
    } else if TakesDiagonal(a, b, w, i, j) {
      TraceAttainsBest(a, b, w, i + 1, j + 1);
      assert Trace(a, b, w, i, j)[1..] == Trace(a, b, w, i + 1, j + 1);
    } else if Best(a, b, w, i + 1, j) >= Best(a, b, w, i, j + 1) {
      TraceAttainsBest(a, b, w, i + 1, j);
      PairingWeaken(a, b, Trace(a, b, w, i + 1, j), i + 1, j, i, j);
    } else {
      TraceAttainsBest(a, b, w, i, j + 1);
      PairingWeaken(a, b, Trace(a, b, w, i, j + 1), i, j + 1, i, j);
    }
  }

  ghost predicate SameMatches<S, T>(a: seq<S>, b: seq<S>, c: seq<T>, d: seq<T>) {
    && |a| == |c| && |b| == |d|
    && forall x, y | 0 <= x < |a| && 0 <= y < |b| :: a[x] == b[y] <==> c[x] == d[y]
  }

  /** Interned ids give the same table as the elements they stand for. */
  lemma {:induction false} BestRenamed<S, T>(a: seq<S>, b: seq<S>, c: seq<T>, d: seq<T>, w: seq<nat>, i: nat, j: nat)
    requires SameMatches(a, b, c, d) && |w| == |a| && i <= |a| && j <= |b|
    ensures Best(a, b, w, i, j) == Best(c, d, w, i, j)
    decreases |a| - i + |b| - j
  {
    if i < |a| && j < |b| {
      BestRenamed(a, b, c, d, w, i + 1, j);
      BestRenamed(a, b, c, d, w, i, j + 1);
      BestRenamed(a, b, c, d, w, i + 1, j + 1);
    }
  }

  function Greedy<T(==)>(a: seq<T>, b: seq<T>, w: seq<nat>, i: nat, j: nat): nat
    requires |w| == |a| && i <= |a| && j <= |b|
    decreases |a| - i + |b| - j
  {
    if i == |a| || j == |b| then 0
    else if a[i] == b[j] then w[i] + Greedy(a, b, w, i + 1, j + 1)
    else Max(Greedy(a, b, w, i + 1, j), Greedy(a, b, w, i, j + 1))
  }

  /** The walk back through a `Greedy` table: a match is always taken. */
  function GreedyTrace<T(==)>(a: seq<T>, b: seq<T>, w: seq<nat>, i: nat, j: nat): seq<Pair>
    requires |w| == |a| && i <= |a| && j <= |b|
    decreases |a| - i + |b| - j
  {
    if i == |a| || j == |b| then []
    else if a[i] == b[j] then [(i, j)] + GreedyTrace(a, b, w, i + 1, j + 1)
    else if Greedy(a, b, w, i + 1, j) >= Greedy(a, b, w, i, j + 1) then GreedyTrace(a, b, w, i + 1, j)
    else GreedyTrace(a, b, w, i, j + 1)
  }

  /** When equal elements weigh the same, a match at the corner is always worth taking. */
  lemma {:induction false} DiagonalDominates<T>(a: seq<T>, b: seq<T>, w: seq<nat>, i: nat, j: nat)
    requires |w| == |a| && i < |a| && j < |b| && a[i] == b[j]
    requires UniformWeights(a, w)
    ensures Best(a, b, w, i, j) == w[i] + Best(a, b, w, i + 1, j + 1)
  {
    var p := Trace(a, b, w, i, j);
    TraceAttainsBest(a, b, w, i, j);
    if p != [] {
      if p[0].0 == i || p[0].1 == j {
        PairingWeaken(a, b, p[1..], p[0].0 + 1, p[0].1 + 1, i + 1, j + 1);
        BestIsUpperBound(a, b, w, p[1..], i + 1, j + 1);
        assert w[p[0].0] == w[i];
      } else {
        PairingWeaken(a, b, p, p[0].0, p[0].1, i + 1, j + 1);
        BestIsUpperBound(a, b, w, p, i + 1, j + 1);
      }
    }
  }

  lemma {:induction false} GreedyIsBest<T>(a: seq<T>, b: seq<T>, w: seq<nat>, i: nat, j: nat)
    requires |w| == |a| && i <= |a| && j <= |b|
    requires UniformWeights(a, w)
    ensures Greedy(a, b, w, i, j) == Best(a, b, w, i, j)
    decreases |a| - i + |b| - j
  {
    if i < |a| && j < |b| {
      if a[i] == b[j] {
        GreedyIsBest(a, b, w, i + 1, j + 1);
        DiagonalDominates(a, b, w, i, j);
      } else {
        GreedyIsBest(a, b, w, i + 1, j);
        GreedyIsBest(a, b, w, i, j + 1);
      }
    }
  }

  /** The greedy walk is a pairing that weighs what its table says. */
  lemma {:induction false} GreedyTraceAttains<T>(a: seq<T>, b: seq<T>, w: seq<nat>, i: nat, j: nat)
    requires |w| == |a| && i <= |a| && j <= |b|
    ensures Pairing(a, b, GreedyTrace(a, b, w, i, j), i, j)
    ensures Weight(w, GreedyTrace(a, b, w, i, j)) == Greedy(a, b, w, i, j)
    decreases |a| - i + |b| - j
  {
    if i == |a| || j == |b| {
    } else if a[i] == b[j] {
      GreedyTraceAttains(a, b, w, i + 1, j + 1);
      assert GreedyTrace(a, b, w, i, j)[1..] == GreedyTrace(a, b, w, i + 1, j + 1);
    } else if Greedy(a, b, w, i + 1, j) >= Greedy(a, b, w, i, j + 1) {
      GreedyTraceAttains(a, b, w, i + 1, j);
      PairingWeaken(a, b, GreedyTrace(a, b, w, i + 1, j), i + 1, j, i, j);
    } else {
      GreedyTraceAttains(a, b, w, i, j + 1);
      PairingWeaken(a, b, GreedyTrace(a, b, w, i, j + 1), i, j + 1, i, j);
    }
  }

  ghost predicate RowIsBest<T>(a: seq<T>, b: seq<T>, w: seq<nat>, row: seq<nat>, x: nat) {
    && |w| == |a| && x <= |a|
    && |row| == |b| + 1
    && forall y | 0 <= y <= |b| :: row[y] == Best(a, b, w, x, y)
  }

  /** `row` holds row `x` of the `Greedy` table, in the columns from `from` to before `end`. */
  ghost predicate RowIsGreedy<T>(a: seq<T>, b: seq<T>, w: seq<nat>, row: seq<nat>, x: nat, from: nat, end: nat) {
    && |w| == |a| && x <= |a|
    && |row| == |b| + 1 && end <= |b| + 1
    && forall y | from <= y < end :: row[y] == Greedy(a, b, w, x, y)
  }

  /** The table of `Best`, row by row. */
  ghost predicate TableIsBest<T>(a: seq<T>, b: seq<T>, w: seq<nat>, dp: seq<seq<nat>>) {
    && |w| == |a| && |dp| == |a| + 1
    && forall x | 0 <= x <= |a| :: RowIsBest(a, b, w, dp[x], x)
  }

  lemma {:induction false} BestStep<T>(a: seq<T>, b: seq<T>, w: seq<nat>, i: nat, j: nat)
    requires |w| == |a| && i <= |a| && j <= |b|
    ensures Best(a, b, w, i, j)
         == if i == |a| || j == |b| then 0
            else
              var skip := Max(Best(a, b, w, i + 1, j), Best(a, b, w, i, j + 1));
              if a[i] == b[j] then Max(skip, w[i] + Best(a, b, w, i + 1, j + 1)) else skip
  {
  }

  /** One row, right to left, from the row below it. */
  method FillBestRow<T(==)>(a: seq<T>, b: seq<T>, w: seq<nat>, i: nat, next: seq<nat>) returns (row: seq<nat>)
    requires |w| == |a| && i < |a| && RowIsBest(a, b, w, next, i + 1)
    ensures RowIsBest(a, b, w, row, i)
  {
    hide Best;
    row := seq(|b| + 1, _ => 0);
    BestStep(a, b, w, i, |b|);
    var j := |b|;
    while j > 0
      invariant 0 <= j <= |b| && |row| == |b| + 1
      invariant forall y | j <= y <= |b| :: row[y] == Best(a, b, w, i, y)
    {
      j := j - 1;
      BestStep(a, b, w, i, j);
      var best := Max(next[j], row[j + 1]);
      if a[i] == b[j] {
        var diagonal := w[i] + next[j + 1];
        if diagonal > best {
          best := diagonal;
        }
      }
      row := row[j := best];
    }
  }

  /** The table the line and token aligners fill, last row first.  (The source keeps the rows
      end to end in one flat vector.) */
  method FillBest<T(==)>(a: seq<T>, b: seq<T>, w: seq<nat>) returns (dp: seq<seq<nat>>)
    requires |w| == |a|
    ensures TableIsBest(a, b, w, dp)
  {
    dp := seq(|a| + 1, _ => seq(|b| + 1, _ => 0));
    var i := |a|;
    while i > 0
      invariant 0 <= i <= |a| && |dp| == |a| + 1
      invariant forall x | i <= x <= |a| :: RowIsBest(a, b, w, dp[x], x)
    {
      i := i - 1;
      var row := FillBestRow(a, b, w, i, dp[i + 1]);
      dp := dp[i := row];
    }
  }
}
