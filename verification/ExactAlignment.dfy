/** The exact line aligner: a weighted longest common subsequence over interned lines. */
module ExactAlignment {
  import opened Text
  import opened EditScript
  import opened CommonSubsequence

  // ----- Specification -----

  function Keys(lines: seq<Line>, ignoreWhitespace: bool): seq<Line> {
    seq(|lines|, k requires 0 <= k < |lines| => Key(lines[k], ignoreWhitespace))
  }

  /** How often `key` occurs among `keys`. */
  function Occurrences(keys: seq<Line>, key: Line): nat {
    if keys == [] then 0
    else Occurrences(keys[..|keys| - 1], key) + if keys[|keys| - 1] == key then 1 else 0
  }

  /** Informative bytes plus eight, divided by how often the line's class occurs; at least 1. */
  function LineMatchWeight(text: Line, significantTokenBytes: nat, occurrences: nat): (weight: nat)
    ensures weight >= 1
  {
    var informative := if significantTokenBytes > 0 then significantTokenBytes else if text == "" then 1 else 2;
    var rarity := if occurrences < 1 then 1 else occurrences;
    var weight := (informative + 8) / rarity;
    if weight < 1 then 1 else weight
  }

  function LineWeight(line: Line, keys: seq<Line>, ignoreWhitespace: bool): nat {
    LineMatchWeight(line, Tokenized(line).significantTokenBytes, Occurrences(keys, Key(line, ignoreWhitespace)))
  }

  /** The weight of every left line, given the keys of both sides' lines. */
  function WeightsOf(left: seq<Line>, keys: seq<Line>, ignoreWhitespace: bool): (w: seq<nat>)
    ensures |w| == |left|
  {
    if left == [] then []
    else WeightsOf(left[..|left| - 1], keys, ignoreWhitespace) + [LineWeight(left[|left| - 1], keys, ignoreWhitespace)]
  }

  function LineWeights(left: seq<Line>, right: seq<Line>, ignoreWhitespace: bool): (w: seq<nat>)
    ensures |w| == |left|
  {
    WeightsOf(left, Keys(left + right, ignoreWhitespace), ignoreWhitespace)
  }

  /** The operations of the walk back through the table over keys `a`, `b` from cell `(i, j)`. */
  function WalkOps<T(==)>(left: seq<Line>, right: seq<Line>, a: seq<T>, b: seq<T>, w: seq<nat>, i: nat,
                          j: nat): seq<DiffOp>
    requires |a| == |left| == |w| && |b| == |right| && i <= |a| && j <= |b|
    decreases |a| - i + |b| - j
  {
    if i == |a| || j == |b| then Deletes(left[i..]) + Inserts(right[j..])
    else if TakesDiagonal(a, b, w, i, j) then [Equal(left[i], right[j])] + WalkOps(left, right, a, b, w, i + 1, j + 1)
    else if Best(a, b, w, i + 1, j) >= Best(a, b, w, i, j + 1)
    then [Delete(left[i])] + WalkOps(left, right, a, b, w, i + 1, j)
    else [Insert(right[j])] + WalkOps(left, right, a, b, w, i, j + 1)
  }

  function ExactOps(left: seq<Line>, right: seq<Line>, ignoreWhitespace: bool): seq<DiffOp> {
    WalkOps(left, right, Keys(left, ignoreWhitespace), Keys(right, ignoreWhitespace),
            LineWeights(left, right, ignoreWhitespace), 0, 0)
  }

  /** Left and right line numbers that the Equal operations of a script pair, when its first
      operation stands at left line `i` and right line `j`. */
  function EqualPositions(ops: seq<DiffOp>, i: nat, j: nat): seq<Pair> {
    if ops == [] then []
    else match ops[0]
      case Equal(_, _) => [(i, j)] + EqualPositions(ops[1..], i + 1, j + 1)
      case Delete(_) => EqualPositions(ops[1..], i + 1, j)
      case Insert(_) => EqualPositions(ops[1..], i, j + 1)
  }

  // ----- Properties -----

  lemma {:induction false} ValidStep(op: DiffOp, rest: seq<DiffOp>, left: seq<Line>, i: nat, i1: nat,
                                     right: seq<Line>, j: nat, j1: nat, ignoreWhitespace: bool)
    requires i <= i1 <= |left| && j <= j1 <= |right|
    requires ValidScript(rest, left[i1..], right[j1..], ignoreWhitespace)
    requires LeftOf(op) == left[i..i1] && RightOf(op) == right[j..j1]
    requires op.Equal? ==> LinesEqualForDiff(op.text, op.rightText, ignoreWhitespace)
    ensures ValidScript([op] + rest, left[i..], right[j..], ignoreWhitespace)
  {
    hide ValidScript, LinesEqualForDiff;
    ValidCons(op, rest, left[i1..], right[j1..], ignoreWhitespace);
    assert left[i..] == left[i..i1] + left[i1..];
    assert right[j..] == right[j..j1] + right[j1..];
  }

  lemma {:induction false} WalkOpsValid(left: seq<Line>, right: seq<Line>, w: seq<nat>, ignoreWhitespace: bool,
                                        i: nat, j: nat)
    requires |left| == |w| && i <= |left| && j <= |right|
    ensures ValidScript(WalkOps(left, right, Keys(left, ignoreWhitespace), Keys(right, ignoreWhitespace), w, i, j),
                        left[i..], right[j..], ignoreWhitespace)
    decreases |left| - i + |right| - j
  {
    hide LeftLines, ValidScript, Deletes, Best, Key;
    var a, b := Keys(left, ignoreWhitespace), Keys(right, ignoreWhitespace);
    if i == |left| || j == |right| {
      DeletesValid(left[i..], ignoreWhitespace);
      InsertsValid(right[j..], ignoreWhitespace);
      ValidConcat(Deletes(left[i..]), left[i..], [], Inserts(right[j..]), [], right[j..], ignoreWhitespace);
      assert left[i..] + [] == left[i..] && [] + right[j..] == right[j..];
    } else if TakesDiagonal(a, b, w, i, j) {
      WalkOpsValid(left, right, w, ignoreWhitespace, i + 1, j + 1);
      KeyDecidesEquality(left[i], right[j], ignoreWhitespace);
      ValidStep(Equal(left[i], right[j]), WalkOps(left, right, a, b, w, i + 1, j + 1),
                left, i, i + 1, right, j, j + 1, ignoreWhitespace);
    } else if Best(a, b, w, i + 1, j) >= Best(a, b, w, i, j + 1) {
      WalkOpsValid(left, right, w, ignoreWhitespace, i + 1, j);
      ValidStep(Delete(left[i]), WalkOps(left, right, a, b, w, i + 1, j), left, i, i + 1, right, j, j,
                ignoreWhitespace);
    } else {
      WalkOpsValid(left, right, w, ignoreWhitespace, i, j + 1);
      ValidStep(Insert(right[j]), WalkOps(left, right, a, b, w, i, j + 1), left, i, i, right, j, j + 1,
                ignoreWhitespace);
    }
  }

  /** The exact aligner's script is a valid edit script. */
  lemma {:induction false} ExactOpsValid(left: seq<Line>, right: seq<Line>, ignoreWhitespace: bool)
    ensures ValidScript(ExactOps(left, right, ignoreWhitespace), left, right, ignoreWhitespace)
  {
    WalkOpsValid(left, right, LineWeights(left, right, ignoreWhitespace), ignoreWhitespace, 0, 0);
  }

  lemma {:induction false} NoEqualPositions(ops: seq<DiffOp>, i: nat, j: nat)
    requires forall k | 0 <= k < |ops| :: !ops[k].Equal?
    ensures EqualPositions(ops, i, j) == []
  {
    if ops != [] {
      NoEqualPositions(ops[1..], if ops[0].Delete? then i + 1 else i, if ops[0].Delete? then j else j + 1);
    }
  }

  lemma {:induction false} WalkOpsTrace<T>(left: seq<Line>, right: seq<Line>, a: seq<T>, b: seq<T>, w: seq<nat>,
                                           i: nat, j: nat)
    requires |a| == |left| == |w| && |b| == |right| && i <= |a| && j <= |b|
    ensures EqualPositions(WalkOps(left, right, a, b, w, i, j), i, j) == Trace(a, b, w, i, j)
    decreases |a| - i + |b| - j
  {
    hide Best, TakesDiagonal;
    if i == |a| || j == |b| {
      CoarseHasNoEqual(left[i..]);
      CoarseHasNoEqual(right[j..]);
      NoEqualPositions(WalkOps(left, right, a, b, w, i, j), i, j);
    } else if TakesDiagonal(a, b, w, i, j) {
      WalkOpsTrace(left, right, a, b, w, i + 1, j + 1);
    } else if Best(a, b, w, i + 1, j) >= Best(a, b, w, i, j + 1) {
      WalkOpsTrace(left, right, a, b, w, i + 1, j);
    } else {
      WalkOpsTrace(left, right, a, b, w, i, j + 1);
    }
  }

  /** The exact aligner is optimal for any weights: its Equal operations form an order-preserving
      pairing of equal lines, and no such pairing outweighs it. */
  lemma {:induction false} WalkIsOptimal(left: seq<Line>, right: seq<Line>, w: seq<nat>, ignoreWhitespace: bool,
                                         other: seq<Pair>)
    requires |w| == |left|
    requires Pairing(Keys(left, ignoreWhitespace), Keys(right, ignoreWhitespace), other, 0, 0)
    ensures var a, b := Keys(left, ignoreWhitespace), Keys(right, ignoreWhitespace);
            var chosen := EqualPositions(WalkOps(left, right, a, b, w, 0, 0), 0, 0);
            Pairing(a, b, chosen, 0, 0) && Weight(w, other) <= Weight(w, chosen)
  {
    var a, b := Keys(left, ignoreWhitespace), Keys(right, ignoreWhitespace);
    WalkOpsTrace(left, right, a, b, w, 0, 0);
    TraceAttainsBest(a, b, w, 0, 0);
    BestIsUpperBound(a, b, w, other, 0, 0);
  }

  /** The same for the weights the aligner really uses. */
  lemma {:induction false} ExactOpsOptimal(left: seq<Line>, right: seq<Line>, ignoreWhitespace: bool, other: seq<Pair>)
    requires Pairing(Keys(left, ignoreWhitespace), Keys(right, ignoreWhitespace), other, 0, 0)
    ensures var w := LineWeights(left, right, ignoreWhitespace);
            var chosen := EqualPositions(ExactOps(left, right, ignoreWhitespace), 0, 0);
            && Pairing(Keys(left, ignoreWhitespace), Keys(right, ignoreWhitespace), chosen, 0, 0)
            && Weight(w, other) <= Weight(w, chosen)
  {
    WalkIsOptimal(left, right, LineWeights(left, right, ignoreWhitespace), ignoreWhitespace, other);
  }

  /** Keys are equal exactly when the diff treats the lines as equal. */
  lemma {:induction false} KeyDecidesEquality(left: Line, right: Line, ignoreWhitespace: bool)
    ensures Key(left, ignoreWhitespace) == Key(right, ignoreWhitespace)
       <==> LinesEqualForDiff(left, right, ignoreWhitespace)
  {
  }

  // ----- The algorithm -----

  /** Ids handed out in first-occurrence order, with the number of lines that got each. */
  datatype Interned = Interned(keys: seq<Line>, occurrences: seq<nat>, ids: seq<nat>)

  /** `table` is what interning a prefix with keys `seen` leaves behind: every id was handed out, and none
      before all the smaller ones. */
  ghost predicate Interns(table: Interned, seen: seq<Line>) {
    && |table.occurrences| == |table.keys|
    && |table.ids| == |seen|
    && (forall x, y | 0 <= x < y < |table.keys| :: table.keys[x] != table.keys[y])
    && (forall k | 0 <= k < |seen| :: table.ids[k] < |table.keys| && table.keys[table.ids[k]] == seen[k])
    && (forall x | 0 <= x < |table.keys| :: table.occurrences[x] == Occurrences(seen, table.keys[x]))
    && (forall x | 0 <= x < |table.keys| :: HandedOut(table.ids, x, |seen|))
    && (forall k, x | 0 <= k < |seen| && 0 <= x < table.ids[k] :: HandedOut(table.ids, x, k))
  }

  /** One of the first `k` lines got id `x`. */
  ghost predicate HandedOut(ids: seq<nat>, x: nat, k: nat) {
    exists m :: 0 <= m < k && m < |ids| && ids[m] == x
  }

  lemma {:induction false} OccurrencesZero(keys: seq<Line>, key: Line)
    requires key !in keys
    ensures Occurrences(keys, key) == 0
  {
    if keys != [] {
      OccurrencesZero(keys[..|keys| - 1], key);
    }
  }

  /** Giving the next line id `id`, the next new one at most, keeps the order in which ids are handed out. */
  lemma {:induction false} StillHandedOut(table: Interned, seen: seq<Line>, id: nat, ids: seq<nat>)
    requires Interns(table, seen) && id <= |table.keys| && ids == table.ids + [id]
    ensures forall x | 0 <= x < |table.keys| :: HandedOut(ids, x, |ids|)
    ensures HandedOut(ids, id, |ids|)
    ensures forall k, x | 0 <= k < |ids| && 0 <= x < ids[k] :: HandedOut(ids, x, k)
  {
    var n := |seen|;
    assert ids[n] == id;
    forall x: nat | x < |table.keys| ensures HandedOut(ids, x, |ids|) {
      HandedOutLater(table.ids, id, x, n, |ids|);
    }
    forall k: nat, x: nat | k <= n && x < ids[k] ensures HandedOut(ids, x, k) {
      HandedOutLater(table.ids, id, x, k, k);
    }
  }

  lemma {:induction false} HandedOutLater(ids: seq<nat>, id: nat, x: nat, k: nat, later: nat)
    requires HandedOut(ids, x, k) && k <= later
    ensures HandedOut(ids + [id], x, later)
  {
    var m :| 0 <= m < k && m < |ids| && ids[m] == x;
    assert (ids + [id])[m] == x;
  }

  method Intern(table: Interned, ghost seen: seq<Line>, key: Line) returns (next: Interned)
    requires Interns(table, seen)
    ensures Interns(next, seen + [key])
  {
    assert (seen + [key])[..|seen|] == seen;
    var id := 0;
    while id < |table.keys| && table.keys[id] != key
      invariant 0 <= id <= |table.keys|
      invariant forall x | 0 <= x < id :: table.keys[x] != key
    {
      id := id + 1;
    }
    StillHandedOut(table, seen, id, table.ids + [id]);
    hide HandedOut;
    if id == |table.keys| {
      assert key !in seen;
      OccurrencesZero(seen, key);
      next := Interned(table.keys + [key], table.occurrences + [1], table.ids + [id]);
    } else {
      next := Interned(table.keys, table.occurrences[id := table.occurrences[id] + 1], table.ids + [id]);
    }
  }

  /** Interns both sides' lines, left first. */
  method AssignIds(left: seq<Line>, right: seq<Line>, ignoreWhitespace: bool) returns (table: Interned)
    ensures Interns(table, Keys(left + right, ignoreWhitespace))
  {
    table := Interned([], [], []);
    var lines := left + right;
    for k := 0 to |lines|
      invariant Interns(table, Keys(lines[..k], ignoreWhitespace))
    {
      assert Keys(lines[..k + 1], ignoreWhitespace)
          == Keys(lines[..k], ignoreWhitespace) + [Key(lines[k], ignoreWhitespace)];
      table := Intern(table, Keys(lines[..k], ignoreWhitespace), Key(lines[k], ignoreWhitespace));
    }
    assert lines[..|lines|] == lines;
  }

  method MatchWeights(left: seq<Line>, right: seq<Line>, ignoreWhitespace: bool, table: Interned) returns (w: seq<nat>)
    requires Interns(table, Keys(left + right, ignoreWhitespace))
    ensures w == LineWeights(left, right, ignoreWhitespace)
  {
    hide LineMatchWeight;
    ghost var keys := Keys(left + right, ignoreWhitespace);
    w := [];
    for i := 0 to |left|
      invariant w == WeightsOf(left[..i], keys, ignoreWhitespace)
    {
      assert left[..i + 1][..i] == left[..i];
      var bytes := SignificantTokenBytes(left[i]);
      assert table.keys[table.ids[i]] == keys[i] == Key(left[i], ignoreWhitespace);
      w := w + [LineMatchWeight(left[i], bytes, table.occurrences[table.ids[i]])];
    }
    assert left[..|left|] == left;
  }

  /** Equality of ids is equality of lines. */
  lemma {:induction false} IdsDecideEquality(table: Interned, left: seq<Line>, right: seq<Line>,
                                             ignoreWhitespace: bool, i: nat, j: nat)
    requires Interns(table, Keys(left + right, ignoreWhitespace)) && i < |left| && j < |right|
    ensures table.ids[..|left|][i] == table.ids[|left|..][j]
       <==> Keys(left, ignoreWhitespace)[i] == Keys(right, ignoreWhitespace)[j]
  {
    var seen := Keys(left + right, ignoreWhitespace);
    assert seen[i] == Keys(left, ignoreWhitespace)[i] && seen[|left| + j] == Keys(right, ignoreWhitespace)[j];
    assert table.keys[table.ids[i]] == seen[i] && table.keys[table.ids[|left| + j]] == seen[|left| + j];
  }

  lemma {:induction false} DiagonalRenamed<S, T>(a: seq<S>, b: seq<S>, c: seq<T>, d: seq<T>, w: seq<nat>,
                                                 i: nat, j: nat)
    requires SameMatches(a, b, c, d) && |w| == |a| && i < |a| && j < |b|
    ensures TakesDiagonal(a, b, w, i, j) == TakesDiagonal(c, d, w, i, j)
    ensures Best(a, b, w, i + 1, j) == Best(c, d, w, i + 1, j)
    ensures Best(a, b, w, i, j + 1) == Best(c, d, w, i, j + 1)
  {
    BestRenamed(a, b, c, d, w, i, j);
    BestRenamed(a, b, c, d, w, i + 1, j);
    BestRenamed(a, b, c, d, w, i, j + 1);
    BestRenamed(a, b, c, d, w, i + 1, j + 1);
  }

  lemma {:induction false} WalkOpsStep<T>(left: seq<Line>, right: seq<Line>, a: seq<T>, b: seq<T>, w: seq<nat>,
                                          i: nat, j: nat)
    requires |a| == |left| == |w| && |b| == |right| && i <= |a| && j <= |b|
    ensures WalkOps(left, right, a, b, w, i, j)
         == if i == |a| || j == |b| then Deletes(left[i..]) + Inserts(right[j..])
            else if TakesDiagonal(a, b, w, i, j)
            then [Equal(left[i], right[j])] + WalkOps(left, right, a, b, w, i + 1, j + 1)
            else if Best(a, b, w, i + 1, j) >= Best(a, b, w, i, j + 1)
            then [Delete(left[i])] + WalkOps(left, right, a, b, w, i + 1, j)
            else [Insert(right[j])] + WalkOps(left, right, a, b, w, i, j + 1)
  {
  }

  lemma {:induction false} WalkOpsRenamed<S, T>(left: seq<Line>, right: seq<Line>,
                                                a: seq<S>, b: seq<S>, c: seq<T>, d: seq<T>,
                                                w: seq<nat>, i: nat, j: nat)
    requires SameMatches(a, b, c, d) && |w| == |a| == |left| && |b| == |right| && i <= |a| && j <= |b|
    ensures WalkOps(left, right, a, b, w, i, j) == WalkOps(left, right, c, d, w, i, j)
    decreases |a| - i + |b| - j
  {
    assert |c| == |a| && |d| == |b|;
    WalkOpsStep(left, right, a, b, w, i, j);
    WalkOpsStep(left, right, c, d, w, i, j);
    hide Best, TakesDiagonal, SameMatches, WalkOps;
    if i < |a| && j < |b| {
      DiagonalRenamed(a, b, c, d, w, i, j);
      var takes, skipsLeft := TakesDiagonal(a, b, w, i, j), Best(a, b, w, i + 1, j) >= Best(a, b, w, i, j + 1);
      WalkOpsRenamed(left, right, a, b, c, d, w, if takes || skipsLeft then i + 1 else i,
                     if takes || !skipsLeft then j + 1 else j);
    }
  }

  /** One step of the walk back, with what has been emitted so far in front. */
  lemma {:induction false} WalkStep<T>(out: seq<DiffOp>, left: seq<Line>, right: seq<Line>, a: seq<T>, b: seq<T>,
                                       w: seq<nat>, i: nat, j: nat)
    requires |a| == |left| == |w| && |b| == |right| && i < |a| && j < |b|
    ensures out + WalkOps(left, right, a, b, w, i, j) ==
      if TakesDiagonal(a, b, w, i, j) then (out + [Equal(left[i], right[j])])
          + WalkOps(left, right, a, b, w, i + 1, j + 1)
      else if Best(a, b, w, i + 1, j) >= Best(a, b, w, i, j + 1)
      then (out + [Delete(left[i])]) + WalkOps(left, right, a, b, w, i + 1, j)
      else (out + [Insert(right[j])]) + WalkOps(left, right, a, b, w, i, j + 1)
  {
  }

  method AppendDeleteOps(lines: seq<Line>, begin: nat, end: nat, ops: seq<DiffOp>) returns (out: seq<DiffOp>)
    requires begin <= end <= |lines|
    ensures out == ops + Deletes(lines[begin..end])
  {
    out := ops;
    for i := begin to end
      invariant out == ops + Deletes(lines[begin..i])
    {
      assert lines[begin..i + 1][..i - begin] == lines[begin..i];
      out := out + [Delete(lines[i])];
    }
  }

  method AppendInsertOps(lines: seq<Line>, begin: nat, end: nat, ops: seq<DiffOp>) returns (out: seq<DiffOp>)
    requires begin <= end <= |lines|
    ensures out == ops + Inserts(lines[begin..end])
  {
    out := ops;
    for i := begin to end
      invariant out == ops + Inserts(lines[begin..i])
    {
      assert lines[begin..i + 1][..i - begin] == lines[begin..i];
      out := out + [Insert(lines[i])];
    }
  }

  method AppendExactLineOps(left: seq<Line>, right: seq<Line>, ignoreWhitespace: bool, ops: seq<DiffOp>)
    returns (out: seq<DiffOp>)
    ensures out == ops + ExactOps(left, right, ignoreWhitespace)
  {
    if left == [] && right == [] {
      return ops;
    }
    var table := AssignIds(left, right, ignoreWhitespace);
    var a, b := table.ids[..|left|], table.ids[|left|..];
    var w := MatchWeights(left, right, ignoreWhitespace, table);
    var dp := FillBest(a, b, w);
    ghost var all := WalkOps(left, right, a, b, w, 0, 0);
    assert all == ExactOps(left, right, ignoreWhitespace) by {
      forall x, y | 0 <= x < |a| && 0 <= y < |b|
        ensures a[x] == b[y] <==> Keys(left, ignoreWhitespace)[x] == Keys(right, ignoreWhitespace)[y]
      {
        IdsDecideEquality(table, left, right, ignoreWhitespace, x, y);
      }
      WalkOpsRenamed(left, right, a, b, Keys(left, ignoreWhitespace), Keys(right, ignoreWhitespace), w, 0, 0);
    }
    out := WalkBack(left, right, a, b, w, dp, ops);
  }

  method WalkBack(left: seq<Line>, right: seq<Line>, a: seq<nat>, b: seq<nat>, w: seq<nat>, dp: seq<seq<nat>>,
                  ops: seq<DiffOp>)
    returns (out: seq<DiffOp>)
    requires |a| == |left| == |w| && |b| == |right| && TableIsBest(a, b, w, dp)
    ensures out == ops + WalkOps(left, right, a, b, w, 0, 0)
  {
    hide Best;
    out := ops;
    var i, j := 0, 0;
    while i < |a| && j < |b|
      invariant i <= |a| && j <= |b|
      invariant out + WalkOps(left, right, a, b, w, i, j) == ops + WalkOps(left, right, a, b, w, 0, 0)
      decreases |a| - i + |b| - j
    {
      WalkStep(out, left, right, a, b, w, i, j);
      assert RowIsBest(a, b, w, dp[i], i) && RowIsBest(a, b, w, dp[i + 1], i + 1);
      if a[i] == b[j] {
        var diagonal := w[i] + dp[i + 1][j + 1];
        if diagonal >= dp[i + 1][j] && diagonal >= dp[i][j + 1] && dp[i][j] == diagonal {
          out := out + [Equal(left[i], right[j])];
          i, j := i + 1, j + 1;
          continue;
        }
      }
      if dp[i + 1][j] >= dp[i][j + 1] {
        out := out + [Delete(left[i])];
        i := i + 1;
      } else {
        out := out + [Insert(right[j])];
        j := j + 1;
      }
    }
    assert left[i..] == left[i..|left|] && right[j..] == right[j..|right|];
    out := AppendDeleteOps(left, i, |left|, out);
    out := AppendInsertOps(right, j, |right|, out);
  }
}
