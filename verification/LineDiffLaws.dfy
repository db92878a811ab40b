/** What a line diff is good for, whatever path it took: the equal ends are as long as they can be and kept,
    a middle that fits the table is aligned optimally, a larger one keeps every anchor, and the stretches
    between anchors are diffs of the same quality. */
module LineDiffLaws {
  import opened Text
  import opened EditScript
  import opened CommonSubsequence
  import opened ExactAlignment
  import opened UniqueAnchors
  import opened LineDiff
  import TextLaws

  // ----- The equal ends -----

  predicate FirstsDiffer(s: Slices, ignoreWhitespace: bool) {
    s.leftBegin < s.leftEnd && s.rightBegin < s.rightEnd ==>
      !LinesEqualForDiff(s.left[s.leftBegin], s.right[s.rightBegin], ignoreWhitespace)
  }

  predicate LastsDiffer(s: Slices, ignoreWhitespace: bool) {
    s.leftBegin < s.leftEnd && s.rightBegin < s.rightEnd ==>
      !LinesEqualForDiff(s.left[s.leftEnd - 1], s.right[s.rightEnd - 1], ignoreWhitespace)
  }

  lemma {:induction false} PrefixIsMaximal(s: Slices, ignoreWhitespace: bool)
    ensures FirstsDiffer(TrimPrefix(s, ignoreWhitespace), ignoreWhitespace)
    decreases s.leftEnd - s.leftBegin
  {
    hide LinesEqualForDiff;
    TrimPrefixStep(s, ignoreWhitespace);
    if s.leftBegin < s.leftEnd && s.rightBegin < s.rightEnd
       && LinesEqualForDiff(s.left[s.leftBegin], s.right[s.rightBegin], ignoreWhitespace) {
      PrefixIsMaximal(s.(leftBegin := s.leftBegin + 1, rightBegin := s.rightBegin + 1), ignoreWhitespace);
    }
  }

  lemma {:induction false} SuffixIsMaximal(s: Slices, ignoreWhitespace: bool)
    ensures LastsDiffer(TrimSuffix(s, ignoreWhitespace), ignoreWhitespace)
    decreases s.leftEnd - s.leftBegin
  {
    hide LinesEqualForDiff;
    TrimSuffixStep(s, ignoreWhitespace);
    if s.leftBegin < s.leftEnd && s.rightBegin < s.rightEnd
       && LinesEqualForDiff(s.left[s.leftEnd - 1], s.right[s.rightEnd - 1], ignoreWhitespace) {
      SuffixIsMaximal(s.(leftEnd := s.leftEnd - 1, rightEnd := s.rightEnd - 1), ignoreWhitespace);
    }
  }

  /** The ends that are trimmed are equal and as long as they can be: what is left begins and ends with lines
      that differ, unless a side is used up. */
  lemma {:induction false} TrimmedEndsAreMaximal(s: Slices, ignoreWhitespace: bool)
    ensures var m := Middle(s, ignoreWhitespace);
            && AllEqual(s.left[s.leftBegin..m.leftBegin], s.right[s.rightBegin..m.rightBegin], ignoreWhitespace)
            && AllEqual(s.left[m.leftEnd..s.leftEnd], s.right[m.rightEnd..s.rightEnd], ignoreWhitespace)
            && FirstsDiffer(m, ignoreWhitespace) && LastsDiffer(m, ignoreWhitespace)
  {
    hide LinesEqualForDiff, AllEqual;
    var t := TrimPrefix(s, ignoreWhitespace);
    TrimPrefixEqual(s, ignoreWhitespace);
    TrimSuffixEqual(t, ignoreWhitespace);
    PrefixIsMaximal(s, ignoreWhitespace);
    SuffixIsMaximal(t, ignoreWhitespace);
  }

  lemma {:induction false} NothingToTrim(s: Slices, ignoreWhitespace: bool)
    requires FirstsDiffer(s, ignoreWhitespace) && LastsDiffer(s, ignoreWhitespace)
    ensures Middle(s, ignoreWhitespace) == s
  {
    TrimPrefixStep(s, ignoreWhitespace);
    TrimSuffixStep(s, ignoreWhitespace);
  }

  /** The slices of the middle of a whole diff, as sequences of their own. */
  function MiddleSlices(left: seq<Line>, right: seq<Line>, ignoreWhitespace: bool): (s: Slices) {
    var m := Middle(Bounds(left, 0, |left|, right, 0, |right|), ignoreWhitespace);
    Bounds(left[m.leftBegin..m.leftEnd], 0, m.leftEnd - m.leftBegin,
           right[m.rightBegin..m.rightEnd], 0, m.rightEnd - m.rightBegin)
  }

  lemma {:induction false} MiddleSlicesUntrimmed(left: seq<Line>, right: seq<Line>, ignoreWhitespace: bool)
    ensures var s := MiddleSlices(left, right, ignoreWhitespace); Middle(s, ignoreWhitespace) == s
  {
    hide LinesEqualForDiff, Middle;
    TrimmedEndsAreMaximal(Bounds(left, 0, |left|, right, 0, |right|), ignoreWhitespace);
    NothingToTrim(MiddleSlices(left, right, ignoreWhitespace), ignoreWhitespace);
  }

  // ----- Where a script's Equal operations stand -----

  lemma {:induction false} PositionsConcat(a: seq<DiffOp>, b: seq<DiffOp>, i: nat, j: nat)
    ensures EqualPositions(a + b, i, j)
         == EqualPositions(a, i, j) + EqualPositions(b, i + |LeftLines(a)|, j + |RightLines(a)|)
  {
    if a == [] {
      assert a + b == b;
    } else {
      assert (a + b)[1..] == a[1..] + b;
      match a[0]
      case Equal(_, _) => PositionsConcat(a[1..], b, i + 1, j + 1);
      case Delete(_) => PositionsConcat(a[1..], b, i + 1, j);
      case Insert(_) => PositionsConcat(a[1..], b, i, j + 1);
    }
  }

  lemma {:induction false} PositionsShift(ops: seq<DiffOp>, i: nat, j: nat, x: nat, y: nat, p: Pair)
    requires p in EqualPositions(ops, i, j)
    ensures (p.0 + x, p.1 + y) in EqualPositions(ops, i + x, j + y)
  {
    match ops[0]
    case Equal(_, _) =>
      if p != (i, j) {
        PositionsShift(ops[1..], i + 1, j + 1, x, y, p);
      }
    case Delete(_) => PositionsShift(ops[1..], i + 1, j, x, y, p);
    case Insert(_) => PositionsShift(ops[1..], i, j + 1, x, y, p);
  }

  lemma {:induction false} NonEqualPositions(ops: seq<DiffOp>, n: nat, i: nat, j: nat)
    requires n <= |ops| && forall k | 0 <= k < n :: !ops[k].Equal?
    ensures EqualPositions(ops, i, j)
         == EqualPositions(ops[n..], i + |LeftLines(ops[..n])|, j + |RightLines(ops[..n])|)
  {
    hide EqualPositions, LeftLines, RightLines;
    assert ops == ops[..n] + ops[n..];
    PositionsConcat(ops[..n], ops[n..], i, j);
    NoEqualPositions(ops[..n], i, j);
  }

  lemma {:induction false} EqualPosition(ops: seq<DiffOp>, i: nat, j: nat)
    requires ops != [] && ops[0].Equal?
    ensures EqualPositions(ops, i, j) == [(i, j)] + EqualPositions(ops[1..], i + 1, j + 1)
  {
  }

  // ----- What a good script is -----

  /** The Equal operations pair equal lines in order, and no such pairing weighs more. */
  ghost predicate Optimal(ops: seq<DiffOp>, left: seq<Line>, right: seq<Line>, ignoreWhitespace: bool) {
    var a, b, w := Keys(left, ignoreWhitespace), Keys(right, ignoreWhitespace),
        LineWeights(left, right, ignoreWhitespace);
    var chosen := EqualPositions(ops, 0, 0);
    && Pairing(a, b, chosen, 0, 0)
    && forall other | Pairing(a, b, other, 0, 0) :: Weight(w, other) <= Weight(w, chosen)
  }

  /** `ops` begins and ends with the pairs of `s` outside `m`. */
  ghost predicate KeepsEnds(ops: seq<DiffOp>, s: Slices, m: Slices) {
    && s.leftBegin <= m.leftBegin && m.leftEnd <= s.leftEnd && s.rightBegin <= m.rightBegin && m.rightEnd <= s.rightEnd
    && m.left == s.left && m.right == s.right
    && m.leftBegin - s.leftBegin == m.rightBegin - s.rightBegin && s.leftEnd - m.leftEnd == s.rightEnd - m.rightEnd
    && var front, back := m.leftBegin - s.leftBegin, s.leftEnd - m.leftEnd;
    && front + back <= |ops|
    && PairsLines(ops[..front], s.left[s.leftBegin..m.leftBegin], s.right[s.rightBegin..m.rightBegin])
    && PairsLines(ops[|ops| - back..], s.left[m.leftEnd..s.leftEnd], s.right[m.rightEnd..s.rightEnd])
  }

  predicate PairsLines(ops: seq<DiffOp>, left: seq<Line>, right: seq<Line>) {
    |ops| == |left| == |right| && forall k | 0 <= k < |ops| :: ops[k] == Equal(left[k], right[k])
  }

  predicate FitsTable(m: Slices) {
    (m.leftEnd - m.leftBegin + 1) * (m.rightEnd - m.rightBegin + 1) <= 250_000
  }

  /** A script for `s`, at recursion level `depth`: the equal ends are kept and the middle is good. */
  ghost predicate GoodScript(ops: seq<DiffOp>, s: Slices, ignoreWhitespace: bool, depth: nat)
    requires depth <= 256
    decreases 256 - depth, 1
  {
    var m := Middle(s, ignoreWhitespace);
    KeepsEnds(ops, s, m)
    && GoodMiddle(ops[m.leftBegin - s.leftBegin..|ops| - (s.leftEnd - m.leftEnd)], m, ignoreWhitespace, depth)
  }

  /** A middle that fits the table is optimal; a larger one is made of its anchors and good scripts for the
      stretches in between; where there is no anchor, or the recursion is at its end, nothing is paired. */
  ghost predicate GoodMiddle(ops: seq<DiffOp>, m: Slices, ignoreWhitespace: bool, depth: nat)
    requires depth <= 256
    decreases 256 - depth, 0
  {
    if FitsTable(m) then
      Optimal(ops, m.left[m.leftBegin..m.leftEnd], m.right[m.rightBegin..m.rightEnd], ignoreWhitespace)
    else if depth == 256 || Anchors(m) == [] then forall k | 0 <= k < |ops| :: !ops[k].Equal?
    else
      var plan := WithAnchors(m);
      exists pieces: seq<seq<DiffOp>> ::
        && |pieces| == |plan.anchors| + 1
        && ops == JoinAtAnchors(AnchorPairs(plan), pieces, 0)
        && forall k | 0 <= k <= |plan.anchors| :: GoodScript(pieces[k], Segment(plan, k), ignoreWhitespace, depth + 1)
  }

  // ----- Every script is good -----

  lemma {:induction false} ExactIsOptimal(left: seq<Line>, right: seq<Line>, ignoreWhitespace: bool)
    ensures Optimal(ExactOps(left, right, ignoreWhitespace), left, right, ignoreWhitespace)
  {
    hide ExactOps, Keys, LineWeights;
    ExactOpsOptimal(left, right, ignoreWhitespace, []);
    var a, b, w := Keys(left, ignoreWhitespace), Keys(right, ignoreWhitespace),
        LineWeights(left, right, ignoreWhitespace);
    forall other | Pairing(a, b, other, 0, 0)
      ensures Weight(w, other) <= Weight(w, EqualPositions(ExactOps(left, right, ignoreWhitespace), 0, 0)) {
      ExactOpsOptimal(left, right, ignoreWhitespace, other);
    }
  }

  lemma {:induction false} CoarsePairsNothing(m: Slices)
    ensures forall k | 0 <= k < |CoarseOps(m)| :: !CoarseOps(m)[k].Equal?
  {
    CoarseHasNoEqual(m.left[m.leftBegin..m.leftEnd]);
    CoarseHasNoEqual(m.right[m.rightBegin..m.rightEnd]);
  }

  /** Where a side is empty nothing can be paired and there is no anchor. */
  lemma {:induction false} CoarseIsGood(m: Slices, ignoreWhitespace: bool, depth: nat)
    requires depth <= 256 && (m.leftBegin == m.leftEnd || m.rightBegin == m.rightEnd)
    ensures GoodMiddle(CoarseOps(m), m, ignoreWhitespace, depth)
  {
    CoarsePairsNothing(m);
    NoEqualPositions(CoarseOps(m), 0, 0);
    if Anchors(m) != [] {
      AnchorIsInside(m, 0);
    }
  }

  lemma {:induction false} PairsAreEquals(left: seq<Line>, right: seq<Line>)
    requires |left| == |right|
    ensures PairsLines(EqualPairs(left, right), left, right)
  {
    if left != [] {
      PairsAreEquals(left[..|left| - 1], right[..|left| - 1]);
    }
  }

  lemma {:induction false} BetweenKeepsEnds(s: Slices, m: Slices, middle: seq<DiffOp>)
    requires m.left == s.left && m.right == s.right
    requires s.leftBegin <= m.leftBegin && m.leftEnd <= s.leftEnd
    requires s.rightBegin <= m.rightBegin && m.rightEnd <= s.rightEnd
    requires m.leftBegin - s.leftBegin == m.rightBegin - s.rightBegin
    requires s.leftEnd - m.leftEnd == s.rightEnd - m.rightEnd
    ensures var ops := BetweenEqualEnds(s, m, middle);
            && KeepsEnds(ops, s, m)
            && ops[m.leftBegin - s.leftBegin..|ops| - (s.leftEnd - m.leftEnd)] == middle
  {
    var front := EqualPairs(s.left[s.leftBegin..m.leftBegin], s.right[s.rightBegin..m.rightBegin]);
    var back := EqualPairs(s.left[m.leftEnd..s.leftEnd], s.right[m.rightEnd..s.rightEnd]);
    PairsAreEquals(s.left[s.leftBegin..m.leftBegin], s.right[s.rightBegin..m.rightBegin]);
    PairsAreEquals(s.left[m.leftEnd..s.leftEnd], s.right[m.rightEnd..s.rightEnd]);
    assert |front| == m.leftBegin - s.leftBegin && |back| == s.leftEnd - m.leftEnd;
    hide PairsLines, EqualPairs;
    ThreePieces(front, middle, back);
  }

  lemma {:induction false} ThreePieces<T>(a: seq<T>, b: seq<T>, c: seq<T>)
    ensures var all := a + b + c;
            all[..|a|] == a && all[|a|..|all| - |c|] == b && all[|all| - |c|..] == c
  {
  }

  lemma {:induction false} AnchoredIsGood(s: Slices, ignoreWhitespace: bool, depth: nat)
    requires depth <= 256
    ensures GoodScript(AnchoredOps(s, ignoreWhitespace, depth), s, ignoreWhitespace, depth)
    decreases 256 - depth, 1
  {
    hide KeepsEnds, BetweenEqualEnds, GoodMiddle, AnchoredMiddleOps, Middle;
    var m := Middle(s, ignoreWhitespace);
    AnchoredMiddleIsGood(m, ignoreWhitespace, depth);
    BetweenKeepsEnds(s, m, AnchoredMiddleOps(m, ignoreWhitespace, depth));
  }

  lemma {:induction false} AnchoredMiddleIsGood(m: Slices, ignoreWhitespace: bool, depth: nat)
    requires depth <= 256
    ensures GoodMiddle(AnchoredMiddleOps(m, ignoreWhitespace, depth), m, ignoreWhitespace, depth)
    decreases 256 - depth, 0
  {
    hide Optimal, GoodScript, ExactOps, CoarseOps, Anchors, JoinAtAnchors, AnchorPairs, Segment;
    ProductExceedsIsProduct(m.leftEnd - m.leftBegin + 1, m.rightEnd - m.rightBegin + 1, MAX_LINE_LCS_MATRIX_CELLS);
    if m.leftBegin == m.leftEnd || m.rightBegin == m.rightEnd {
      CoarseIsGood(m, ignoreWhitespace, depth);
    } else if !TooBigForTable(m) {
      ExactIsOptimal(m.left[m.leftBegin..m.leftEnd], m.right[m.rightBegin..m.rightEnd], ignoreWhitespace);
    } else if depth >= 256 || Anchors(m) == [] {
      CoarsePairsNothing(m);
    } else {
      var plan := WithAnchors(m);
      var pieces := SegmentScripts(plan, ignoreWhitespace, depth + 1);
      forall k | 0 <= k <= |plan.anchors|
        ensures GoodScript(pieces[k], Segment(plan, k), ignoreWhitespace, depth + 1) {
        AnchoredIsGood(Segment(plan, k), ignoreWhitespace, depth + 1);
      }
    }
  }

  lemma {:induction false} DiffIsBetweenEnds(left: seq<Line>, right: seq<Line>, ignoreWhitespace: bool)
    ensures var s := Bounds(left, 0, |left|, right, 0, |right|);
            var m := Middle(s, ignoreWhitespace);
            LineDiffOps(left, right, ignoreWhitespace) == BetweenEqualEnds(s, m, TopMiddleOps(m, ignoreWhitespace))
  {
    hide Middle, BetweenEqualEnds, TopMiddleOps;
  }

  /** Every diff keeps its equal ends and has a good middle. */
  lemma {:induction false} LineDiffIsGood(left: seq<Line>, right: seq<Line>, ignoreWhitespace: bool)
    ensures var s := Bounds(left, 0, |left|, right, 0, |right|);
            var m := Middle(s, ignoreWhitespace);
            var ops := LineDiffOps(left, right, ignoreWhitespace);
            && KeepsEnds(ops, s, m)
            && GoodMiddle(ops[m.leftBegin..|ops| - (|left| - m.leftEnd)], MiddleSlices(left, right, ignoreWhitespace),
                          ignoreWhitespace, 0)
  {
    hide KeepsEnds, BetweenEqualEnds, GoodMiddle, TopMiddleOps, Middle, MiddleSlices, LineDiffOps;
    var s := Bounds(left, 0, |left|, right, 0, |right|);
    var m := Middle(s, ignoreWhitespace);
    DiffIsBetweenEnds(left, right, ignoreWhitespace);
    TopMiddleIsGood(left, right, ignoreWhitespace);
    BetweenKeepsEnds(s, m, TopMiddleOps(m, ignoreWhitespace));
  }

  lemma {:induction false} TopMiddleIs(left: seq<Line>, right: seq<Line>, ignoreWhitespace: bool)
    ensures var m := Middle(Bounds(left, 0, |left|, right, 0, |right|), ignoreWhitespace);
            var s := MiddleSlices(left, right, ignoreWhitespace);
            TopMiddleOps(m, ignoreWhitespace) == (if s.left == [] && s.right == [] then []
                                                  else if FitsTable(s) then ExactOps(s.left, s.right, ignoreWhitespace)
                                                  else AnchoredOps(s, ignoreWhitespace, 0))
  {
    hide ExactOps, AnchoredOps, Middle;
    var m := Middle(Bounds(left, 0, |left|, right, 0, |right|), ignoreWhitespace);
    ProductExceedsIsProduct(m.leftEnd - m.leftBegin + 1, m.rightEnd - m.rightBegin + 1, MAX_LINE_LCS_MATRIX_CELLS);
  }

  lemma {:induction false} OptimalIsGood(ops: seq<DiffOp>, s: Slices, ignoreWhitespace: bool)
    requires s.leftBegin == s.rightBegin == 0 && s.leftEnd == |s.left| && s.rightEnd == |s.right| && FitsTable(s)
    requires Optimal(ops, s.left, s.right, ignoreWhitespace)
    ensures GoodMiddle(ops, s, ignoreWhitespace, 0)
  {
    hide Optimal, FitsTable;
    assert s.left[0..|s.left|] == s.left && s.right[0..|s.right|] == s.right;
  }

  lemma {:induction false} MiddleOfGood(ops: seq<DiffOp>, s: Slices, ignoreWhitespace: bool)
    requires Middle(s, ignoreWhitespace) == s && GoodScript(ops, s, ignoreWhitespace, 0)
    ensures GoodMiddle(ops, s, ignoreWhitespace, 0)
  {
    hide GoodMiddle, KeepsEnds, Middle;
    assert ops[0..|ops| - 0] == ops;
  }

  lemma {:induction false} TopMiddleIsGood(left: seq<Line>, right: seq<Line>, ignoreWhitespace: bool)
    ensures var m := Middle(Bounds(left, 0, |left|, right, 0, |right|), ignoreWhitespace);
            GoodMiddle(TopMiddleOps(m, ignoreWhitespace), MiddleSlices(left, right, ignoreWhitespace),
                       ignoreWhitespace, 0)
  {
    var s := MiddleSlices(left, right, ignoreWhitespace);
    hide Optimal, ExactOps, AnchoredOps, Middle, GoodMiddle, GoodScript, TopMiddleOps;
    TopMiddleIs(left, right, ignoreWhitespace);
    if s.left == [] && s.right == [] {
      NothingIsOptimal(ignoreWhitespace);
      OptimalIsGood([], s, ignoreWhitespace);
    } else if FitsTable(s) {
      ExactIsOptimal(s.left, s.right, ignoreWhitespace);
      OptimalIsGood(ExactOps(s.left, s.right, ignoreWhitespace), s, ignoreWhitespace);
    } else {
      MiddleSlicesUntrimmed(left, right, ignoreWhitespace);
      AnchoredIsGood(s, ignoreWhitespace, 0);
      MiddleOfGood(AnchoredOps(s, ignoreWhitespace, 0), s, ignoreWhitespace);
    }
  }

  lemma {:induction false} NothingIsOptimal(ignoreWhitespace: bool)
    ensures Optimal([], [], [], ignoreWhitespace)
  {
  }

  // ----- What a line weighs -----

  lemma {:induction false} OccurrencesCount(keys: seq<Line>, key: Line)
    ensures Occurrences(keys, key) == multiset(keys)[key]
  {
    if keys != [] {
      var n := |keys| - 1;
      OccurrencesCount(keys[..n], key);
      assert keys == keys[..n] + [keys[n]];
    }
  }

  lemma {:induction false} WeightAt(left: seq<Line>, keys: seq<Line>, ignoreWhitespace: bool, k: nat)
    requires k < |left|
    ensures WeightsOf(left, keys, ignoreWhitespace)[k] == LineWeight(left[k], keys, ignoreWhitespace)
  {
    hide LineWeight;
    if k < |left| - 1 {
      WeightAt(left[..|left| - 1], keys, ignoreWhitespace, k);
    }
  }

  /** `weight` is `bytes` plus eight over `count`, rounded down, and at least 1. */
  ghost predicate IsShareOf(weight: nat, bytes: nat, count: nat) {
    weight >= 1 && (weight == 1 || weight * count <= bytes + 8) && bytes + 8 < (weight + 1) * count
  }

  lemma {:induction false} RoundedDown(x: nat, count: nat)
    requires count >= 1
    ensures x / count * count <= x < (x / count + 1) * count
  {
    assert x == x / count * count + x % count;
    assert (x / count + 1) * count == x / count * count + count;
  }

  lemma {:induction false} QuotientIsShare(weight: nat, bytes: nat, count: nat, quotient: nat)
    requires quotient * count <= bytes + 8 < (quotient + 1) * count
    requires weight == if quotient < 1 then 1 else quotient
    ensures IsShareOf(weight, bytes, count)
  {
    if quotient < 1 {
      assert (quotient + 1) * count == count <= (weight + 1) * count;
    }
  }

  lemma {:induction false} MatchWeightIs(text: Line, significant: nat, count: nat)
    requires count >= 1
    ensures var bytes := if significant > 0 then significant else if text == "" then 1 else 2;
            var quotient := (bytes + 8) / count;
            LineMatchWeight(text, significant, count) == if quotient < 1 then 1 else quotient
  {
  }

  lemma {:induction false} MatchWeightIsShare(text: Line, significant: nat, count: nat)
    requires count >= 1
    ensures var bytes := if significant > 0 then significant else if text == "" then 1 else 2;
            IsShareOf(LineMatchWeight(text, significant, count), bytes, count)
  {
    hide IsShareOf, LineMatchWeight;
    var bytes := if significant > 0 then significant else if text == "" then 1 else 2;
    MatchWeightIs(text, significant, count);
    RoundedDown(bytes + 8, count);
    QuotientIsShare(LineMatchWeight(text, significant, count), bytes, count, (bytes + 8) / count);
  }

  /** A line weighs its bytes that are not spaces, shared among all the lines of both sides that count as equal: an
      empty line counts as one byte and a line of spaces as two. */
  lemma {:induction false} LineWeighsItsShare(left: seq<Line>, right: seq<Line>, ignoreWhitespace: bool, k: nat)
    requires k < |left|
    ensures var count := multiset(Keys(left + right, ignoreWhitespace))[Key(left[k], ignoreWhitespace)];
            var bytes := if |Strip(left[k])| > 0 then |Strip(left[k])| else if left[k] == "" then 1 else 2;
            count >= 1 && IsShareOf(LineWeights(left, right, ignoreWhitespace)[k], bytes, count)
  {
    hide Strip, Tokenized, Key, Occurrences, LineMatchWeight, IsShareOf, WeightsOf;
    var keys, key := Keys(left + right, ignoreWhitespace), Key(left[k], ignoreWhitespace);
    assert (left + right)[k] == left[k];
    assert keys[k] == key && key in multiset(keys);
    OccurrencesCount(keys, key);
    WeightAt(left, keys, ignoreWhitespace, k);
    TextLaws.SignificantBytesAreNonSpace(left[k]);
    MatchWeightIsShare(left[k], Tokenized(left[k]).significantTokenBytes, Occurrences(keys, key));
  }

  // ----- What follows for a caller -----

  /** A diff whose middle fits the table pairs as much weight between its equal ends as can be paired. */
  lemma {:induction false} LineDiffIsOptimal(left: seq<Line>, right: seq<Line>, ignoreWhitespace: bool,
                                             other: seq<Pair>)
    requires var s := MiddleSlices(left, right, ignoreWhitespace);
             && FitsTable(s)
             && Pairing(Keys(s.left, ignoreWhitespace), Keys(s.right, ignoreWhitespace), other, 0, 0)
    ensures var s := MiddleSlices(left, right, ignoreWhitespace);
            var m := Middle(Bounds(left, 0, |left|, right, 0, |right|), ignoreWhitespace);
            var ops := LineDiffOps(left, right, ignoreWhitespace);
            var w := LineWeights(s.left, s.right, ignoreWhitespace);
            && m.leftBegin + (|left| - m.leftEnd) <= |ops|
            && var chosen := EqualPositions(ops[m.leftBegin..|ops| - (|left| - m.leftEnd)], 0, 0);
            && Pairing(Keys(s.left, ignoreWhitespace), Keys(s.right, ignoreWhitespace), chosen, 0, 0)
            && Weight(w, other) <= Weight(w, chosen)
  {
    hide LineDiffOps, Keys, LineWeights, Middle;
    var s := MiddleSlices(left, right, ignoreWhitespace);
    LineDiffIsGood(left, right, ignoreWhitespace);
    assert s.left[0..|s.left|] == s.left && s.right[0..|s.right|] == s.right;
  }

  /** Where the pairs of a joined script are: in the stretch before an anchor, at the anchor, and after it. */
  lemma {:induction false} JoinedPositions(plan: Anchored, pieces: seq<seq<DiffOp>>, k: nat, ignoreWhitespace: bool)
      returns (before: seq<Pair>)
    requires |pieces| == |plan.anchors| + 1 && k < |plan.anchors|
    requires ValidForSlices(pieces[k], Segment(plan, k), ignoreWhitespace)
    ensures |AnchorPairs(plan)| == |plan.anchors|
    ensures var s, next := From(plan, k), From(plan, k + 1);
            EqualPositions(JoinAtAnchors(AnchorPairs(plan), pieces, k), s.leftBegin, s.rightBegin)
            == before + [plan.anchors[k]]
               + EqualPositions(JoinAtAnchors(AnchorPairs(plan), pieces, k + 1), next.leftBegin, next.rightBegin)
  {
    hide JoinAtAnchors, AnchorPairs, Segment, From, EqualPositions;
    var s, l, r := From(plan, k), plan.anchors[k].0, plan.anchors[k].1;
    AtAnchor(plan, pieces, k);
    var pair, rest := [Equal(s.left[l], s.right[r])], JoinAtAnchors(AnchorPairs(plan), pieces, k + 1);
    before := EqualPositions(pieces[k], s.leftBegin, s.rightBegin);
    PositionsConcat(pieces[k] + pair, rest, s.leftBegin, s.rightBegin);
    PositionsConcat(pieces[k], pair, s.leftBegin, s.rightBegin);
    LeftConcat(pieces[k], pair);
    RightConcat(pieces[k], pair);
    OneOp(pair[0]);
    OnePosition(pair[0], l, r);
  }

  lemma {:induction false} AnchorsInJoin(plan: Anchored, pieces: seq<seq<DiffOp>>, k: nat, x: nat,
                                         ignoreWhitespace: bool)
    requires |pieces| == |plan.anchors| + 1 && k <= x < |plan.anchors|
    requires forall y | 0 <= y <= |plan.anchors| :: ValidForSlices(pieces[y], Segment(plan, y), ignoreWhitespace)
    ensures |AnchorPairs(plan)| == |plan.anchors|
    ensures plan.anchors[x] in EqualPositions(JoinAtAnchors(AnchorPairs(plan), pieces, k),
                                              From(plan, k).leftBegin, From(plan, k).rightBegin)
    decreases |plan.anchors| - k
  {
    hide JoinAtAnchors, AnchorPairs, Segment, From, EqualPositions, ValidForSlices;
    var before := JoinedPositions(plan, pieces, k, ignoreWhitespace);
    if x > k {
      AnchorsInJoin(plan, pieces, k + 1, x, ignoreWhitespace);
    }
  }

  lemma {:induction false} OnePosition(op: DiffOp, i: nat, j: nat)
    requires op.Equal?
    ensures EqualPositions([op], i, j) == [(i, j)]
  {
  }

  lemma {:induction false} PositionsBetweenEnds(front: seq<DiffOp>, middle: seq<DiffOp>, back: seq<DiffOp>, p: Pair)
    requires p in EqualPositions(middle, 0, 0)
    ensures (p.0 + |LeftLines(front)|, p.1 + |RightLines(front)|) in EqualPositions(front + middle + back, 0, 0)
  {
    hide EqualPositions, LeftLines, RightLines;
    PositionsConcat(front + middle, back, 0, 0);
    PositionsConcat(front, middle, 0, 0);
    PositionsShift(middle, 0, 0, |LeftLines(front)|, |RightLines(front)|, p);
  }

  /** A diff whose middle does not fit the table keeps every anchor of that middle as an Equal operation. */
  lemma {:induction false} LineDiffKeepsAnchors(left: seq<Line>, right: seq<Line>, ignoreWhitespace: bool, x: nat)
    requires var s := MiddleSlices(left, right, ignoreWhitespace); !FitsTable(s) && x < |Anchors(s)|
    ensures var a := Anchors(MiddleSlices(left, right, ignoreWhitespace))[x];
            var m := Middle(Bounds(left, 0, |left|, right, 0, |right|), ignoreWhitespace);
            (m.leftBegin + a.0, m.rightBegin + a.1) in EqualPositions(LineDiffOps(left, right, ignoreWhitespace), 0, 0)
  {
    hide Anchors, EqualPositions, Middle, MiddleSlices, EqualPairs, TopMiddleOps, FitsTable;
    var whole := Bounds(left, 0, |left|, right, 0, |right|);
    var m, s := Middle(whole, ignoreWhitespace), MiddleSlices(left, right, ignoreWhitespace);
    MiddleKeepsAnchors(left, right, ignoreWhitespace, x);
    TrimmedEndsAreMaximal(whole, ignoreWhitespace);
    var p := Anchors(s)[x];
    EqualPairsValid(left[0..m.leftBegin], right[0..m.rightBegin], ignoreWhitespace);
    PositionsBetweenEnds(EqualPairs(left[0..m.leftBegin], right[0..m.rightBegin]), TopMiddleOps(m, ignoreWhitespace),
                         EqualPairs(left[m.leftEnd..|left|], right[m.rightEnd..|right|]), p);
  }

  lemma {:induction false} AnchoredIs(s: Slices, ignoreWhitespace: bool)
    requires Middle(s, ignoreWhitespace) == s && !FitsTable(s) && Anchors(s) != []
    requires s.leftBegin < s.leftEnd && s.rightBegin < s.rightEnd
    ensures AnchoredOps(s, ignoreWhitespace, 0)
         == JoinAtAnchors(AnchorPairs(WithAnchors(s)), SegmentScripts(WithAnchors(s), ignoreWhitespace, 1), 0)
  {
    hide Anchors, ExactOps, CoarseOps, JoinAtAnchors, AnchorPairs, SegmentScripts, Middle, BetweenEqualEnds;
    ProductExceedsIsProduct(s.leftEnd - s.leftBegin + 1, s.rightEnd - s.rightBegin + 1, MAX_LINE_LCS_MATRIX_CELLS);
    NoEnds(s, AnchoredMiddleOps(s, ignoreWhitespace, 0));
  }

  lemma {:induction false} MiddleKeepsAnchors(left: seq<Line>, right: seq<Line>, ignoreWhitespace: bool, x: nat)
    requires var s := MiddleSlices(left, right, ignoreWhitespace); !FitsTable(s) && x < |Anchors(s)|
    ensures var s := MiddleSlices(left, right, ignoreWhitespace);
            var m := Middle(Bounds(left, 0, |left|, right, 0, |right|), ignoreWhitespace);
            Anchors(s)[x] in EqualPositions(TopMiddleOps(m, ignoreWhitespace), 0, 0)
  {
    var s := MiddleSlices(left, right, ignoreWhitespace);
    assert s.leftBegin == s.rightBegin == 0;
    hide Anchors, EqualPositions, ExactOps, AnchoredOps, JoinAtAnchors, AnchorPairs, SegmentScripts, Middle, FitsTable,
         MiddleSlices, TopMiddleOps;
    MiddleSlicesUntrimmed(left, right, ignoreWhitespace);
    TopMiddleIs(left, right, ignoreWhitespace);
    AnchorIsInside(s, x);
    AnchoredIs(s, ignoreWhitespace);
    var plan := WithAnchors(s);
    SegmentScriptsValid(plan, ignoreWhitespace, 1);
    AnchorsInJoin(plan, SegmentScripts(plan, ignoreWhitespace, 1), 0, x, ignoreWhitespace);
  }

  lemma {:induction false} AnchorIsInside(s: Slices, x: nat)
    requires x < |Anchors(s)|
    ensures s.leftBegin <= Anchors(s)[x].0 < s.leftEnd && s.rightBegin <= Anchors(s)[x].1 < s.rightEnd
  {
    hide Anchors;
    AnchorsAreLongestChain(s, []);
    assert Anchors(s)[x] in Anchors(s);
  }

  lemma {:induction false} NoEnds(s: Slices, middle: seq<DiffOp>)
    ensures BetweenEqualEnds(s, s, middle) == middle
  {
  }
}
