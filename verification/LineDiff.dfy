/** The line diff: trim equal ends, then align what is left exactly, or, when the table would be
    too big, between anchors, recursively and to a bounded depth. */
module LineDiff {
  import opened Basics
  import opened Text
  import opened EditScript
  import opened CommonSubsequence
  import opened ExactAlignment
  import opened UniqueAnchors

  const MAX_LINE_LCS_MATRIX_CELLS := 250_000
  const MAX_ANCHORED_FALLBACK_DEPTH := 256

  // ----- Specification -----

  /** Drops the leading lines that match pairwise. */
  function TrimPrefix(s: Slices, ignoreWhitespace: bool): (t: Slices)
    ensures t == s.(leftBegin := t.leftBegin, rightBegin := t.rightBegin)
    ensures s.leftBegin <= t.leftBegin && t.leftBegin - s.leftBegin == t.rightBegin - s.rightBegin
    decreases s.leftEnd - s.leftBegin
  {
    if s.leftBegin < s.leftEnd && s.rightBegin < s.rightEnd
       && LinesEqualForDiff(s.left[s.leftBegin], s.right[s.rightBegin], ignoreWhitespace)
    then TrimPrefix(s.(leftBegin := s.leftBegin + 1, rightBegin := s.rightBegin + 1), ignoreWhitespace)
    else s
  }

  /** Drops the trailing lines that match pairwise. */
  function TrimSuffix(s: Slices, ignoreWhitespace: bool): (t: Slices)
    ensures t == s.(leftEnd := t.leftEnd, rightEnd := t.rightEnd)
    ensures t.leftEnd <= s.leftEnd && s.leftEnd - t.leftEnd == s.rightEnd - t.rightEnd
    decreases s.leftEnd - s.leftBegin
  {
    if s.leftBegin < s.leftEnd && s.rightBegin < s.rightEnd
       && LinesEqualForDiff(s.left[s.leftEnd - 1], s.right[s.rightEnd - 1], ignoreWhitespace)
    then TrimSuffix(s.(leftEnd := s.leftEnd - 1, rightEnd := s.rightEnd - 1), ignoreWhitespace)
    else s
  }

  function Middle(s: Slices, ignoreWhitespace: bool): (m: Slices)
    ensures m.left == s.left && m.right == s.right
    ensures s.leftBegin <= m.leftBegin <= m.leftEnd <= s.leftEnd
    ensures s.rightBegin <= m.rightBegin <= m.rightEnd <= s.rightEnd
    ensures m.leftBegin - s.leftBegin == m.rightBegin - s.rightBegin
    ensures s.leftEnd - m.leftEnd == s.rightEnd - m.rightEnd
  {
    TrimSuffix(TrimPrefix(s, ignoreWhitespace), ignoreWhitespace)
  }

  /** The equal ends of `s` around the operations for its middle. */
  function BetweenEqualEnds(s: Slices, m: Slices, middle: seq<DiffOp>): seq<DiffOp>
    requires m.left == s.left && m.right == s.right
    requires s.leftBegin <= m.leftBegin && m.leftEnd <= s.leftEnd
    requires s.rightBegin <= m.rightBegin && m.rightEnd <= s.rightEnd
    requires m.leftBegin - s.leftBegin == m.rightBegin - s.rightBegin
    requires s.leftEnd - m.leftEnd == s.rightEnd - m.rightEnd
  {
    EqualPairs(s.left[s.leftBegin..m.leftBegin], s.right[s.rightBegin..m.rightBegin])
    + middle
    + EqualPairs(s.left[m.leftEnd..s.leftEnd], s.right[m.rightEnd..s.rightEnd])
  }

  /** Everything on the left goes, everything on the right comes. */
  function CoarseOps(m: Slices): seq<DiffOp>
  {
    Deletes(m.left[m.leftBegin..m.leftEnd]) + Inserts(m.right[m.rightBegin..m.rightEnd])
  }

  predicate TooBigForTable(m: Slices)
  {
    ProductExceeds(m.leftEnd - m.leftBegin + 1, m.rightEnd - m.rightBegin + 1, MAX_LINE_LCS_MATRIX_CELLS)
  }

  function AnchoredOps(s: Slices, ignoreWhitespace: bool, depth: nat): seq<DiffOp>
    requires depth <= MAX_ANCHORED_FALLBACK_DEPTH
    decreases MAX_ANCHORED_FALLBACK_DEPTH - depth, 1
  {
    var m := Middle(s, ignoreWhitespace);
    BetweenEqualEnds(s, m, AnchoredMiddleOps(m, ignoreWhitespace, depth))
  }

  function AnchoredMiddleOps(m: Slices, ignoreWhitespace: bool, depth: nat): seq<DiffOp>
    requires depth <= MAX_ANCHORED_FALLBACK_DEPTH
    decreases MAX_ANCHORED_FALLBACK_DEPTH - depth, 0
  {
    if m.leftBegin == m.leftEnd || m.rightBegin == m.rightEnd then CoarseOps(m)
    else if !TooBigForTable(m) then
      ExactOps(m.left[m.leftBegin..m.leftEnd], m.right[m.rightBegin..m.rightEnd], ignoreWhitespace)
    else if depth >= MAX_ANCHORED_FALLBACK_DEPTH || Anchors(m) == [] then CoarseOps(m)
    else
      var plan := WithAnchors(m);
      JoinAtAnchors(AnchorPairs(plan), SegmentScripts(plan, ignoreWhitespace, depth + 1), 0)
  }

  /** The scripts of the stretches between anchors, aligned at level `depth`. */
  function SegmentScripts(plan: Anchored, ignoreWhitespace: bool, depth: nat): (pieces: seq<seq<DiffOp>>)
    requires depth <= MAX_ANCHORED_FALLBACK_DEPTH
    ensures |pieces| == |plan.anchors| + 1
    decreases MAX_ANCHORED_FALLBACK_DEPTH - depth, 2
  {
    seq(|plan.anchors| + 1, k requires 0 <= k <= |plan.anchors| =>
      AnchoredOps(Segment(plan, k), ignoreWhitespace, depth))
  }

  datatype SlicesAndAnchors = Plan(m: Slices, anchors: seq<Pair>)

  /** Slices with anchors that lie in order inside them and pair equal lines. */
  type Anchored = p: SlicesAndAnchors | Fits(p.m, p.anchors) witness Plan(Bounds([], 0, 0, [], 0, 0), [])

  predicate Fits(m: Slices, anchors: seq<Pair>) {
    && (forall x | 0 <= x < |anchors| ::
        && m.leftBegin <= anchors[x].0 < m.leftEnd
        && m.rightBegin <= anchors[x].1 < m.rightEnd)
    && (forall x | 0 <= x < |anchors| :: m.left[anchors[x].0] == m.right[anchors[x].1])
    && (forall x | 0 < x < |anchors| :: anchors[x - 1].0 < anchors[x].0 && anchors[x - 1].1 < anchors[x].1)
  }

  function WithAnchors(m: Slices): (plan: Anchored) {
    AnchorsFit(m);
    Plan(m, Anchors(m))
  }

  /** What is left of the slices after the first `k` anchors. */
  function From(plan: Anchored, k: nat): Slices
    requires k <= |plan.anchors|
  {
    if k == 0 then plan.m
    else plan.m.(leftBegin := plan.anchors[k - 1].0 + 1, rightBegin := plan.anchors[k - 1].1 + 1)
  }

  /** The `k`th stretch between anchors. */
  function Segment(plan: Anchored, k: nat): Slices
    requires k <= |plan.anchors|
  {
    if k == |plan.anchors| then From(plan, k)
    else From(plan, k).(leftEnd := plan.anchors[k].0, rightEnd := plan.anchors[k].1)
  }

  function AnchorPairs(plan: Anchored): seq<DiffOp> {
    seq(|plan.anchors|, k requires 0 <= k < |plan.anchors| =>
      Equal(plan.m.left[plan.anchors[k].0], plan.m.right[plan.anchors[k].1]))
  }

  /** Segment scripts from the `k`th on, with the anchors in between. */
  function JoinAtAnchors(pairs: seq<DiffOp>, pieces: seq<seq<DiffOp>>, k: nat): seq<DiffOp>
    requires |pieces| == |pairs| + 1 && k <= |pairs|
    decreases |pairs| - k
  {
    if k == |pairs| then pieces[k] else pieces[k] + [pairs[k]] + JoinAtAnchors(pairs, pieces, k + 1)
  }

  function LineDiffOps(left: seq<Line>, right: seq<Line>, ignoreWhitespace: bool): seq<DiffOp> {
    var s := Bounds(left, 0, |left|, right, 0, |right|);
    var m := Middle(s, ignoreWhitespace);
    BetweenEqualEnds(s, m, TopMiddleOps(m, ignoreWhitespace))
  }

  function TopMiddleOps(m: Slices, ignoreWhitespace: bool): seq<DiffOp>
  {
    var left, right := m.left[m.leftBegin..m.leftEnd], m.right[m.rightBegin..m.rightEnd];
    if left == [] && right == [] then []
    else if TooBigForTable(m) then AnchoredOps(Bounds(left, 0, |left|, right, 0, |right|), ignoreWhitespace, 0)
    else ExactOps(left, right, ignoreWhitespace)
  }

  // ----- Properties -----

  lemma {:induction false} AnchorsFit(m: Slices)
    ensures Fits(m, Anchors(m))
  {
    AnchorsAreLongestChain(m, []);
    var anchors := Anchors(m);
    forall x | 0 <= x < |anchors| ensures IsAnchor(m, anchors[x]) {
      assert anchors[x] in anchors;
    }
  }

  lemma {:induction false} AllEqualCons(left: seq<Line>, a: nat, b: nat, right: seq<Line>, c: nat, d: nat,
                                        ignoreWhitespace: bool)
    requires a < b <= |left| && c < d <= |right|
    requires LinesEqualForDiff(left[a], right[c], ignoreWhitespace)
    requires AllEqual(left[a + 1..b], right[c + 1..d], ignoreWhitespace)
    ensures AllEqual(left[a..b], right[c..d], ignoreWhitespace)
  {
    hide LinesEqualForDiff;
    forall k | 0 <= k < b - a ensures LinesEqualForDiff(left[a..b][k], right[c..d][k], ignoreWhitespace) {
      if k > 0 {
        assert left[a..b][k] == left[a + 1..b][k - 1] && right[c..d][k] == right[c + 1..d][k - 1];
      }
    }
  }

  lemma {:induction false} TrimPrefixEqual(s: Slices, ignoreWhitespace: bool)
    ensures var t := TrimPrefix(s, ignoreWhitespace);
      AllEqual(s.left[s.leftBegin..t.leftBegin], s.right[s.rightBegin..t.rightBegin], ignoreWhitespace)
    decreases s.leftEnd - s.leftBegin
  {
    hide LinesEqualForDiff;
    if s.leftBegin < s.leftEnd && s.rightBegin < s.rightEnd
       && LinesEqualForDiff(s.left[s.leftBegin], s.right[s.rightBegin], ignoreWhitespace) {
      TrimPrefixEqual(s.(leftBegin := s.leftBegin + 1, rightBegin := s.rightBegin + 1), ignoreWhitespace);
      var t := TrimPrefix(s, ignoreWhitespace);
      hide AllEqual;
      AllEqualCons(s.left, s.leftBegin, t.leftBegin, s.right, s.rightBegin, t.rightBegin, ignoreWhitespace);
    }
  }

  lemma {:induction false} AllEqualSnoc(left: seq<Line>, a: nat, b: nat, right: seq<Line>, c: nat, d: nat,
                                        ignoreWhitespace: bool)
    requires a < b <= |left| && c < d <= |right|
    requires AllEqual(left[a..b - 1], right[c..d - 1], ignoreWhitespace)
    requires LinesEqualForDiff(left[b - 1], right[d - 1], ignoreWhitespace)
    ensures AllEqual(left[a..b], right[c..d], ignoreWhitespace)
  {
    assert left[a..b] == left[a..b - 1] + [left[b - 1]];
    assert right[c..d] == right[c..d - 1] + [right[d - 1]];
  }

  lemma {:induction false} TrimSuffixEqual(s: Slices, ignoreWhitespace: bool)
    ensures var t := TrimSuffix(s, ignoreWhitespace);
      AllEqual(s.left[t.leftEnd..s.leftEnd], s.right[t.rightEnd..s.rightEnd], ignoreWhitespace)
    decreases s.leftEnd - s.leftBegin
  {
    hide LinesEqualForDiff;
    if s.leftBegin < s.leftEnd && s.rightBegin < s.rightEnd
       && LinesEqualForDiff(s.left[s.leftEnd - 1], s.right[s.rightEnd - 1], ignoreWhitespace) {
      TrimSuffixEqual(s.(leftEnd := s.leftEnd - 1, rightEnd := s.rightEnd - 1), ignoreWhitespace);
      var t := TrimSuffix(s, ignoreWhitespace);
      hide AllEqual;
      AllEqualSnoc(s.left, t.leftEnd, s.leftEnd, s.right, t.rightEnd, s.rightEnd, ignoreWhitespace);
    }
  }

  ghost predicate ValidForSlices(ops: seq<DiffOp>, s: Slices, ignoreWhitespace: bool)
  {
    ValidScript(ops, s.left[s.leftBegin..s.leftEnd], s.right[s.rightBegin..s.rightEnd], ignoreWhitespace)
  }

  lemma {:induction false} BetweenEqualEndsValid(s: Slices, middle: seq<DiffOp>, ignoreWhitespace: bool)
    requires ValidForSlices(middle, Middle(s, ignoreWhitespace), ignoreWhitespace)
    ensures ValidForSlices(BetweenEqualEnds(s, Middle(s, ignoreWhitespace), middle), s, ignoreWhitespace)
  {
    var t, m := TrimPrefix(s, ignoreWhitespace), Middle(s, ignoreWhitespace);
    var l0, r0 := s.left[s.leftBegin..m.leftBegin], s.right[s.rightBegin..m.rightBegin];
    var l1, r1 := s.left[m.leftBegin..m.leftEnd], s.right[m.rightBegin..m.rightEnd];
    var l2, r2 := s.left[m.leftEnd..s.leftEnd], s.right[m.rightEnd..s.rightEnd];
    TrimPrefixEqual(s, ignoreWhitespace);
    TrimSuffixEqual(t, ignoreWhitespace);
    EqualPairsValid(l0, r0, ignoreWhitespace);
    EqualPairsValid(l2, r2, ignoreWhitespace);
    ValidConcat3(EqualPairs(l0, r0), l0, r0, middle, l1, r1, EqualPairs(l2, r2), l2, r2, ignoreWhitespace);
    SliceInThree(s.left, s.leftBegin, m.leftBegin, m.leftEnd, s.leftEnd);
    SliceInThree(s.right, s.rightBegin, m.rightBegin, m.rightEnd, s.rightEnd);
  }

  lemma {:induction false} CoarseOpsValid(m: Slices, ignoreWhitespace: bool)
    ensures ValidForSlices(CoarseOps(m), m, ignoreWhitespace)
  {
    var left, right := m.left[m.leftBegin..m.leftEnd], m.right[m.rightBegin..m.rightEnd];
    DeletesValid(left, ignoreWhitespace);
    InsertsValid(right, ignoreWhitespace);
    ValidConcat(Deletes(left), left, [], Inserts(right), [], right, ignoreWhitespace);
    assert left + [] == left && [] + right == right;
  }

  lemma {:induction false} AnchoredOpsValid(s: Slices, ignoreWhitespace: bool, depth: nat)
    requires depth <= MAX_ANCHORED_FALLBACK_DEPTH
    ensures ValidForSlices(AnchoredOps(s, ignoreWhitespace, depth), s, ignoreWhitespace)
    decreases MAX_ANCHORED_FALLBACK_DEPTH - depth, 1
  {
    var m := Middle(s, ignoreWhitespace);
    AnchoredMiddleOpsValid(m, ignoreWhitespace, depth);
    BetweenEqualEndsValid(s, AnchoredMiddleOps(m, ignoreWhitespace, depth), ignoreWhitespace);
  }

  lemma {:induction false} AnchoredMiddleOpsValid(m: Slices, ignoreWhitespace: bool, depth: nat)
    requires depth <= MAX_ANCHORED_FALLBACK_DEPTH
    ensures ValidForSlices(AnchoredMiddleOps(m, ignoreWhitespace, depth), m, ignoreWhitespace)
    decreases MAX_ANCHORED_FALLBACK_DEPTH - depth, 0
  {
    if m.leftBegin == m.leftEnd || m.rightBegin == m.rightEnd {
      CoarseOpsValid(m, ignoreWhitespace);
    } else if !TooBigForTable(m) {
      ExactOpsValid(m.left[m.leftBegin..m.leftEnd], m.right[m.rightBegin..m.rightEnd], ignoreWhitespace);
    } else if depth >= MAX_ANCHORED_FALLBACK_DEPTH || Anchors(m) == [] {
      CoarseOpsValid(m, ignoreWhitespace);
    } else {
      var plan := WithAnchors(m);
      SegmentScriptsValid(plan, ignoreWhitespace, depth + 1);
      JoinValid(plan, SegmentScripts(plan, ignoreWhitespace, depth + 1), 0, ignoreWhitespace);
    }
  }

  lemma {:induction false} SegmentScriptsValid(plan: Anchored, ignoreWhitespace: bool, depth: nat)
    requires depth <= MAX_ANCHORED_FALLBACK_DEPTH
    ensures forall k | 0 <= k <= |plan.anchors| ::
      ValidForSlices(SegmentScripts(plan, ignoreWhitespace, depth)[k], Segment(plan, k), ignoreWhitespace)
    decreases MAX_ANCHORED_FALLBACK_DEPTH - depth, 2
  {
    forall k | 0 <= k <= |plan.anchors|
      ensures ValidForSlices(SegmentScripts(plan, ignoreWhitespace, depth)[k], Segment(plan, k), ignoreWhitespace)
    {
      AnchoredOpsValid(Segment(plan, k), ignoreWhitespace, depth);
    }
  }

  /** What the `k`th anchor, or the end, separates. */
  lemma {:induction false} AtAnchor(plan: Anchored, pieces: seq<seq<DiffOp>>, k: nat)
    requires |pieces| == |plan.anchors| + 1 && k <= |plan.anchors|
    ensures |AnchorPairs(plan)| == |plan.anchors|
    ensures k == |plan.anchors| ==>
              Segment(plan, k) == From(plan, k) && JoinAtAnchors(AnchorPairs(plan), pieces, k) == pieces[k]
    ensures k < |plan.anchors| ==>
              var s, l, r := From(plan, k), plan.anchors[k].0, plan.anchors[k].1;
              && s.leftBegin <= l < s.leftEnd && s.rightBegin <= r < s.rightEnd && s.left[l] == s.right[r]
              && Segment(plan, k) == s.(leftEnd := l, rightEnd := r)
              && From(plan, k + 1) == s.(leftBegin := l + 1, rightBegin := r + 1)
              && JoinAtAnchors(AnchorPairs(plan), pieces, k)
              == pieces[k] + [Equal(s.left[l], s.right[r])] + JoinAtAnchors(AnchorPairs(plan), pieces, k + 1)
  {
  }

  lemma {:induction false} JoinValid(plan: Anchored, pieces: seq<seq<DiffOp>>, k: nat, ignoreWhitespace: bool)
    requires |pieces| == |plan.anchors| + 1 && k <= |plan.anchors|
    requires forall x | 0 <= x <= |plan.anchors| :: ValidForSlices(pieces[x], Segment(plan, x), ignoreWhitespace)
    ensures ValidForSlices(JoinAtAnchors(AnchorPairs(plan), pieces, k), From(plan, k), ignoreWhitespace)
    decreases |plan.anchors| - k
  {
    hide ValidScript, ValidForSlices, JoinAtAnchors, AnchorPairs, Segment, From;
    assert ValidForSlices(pieces[k], Segment(plan, k), ignoreWhitespace);
    AtAnchor(plan, pieces, k);
    if k < |plan.anchors| {
      JoinValid(plan, pieces, k + 1, ignoreWhitespace);
      JoinAtAnchor(From(plan, k), plan.anchors[k].0, plan.anchors[k].1, pieces[k],
                   JoinAtAnchors(AnchorPairs(plan), pieces, k + 1), ignoreWhitespace);
    }
  }

  lemma {:induction false} JoinAtAnchor(s: Slices, l: nat, r: nat, before: seq<DiffOp>, after: seq<DiffOp>,
                                        ignoreWhitespace: bool)
    requires s.leftBegin <= l < s.leftEnd && s.rightBegin <= r < s.rightEnd && s.left[l] == s.right[r]
    requires ValidForSlices(before, s.(leftEnd := l, rightEnd := r), ignoreWhitespace)
    requires ValidForSlices(after, s.(leftBegin := l + 1, rightBegin := r + 1), ignoreWhitespace)
    ensures ValidForSlices(before + [Equal(s.left[l], s.right[r])] + after, s, ignoreWhitespace)
  {
    ValidJoin(before, s.left[s.leftBegin..l], s.right[s.rightBegin..r], s.left[l], s.right[r],
              after, s.left[l + 1..s.leftEnd], s.right[r + 1..s.rightEnd], ignoreWhitespace);
    SliceAround(s.left, s.leftBegin, l, s.leftEnd);
    SliceAround(s.right, s.rightBegin, r, s.rightEnd);
  }

  /** Every diff is a valid edit script, whatever branches it took: Equal plus Delete texts spell
      the left lines, Equal plus Insert texts the right, and Equal operations pair equal lines. */
  lemma {:induction false} LineDiffValid(left: seq<Line>, right: seq<Line>, ignoreWhitespace: bool)
    ensures ValidScript(LineDiffOps(left, right, ignoreWhitespace), left, right, ignoreWhitespace)
  {
    hide ExactOps, AnchoredOps;
    var s := Bounds(left, 0, |left|, right, 0, |right|);
    var m := Middle(s, ignoreWhitespace);
    var l, r := left[m.leftBegin..m.leftEnd], right[m.rightBegin..m.rightEnd];
    if l == [] && r == [] {
    } else if TooBigForTable(m) {
      AnchoredOpsValid(Bounds(l, 0, |l|, r, 0, |r|), ignoreWhitespace, 0);
      assert l[0..|l|] == l && r[0..|r|] == r;
    } else {
      ExactOpsValid(l, r, ignoreWhitespace);
    }
    BetweenEqualEndsValid(s, TopMiddleOps(m, ignoreWhitespace), ignoreWhitespace);
    assert left[0..|left|] == left && right[0..|right|] == right;
  }

  lemma {:induction false} TrimPrefixOfSame(s: Slices, ignoreWhitespace: bool)
    requires s.left == s.right && s.leftBegin == s.rightBegin && s.leftEnd == s.rightEnd
    ensures TrimPrefix(s, ignoreWhitespace) == s.(leftBegin := s.leftEnd, rightBegin := s.rightEnd)
    decreases s.leftEnd - s.leftBegin
  {
    if s.leftBegin < s.leftEnd {
      TrimPrefixOfSame(s.(leftBegin := s.leftBegin + 1, rightBegin := s.rightBegin + 1), ignoreWhitespace);
    }
  }

  /** Equal sides diff without a single change. */
  lemma {:induction false} LineDiffOfSame(lines: seq<Line>, ignoreWhitespace: bool)
    ensures LineDiffOps(lines, lines, ignoreWhitespace) == EqualPairs(lines, lines)
  {
    var s := Bounds(lines, 0, |lines|, lines, 0, |lines|);
    TrimPrefixOfSame(s, ignoreWhitespace);
    var m := Middle(s, ignoreWhitespace);
    assert m == s.(leftBegin := |lines|, rightBegin := |lines|);
    assert TopMiddleOps(m, ignoreWhitespace) == [];
    assert lines[0..|lines|] == lines && lines[|lines|..|lines|] == [];
  }

  // ----- The algorithm -----

  method AppendEqualPairs(left: seq<Line>, leftBegin: nat, leftEnd: nat, right: seq<Line>, rightBegin: nat,
                          ghost rightEnd: nat, ops: seq<DiffOp>)
    returns (out: seq<DiffOp>)
    requires leftBegin <= leftEnd <= |left| && rightBegin <= rightEnd <= |right|
    requires leftEnd - leftBegin == rightEnd - rightBegin
    ensures out == ops + EqualPairs(left[leftBegin..leftEnd], right[rightBegin..rightEnd])
  {
    out := ops;
    for offset := 0 to leftEnd - leftBegin
      invariant out == ops + EqualPairs(left[leftBegin..leftBegin + offset], right[rightBegin..rightBegin + offset])
    {
      assert left[leftBegin..leftBegin + offset + 1][..offset] == left[leftBegin..leftBegin + offset];
      assert right[rightBegin..rightBegin + offset + 1][..offset] == right[rightBegin..rightBegin + offset];
      out := out + [Equal(left[leftBegin + offset], right[rightBegin + offset])];
    }
  }

  method AreLinesEqual(left: Line, right: Line, ignoreWhitespace: bool) returns (equal: bool)
    ensures equal == LinesEqualForDiff(left, right, ignoreWhitespace)
  {
    equal := left == right;
    if !equal && ignoreWhitespace {
      equal := LinesEqualIgnoringWhitespace(left, right);
    }
  }

  lemma {:induction false} TrimPrefixStep(s: Slices, ignoreWhitespace: bool)
    ensures TrimPrefix(s, ignoreWhitespace)
         == if s.leftBegin < s.leftEnd && s.rightBegin < s.rightEnd
               && LinesEqualForDiff(s.left[s.leftBegin], s.right[s.rightBegin], ignoreWhitespace)
            then TrimPrefix(s.(leftBegin := s.leftBegin + 1, rightBegin := s.rightBegin + 1), ignoreWhitespace)
            else s
  {
  }

  lemma {:induction false} TrimSuffixStep(s: Slices, ignoreWhitespace: bool)
    ensures TrimSuffix(s, ignoreWhitespace)
         == if s.leftBegin < s.leftEnd && s.rightBegin < s.rightEnd
               && LinesEqualForDiff(s.left[s.leftEnd - 1], s.right[s.rightEnd - 1], ignoreWhitespace)
            then TrimSuffix(s.(leftEnd := s.leftEnd - 1, rightEnd := s.rightEnd - 1), ignoreWhitespace)
            else s
  {
  }

  /** Walks both ends inwards over matching pairs. */
  method TrimEqualEnds(s: Slices, ignoreWhitespace: bool) returns (m: Slices)
    ensures m == Middle(s, ignoreWhitespace)
  {
    hide LinesEqualForDiff, TrimPrefix, TrimSuffix;
    m := s;
    while m.leftBegin < m.leftEnd && m.rightBegin < m.rightEnd
      invariant TrimPrefix(m, ignoreWhitespace) == TrimPrefix(s, ignoreWhitespace)
      decreases m.leftEnd - m.leftBegin
    {
      TrimPrefixStep(m, ignoreWhitespace);
      var equal := AreLinesEqual(m.left[m.leftBegin], m.right[m.rightBegin], ignoreWhitespace);
      if !equal {
        break;
      }
      m := m.(leftBegin := m.leftBegin + 1, rightBegin := m.rightBegin + 1);
    }
    TrimPrefixStep(m, ignoreWhitespace);
    while m.leftEnd > m.leftBegin && m.rightEnd > m.rightBegin
      invariant TrimSuffix(m, ignoreWhitespace) == Middle(s, ignoreWhitespace)
      decreases m.leftEnd - m.leftBegin
    {
      TrimSuffixStep(m, ignoreWhitespace);
      var equal := AreLinesEqual(m.left[m.leftEnd - 1], m.right[m.rightEnd - 1], ignoreWhitespace);
      if !equal {
        break;
      }
      m := m.(leftEnd := m.leftEnd - 1, rightEnd := m.rightEnd - 1);
    }
    TrimSuffixStep(m, ignoreWhitespace);
  }

  /** The recursion.  `anchorsByDepth` is the pool of anchor lists, one per level: a level reads
      its own list while deeper levels run, so they must leave it alone. */
  method AppendAnchoredFallbackOps(s: Slices, ignoreWhitespace: bool, anchorsByDepth: array<seq<Pair>>,
                                   ops: seq<DiffOp>, depth: nat)
    returns (out: seq<DiffOp>)
    requires depth <= MAX_ANCHORED_FALLBACK_DEPTH
    requires anchorsByDepth.Length == MAX_ANCHORED_FALLBACK_DEPTH + 1
    modifies anchorsByDepth
    ensures out == ops + AnchoredOps(s, ignoreWhitespace, depth)
    ensures forall d | 0 <= d < depth :: anchorsByDepth[d] == old(anchorsByDepth[d])
    decreases MAX_ANCHORED_FALLBACK_DEPTH - depth, 2, 0
  {
    var m := TrimEqualEnds(s, ignoreWhitespace);
    ghost var prefix := EqualPairs(s.left[s.leftBegin..m.leftBegin], s.right[s.rightBegin..m.rightBegin]);
    ghost var suffix := EqualPairs(s.left[m.leftEnd..s.leftEnd], s.right[m.rightEnd..s.rightEnd]);
    AssociateThree(ops, prefix, AnchoredMiddleOps(m, ignoreWhitespace, depth), suffix);
    out := AppendEqualPairs(s.left, s.leftBegin, m.leftBegin, s.right, s.rightBegin, m.rightBegin, ops);
    out := AppendAnchoredMiddleOps(m, ignoreWhitespace, anchorsByDepth, out, depth);
    out := AppendEqualPairs(s.left, m.leftEnd, s.leftEnd, s.right, m.rightEnd, s.rightEnd, out);
  }

  method AppendAnchoredMiddleOps(m: Slices, ignoreWhitespace: bool, anchorsByDepth: array<seq<Pair>>,
                                 ops: seq<DiffOp>, depth: nat)
    returns (out: seq<DiffOp>)
    requires depth <= MAX_ANCHORED_FALLBACK_DEPTH
    requires anchorsByDepth.Length == MAX_ANCHORED_FALLBACK_DEPTH + 1
    modifies anchorsByDepth
    ensures out == ops + AnchoredMiddleOps(m, ignoreWhitespace, depth)
    ensures forall d | 0 <= d < depth :: anchorsByDepth[d] == old(anchorsByDepth[d])
    decreases MAX_ANCHORED_FALLBACK_DEPTH - depth, 1, 0
  {
    if m.leftBegin == m.leftEnd || m.rightBegin == m.rightEnd {
      out := AppendCoarseOps(m, ops);
      return;
    }
    if !TooBigForTable(m) {
      out := AppendExactLineOps(m.left[m.leftBegin..m.leftEnd], m.right[m.rightBegin..m.rightEnd], ignoreWhitespace,
                                ops);
      return;
    }
    if depth >= MAX_ANCHORED_FALLBACK_DEPTH {
      out := AppendCoarseOps(m, ops);
      return;
    }
    anchorsByDepth[depth] := BuildUniqueLineAnchors(m);
    if anchorsByDepth[depth] == [] {
      out := AppendCoarseOps(m, ops);
      return;
    }
    ghost var plan := WithAnchors(m);
    out := AppendSegments(plan, SegmentScripts(plan, ignoreWhitespace, depth + 1), ignoreWhitespace, anchorsByDepth,
                          m, ops, depth);
  }

  /** The loop over a level's anchor list, which stays in the pool while deeper levels run. */
  method AppendSegments(ghost plan: Anchored, ghost pieces: seq<seq<DiffOp>>, ignoreWhitespace: bool,
                        anchorsByDepth: array<seq<Pair>>, m: Slices, ops: seq<DiffOp>, depth: nat)
    returns (out: seq<DiffOp>)
    requires depth < MAX_ANCHORED_FALLBACK_DEPTH
    requires anchorsByDepth.Length == MAX_ANCHORED_FALLBACK_DEPTH + 1
    requires plan == Plan(m, anchorsByDepth[depth])
    requires pieces == SegmentScripts(plan, ignoreWhitespace, depth + 1)
    modifies anchorsByDepth
    ensures out == ops + JoinAtAnchors(AnchorPairs(plan), pieces, 0)
    ensures forall d | 0 <= d <= depth :: anchorsByDepth[d] == old(anchorsByDepth[d])
    decreases MAX_ANCHORED_FALLBACK_DEPTH - depth, 0, 1
  {
    hide AnchoredOps;
    ghost var pairs := AnchorPairs(plan);
    out := ops;
    var k, rest := 0, m;
    while k < |anchorsByDepth[depth]|
      invariant 0 <= k <= |plan.anchors| && rest == From(plan, k)
      invariant out + JoinAtAnchors(pairs, pieces, k) == ops + JoinAtAnchors(pairs, pieces, 0)
      invariant forall d | 0 <= d <= depth :: anchorsByDepth[d] == old(anchorsByDepth[d])
      decreases |plan.anchors| - k
    {
      out, rest := AppendUpToAnchor(plan, pieces, ignoreWhitespace, anchorsByDepth, rest, out, depth, k);
      k := k + 1;
    }
    assert JoinAtAnchors(pairs, pieces, k) == pieces[k];
    out := AppendSegment(rest, ignoreWhitespace, anchorsByDepth, out, depth + 1, pieces[k]);
  }

  /** One segment, one level deeper, and the anchor that ends it. */
  method AppendUpToAnchor(ghost plan: Anchored, ghost pieces: seq<seq<DiffOp>>, ignoreWhitespace: bool,
                          anchorsByDepth: array<seq<Pair>>, rest: Slices, ops: seq<DiffOp>, depth: nat, k: nat)
    returns (out: seq<DiffOp>, next: Slices)
    requires depth < MAX_ANCHORED_FALLBACK_DEPTH
    requires anchorsByDepth.Length == MAX_ANCHORED_FALLBACK_DEPTH + 1
    requires plan.anchors == anchorsByDepth[depth] && k < |plan.anchors| && rest == From(plan, k)
    requires pieces == SegmentScripts(plan, ignoreWhitespace, depth + 1)
    modifies anchorsByDepth
    ensures next == From(plan, k + 1)
    ensures out + JoinAtAnchors(AnchorPairs(plan), pieces, k + 1) == ops + JoinAtAnchors(AnchorPairs(plan), pieces, k)
    ensures forall d | 0 <= d <= depth :: anchorsByDepth[d] == old(anchorsByDepth[d])
    decreases MAX_ANCHORED_FALLBACK_DEPTH - depth, 0, 0
  {
    hide AnchoredOps;
    var anchor := anchorsByDepth[depth][k];
    var segment := AppendSegment(rest.(leftEnd := anchor.0, rightEnd := anchor.1), ignoreWhitespace, anchorsByDepth,
                                 ops,
                                 depth + 1, pieces[k]);
    var pair := Equal(rest.left[anchor.0], rest.right[anchor.1]);
    out := segment + [pair];
    next := rest.(leftBegin := anchor.0 + 1, rightBegin := anchor.1 + 1);
    AssociateThree(ops, pieces[k], [pair], JoinAtAnchors(AnchorPairs(plan), pieces, k + 1));
  }

  method AppendSegment(segment: Slices, ignoreWhitespace: bool, anchorsByDepth: array<seq<Pair>>, ops: seq<DiffOp>,
                       depth: nat, ghost piece: seq<DiffOp>)
    returns (out: seq<DiffOp>)
    requires depth <= MAX_ANCHORED_FALLBACK_DEPTH
    requires anchorsByDepth.Length == MAX_ANCHORED_FALLBACK_DEPTH + 1
    requires piece == AnchoredOps(segment, ignoreWhitespace, depth)
    modifies anchorsByDepth
    ensures out == ops + piece
    ensures forall d | 0 <= d < depth :: anchorsByDepth[d] == old(anchorsByDepth[d])
    decreases MAX_ANCHORED_FALLBACK_DEPTH - depth, 3, 0
  {
    out := AppendAnchoredFallbackOps(segment, ignoreWhitespace, anchorsByDepth, ops, depth);
  }

  method AppendCoarseOps(m: Slices, ops: seq<DiffOp>) returns (out: seq<DiffOp>)
    ensures out == ops + CoarseOps(m)
  {
    out := AppendDeleteOps(m.left, m.leftBegin, m.leftEnd, ops);
    out := AppendInsertOps(m.right, m.rightBegin, m.rightEnd, out);
  }

  method BuildLineDiffOps(left: seq<Line>, right: seq<Line>, ignoreWhitespace: bool) returns (ops: seq<DiffOp>)
    ensures ops == LineDiffOps(left, right, ignoreWhitespace)
  {
    var m := TrimEqualEnds(Bounds(left, 0, |left|, right, 0, |right|), ignoreWhitespace);
    AssociateThree([], EqualPairs(left[0..m.leftBegin], right[0..m.rightBegin]), TopMiddleOps(m, ignoreWhitespace),
            EqualPairs(left[m.leftEnd..|left|], right[m.rightEnd..|right|]));
    ops := AppendEqualPairs(left, 0, m.leftBegin, right, 0, m.rightBegin, []);
    ops := AppendTopMiddleOps(m, ignoreWhitespace, ops);
    ops := AppendEqualPairs(left, m.leftEnd, |left|, right, m.rightEnd, |right|, ops);
  }

  method AppendTopMiddleOps(m: Slices, ignoreWhitespace: bool, ops: seq<DiffOp>) returns (out: seq<DiffOp>)
    ensures out == ops + TopMiddleOps(m, ignoreWhitespace)
  {
    var left, right := m.left[m.leftBegin..m.leftEnd], m.right[m.rightBegin..m.rightEnd];
    if left == [] && right == [] {
      return ops;
    }
    if TooBigForTable(m) {
      var anchorsByDepth := new seq<Pair>[MAX_ANCHORED_FALLBACK_DEPTH + 1](_ => []);
      out := AppendAnchoredFallbackOps(Bounds(left, 0, |left|, right, 0, |right|), ignoreWhitespace, anchorsByDepth,
                                       ops, 0);
    } else {
      out := AppendExactLineOps(left, right, ignoreWhitespace, ops);
    }
  }
}
