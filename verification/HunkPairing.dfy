/** Which lines of a hunk end up side by side, said without the cost table: what is paired, what is left
    unpaired, and that no other way to pair similar lines does better. */
module HunkPairing {
  import opened Basics
  import opened Text
  import opened CommonSubsequence
  import opened LineSimilarity
  import opened HunkAlignment

  // ----- Similarity -----

  predicate FewTokens(l: seq<Line>, r: seq<Line>) {
    (|l| + 1) * (|r| + 1) <= 65536
  }

  ghost predicate IsShare(similarity: real, l: seq<Line>, r: seq<Line>, bytes: nat) {
    && (forall p | Pairing(l, r, p, 0, 0) :: (2 * Weight(Lengths(l), p)) as real <= similarity * bytes as real)
    && (exists p :: Pairing(l, r, p, 0, 0) && (2 * Weight(Lengths(l), p)) as real == similarity * bytes as real)
  }

  /** The similarity of two lines is the share of their significant bytes that an order-preserving pairing of
      equal tokens can cover at most; equal lines and lines of spaces are alike, and lines with too many tokens
      to compare, or one with none, are not. */
  lemma {:induction false} SimilarityIsShare(left: Line, right: Line)
    ensures var l, r := Texts(Tokenized(left)), Texts(Tokenized(right));
            var lb, rb := Tokenized(left).significantTokenBytes, Tokenized(right).significantTokenBytes;
            var s := Similarity(left, right);
            && 0.0 <= s <= 1.0
            && (left == right || (l == [] && r == []) ==> s == 1.0)
            && (left != right && (l == []) != (r == []) ==> s == 0.0)
            && (left != right && l != [] && r != [] && !FewTokens(l, r) ==> s == 0.0)
            && (left != right && l != [] && r != [] && FewTokens(l, r) ==> IsShare(s, l, r, lb + rb))
  {
    var l, r := Texts(Tokenized(left)), Texts(Tokenized(right));
    var lb, rb := Tokenized(left).significantTokenBytes, Tokenized(right).significantTokenBytes;
    BytesOfSomeTokens(left);
    BytesOfSomeTokens(right);
    hide Tokenized, Texts, IsShare, FewTokens, CommonBytes, Share;
    if left != right && l != [] && r != [] {
      CommonWithinBoth(left, right);
      ShareIsShare(CommonBytes(l, r), l, r, lb, rb);
    }
  }

  /** A line with significant tokens has significant bytes. */
  lemma {:induction false} BytesOfSomeTokens(line: Line)
    ensures Texts(Tokenized(line)) == [] <==> Tokenized(line).significantTokenBytes == 0
  {
    BytesOfLine(line);
    TokensTile(line, 0);
    var t := Tokenized(line);
    if Texts(t) != [] {
      assert SignificantText(t, 0) != "";
    }
  }

  lemma {:induction false} TooManyTokens(l: seq<Line>, r: seq<Line>)
    ensures !FewTokens(l, r) ==> CommonBytes(l, r) == 0
  {
    ProductExceedsIsProduct(|l| + 1, |r| + 1, MAX_INTRALINE_LCS_MATRIX_CELLS);
  }

  lemma {:induction false} FewTokensCommon(l: seq<Line>, r: seq<Line>, p: seq<CommonSubsequence.Pair>)
    requires FewTokens(l, r)
    ensures Pairing(l, r, p, 0, 0) ==> Weight(Lengths(l), p) <= CommonBytes(l, r)
    ensures exists q :: Pairing(l, r, q, 0, 0) && Weight(Lengths(l), q) == CommonBytes(l, r)
  {
    CommonBytesIsMaximum(l, r, p);
  }

  lemma {:induction false} ShareIsShare(common: nat, l: seq<Line>, r: seq<Line>, lb: nat, rb: nat)
    requires common == CommonBytes(l, r) && common <= lb && common <= rb && lb > 0 && rb > 0
    ensures 0.0 <= Share(common, lb, rb) <= 1.0
    ensures FewTokens(l, r) ==> IsShare(Share(common, lb, rb), l, r, lb + rb)
    ensures !FewTokens(l, r) ==> Share(common, lb, rb) == 0.0
  {
    hide FewTokens, CommonBytes, Pairing, Weight;
    var share := Share(common, lb, rb);
    ShareWithinCeiling(common, lb, rb);
    ShareTimesTotal(common, lb, rb);
    TooManyTokens(l, r);
    if FewTokens(l, r) {
      hide Share;
      forall p | Pairing(l, r, p, 0, 0) ensures (2 * Weight(Lengths(l), p)) as real <= share * (lb + rb) as real {
        FewTokensCommon(l, r, p);
      }
      FewTokensCommon(l, r, []);
    }
  }

  lemma {:induction false} ShareTimesTotal(common: nat, lb: nat, rb: nat)
    requires common <= lb && common <= rb && lb > 0 && rb > 0
    ensures Share(common, lb, rb) * (lb + rb) as real == (2 * common) as real
  {
    ShareOrder(common as real, common as real, (lb + rb) as real);
  }

  // ----- Where a step stands -----

  /** Deleted lines that the first steps take. */
  function LeftTaken(kinds: seq<Kind>): nat {
    Count(kinds, Pair) + Count(kinds, Delete)
  }

  /** Inserted lines that the first steps take. */
  function RightTaken(kinds: seq<Kind>): nat {
    Count(kinds, Pair) + Count(kinds, Insert)
  }

  /** The hunk is small enough for the table. */
  predicate FitsTable(deleted: seq<Line>, inserted: seq<Line>) {
    (|deleted| + 1) * (|inserted| + 1) <= 65536
  }

  lemma {:induction false} FittingIsWalk(deleted: seq<Line>, inserted: seq<Line>)
    requires deleted != [] && inserted != [] && FitsTable(deleted, inserted)
    ensures Alignment(deleted, inserted) == Walk(GridOf(deleted, inserted), 0, 0)
    ensures Aligns(GridOf(deleted, inserted), Alignment(deleted, inserted), 0, 0)
  {
    ProductExceedsIsProduct(|deleted| + 1, |inserted| + 1, MAX_HUNK_ALIGNMENT_MATRIX_CELLS);
    WalkAligns(GridOf(deleted, inserted), 0, 0);
  }

  lemma {:induction false} GridSize(deleted: seq<Line>, inserted: seq<Line>)
    ensures GridOf(deleted, inserted).rows == |deleted| && GridOf(deleted, inserted).columns == |inserted|
  {
  }

  lemma {:induction false} StepAllowed(g: Grid, kinds: seq<Kind>, i: nat, j: nat, k: nat)
    requires Aligns(g, kinds, i, j) && k < |kinds|
    ensures var l, r := i + LeftTaken(kinds[..k]), j + RightTaken(kinds[..k]);
            && (!kinds[k].Insert? ==> l < g.rows)
            && (!kinds[k].Delete? ==> r < g.columns)
            && (kinds[k].Pair? ==> CanPair(SimilarityAt(g, l, r), g.rows, g.columns))
    decreases k
  {
    if k > 0 {
      assert kinds[..k] == [kinds[0]] + kinds[1..][..k - 1];
      TakenCons(kinds[0], kinds[1..][..k - 1]);
      match kinds[0]
      case Pair => StepAllowed(g, kinds[1..], i + 1, j + 1, k - 1);
      case Delete => StepAllowed(g, kinds[1..], i + 1, j, k - 1);
      case Insert => StepAllowed(g, kinds[1..], i, j + 1, k - 1);
    }
  }

  lemma {:induction false} TakenCons(kind: Kind, rest: seq<Kind>)
    ensures LeftTaken([kind] + rest) == (if kind.Insert? then 0 else 1) + LeftTaken(rest)
    ensures RightTaken([kind] + rest) == (if kind.Delete? then 0 else 1) + RightTaken(rest)
  {
    assert ([kind] + rest)[1..] == rest;
  }

  // ----- What is paired -----

  /** One line against one line is always shown as one changed line. */
  lemma {:induction false} OneAgainstOne(left: Line, right: Line)
    ensures Alignment([left], [right]) == [Pair]
  {
    var g := GridOf([left], [right]);
    FittingIsWalk([left], [right]);
    assert Cell(g, 1, 1).cost == 0.0 && Cell(g, 0, 1).cost == 1.0 && Cell(g, 1, 0).cost == 1.0;
    assert Cell(g, 0, 0) == Decide(g, SimilarityAt(g, 0, 0), 0.0, 1.0, 1.0);
    assert Walk(g, 1, 1) == [];
  }

  /** One line against several, of a hunk that fits the table, is never paired. */
  lemma {:induction false} OneAgainstMany(deleted: seq<Line>, inserted: seq<Line>, k: nat)
    requires FitsTable(deleted, inserted)
    requires (|deleted| == 1 && |inserted| > 1) || (|deleted| > 1 && |inserted| == 1)
    requires k < |Alignment(deleted, inserted)|
    ensures !Alignment(deleted, inserted)[k].Pair?
  {
    hide FitsTable;
    FittingIsWalk(deleted, inserted);
    StepAllowed(GridOf(deleted, inserted), Alignment(deleted, inserted), 0, 0, k);
  }

  /** Of several lines against several only similar ones are paired. */
  lemma {:induction false} PairsAreSimilar(deleted: seq<Line>, inserted: seq<Line>, k: nat)
    requires |deleted| > 1 && |inserted| > 1 && FitsTable(deleted, inserted)
    requires var kinds := Alignment(deleted, inserted); k < |kinds| && kinds[k].Pair?
    ensures var kinds := Alignment(deleted, inserted);
            var l, r := LeftTaken(kinds[..k]), RightTaken(kinds[..k]);
            l < |deleted| && r < |inserted| && Similarity(deleted[l], inserted[r]) >= 0.35
  {
    hide FitsTable, Alignment, Similarity, Walk, LeftTaken, RightTaken;
    var kinds := Alignment(deleted, inserted);
    var l, r := LeftTaken(kinds[..k]), RightTaken(kinds[..k]);
    FittingIsWalk(deleted, inserted);
    StepAllowed(GridOf(deleted, inserted), kinds, 0, 0, k);
    GridAt(deleted, inserted, l, r);
  }

  lemma {:induction false} WalkBounds(g: Grid, i: nat, j: nat)
    requires i <= g.rows && j <= g.columns && Walk(g, i, j) != []
    ensures !Walk(g, i, j)[0].Insert? ==> i < g.rows
    ensures !Walk(g, i, j)[0].Delete? ==> j < g.columns
    ensures i < g.rows && j < g.columns ==> Walk(g, i, j)[0] == Cell(g, i, j).kind
    ensures var kind := Walk(g, i, j)[0];
            Walk(g, i, j)[1..] == Walk(g, if kind.Insert? then i else i + 1, if kind.Delete? then j else j + 1)
  {
    hide Cell;
  }

  /** A skip on one side and then on the other costs 2, more than any pair. */
  lemma {:induction false} SkipsCostTwo(g: Grid, i: nat, j: nat)
    requires i < g.rows && j < g.columns && |Walk(g, i, j)| >= 2
    requires {Walk(g, i, j)[0], Walk(g, i, j)[1]} == {Delete, Insert}
    ensures !CanPair(SimilarityAt(g, i, j), g.rows, g.columns)
  {
    var first, second := Walk(g, i, j)[0], Walk(g, i, j)[1];
    WalkBounds(g, i, j);
    WalkStep(g, i, j);
    var i1, j1 := if first.Insert? then i else i + 1, if first.Delete? then j else j + 1;
    WalkBounds(g, i1, j1);
    if i1 < g.rows && j1 < g.columns {
      WalkStep(g, i1, j1);
    }
    assert second == Walk(g, i1, j1)[0];
    assert Cell(g, i, j).cost == 2.0 + Cell(g, i + 1, j + 1).cost;
    assert PairCost(SimilarityAt(g, i, j)) + EPSILON < 2.0;
  }

  lemma {:induction false} WalkSkips(g: Grid, i: nat, j: nat, k: nat)
    requires i <= g.rows && j <= g.columns && k + 1 < |Walk(g, i, j)|
    requires {Walk(g, i, j)[k], Walk(g, i, j)[k + 1]} == {Delete, Insert}
    ensures var l, r := i + LeftTaken(Walk(g, i, j)[..k]), j + RightTaken(Walk(g, i, j)[..k]);
            l < g.rows && r < g.columns && !CanPair(SimilarityAt(g, l, r), g.rows, g.columns)
    decreases k
  {
    hide CanPair, SimilarityAt, Cell;
    var kinds := Walk(g, i, j);
    WalkBounds(g, i, j);
    var i1, j1 := if kinds[0].Insert? then i else i + 1, if kinds[0].Delete? then j else j + 1;
    if k > 0 {
      assert kinds[1..][k - 1] == kinds[k] && kinds[1..][k] == kinds[k + 1];
      WalkSkips(g, i1, j1, k - 1);
      assert kinds[..k] == [kinds[0]] + kinds[1..][..k - 1];
      TakenCons(kinds[0], kinds[1..][..k - 1]);
    } else {
      WalkBounds(g, i1, j1);
      assert kinds[1] == kinds[1..][0];
      SkipsCostTwo(g, i, j);
    }
  }

  /** Where a line is deleted and the next step inserts one, or the other way round, the two are not similar. */
  lemma {:induction false} SimilarLinesAreNotSkipped(deleted: seq<Line>, inserted: seq<Line>, k: nat)
    requires |deleted| > 1 && |inserted| > 1 && FitsTable(deleted, inserted)
    requires var kinds := Alignment(deleted, inserted); k + 1 < |kinds| && {kinds[k], kinds[k + 1]} == {Delete, Insert}
    ensures var kinds := Alignment(deleted, inserted);
            var l, r := LeftTaken(kinds[..k]), RightTaken(kinds[..k]);
            l < |deleted| && r < |inserted| && Similarity(deleted[l], inserted[r]) < 0.35
  {
    hide FitsTable, Alignment, Similarity, Walk, LeftTaken, RightTaken, SimilarityAt, GridOf;
    var kinds := Alignment(deleted, inserted);
    var l, r := LeftTaken(kinds[..k]), RightTaken(kinds[..k]);
    FittingIsWalk(deleted, inserted);
    GridSize(deleted, inserted);
    WalkSkips(GridOf(deleted, inserted), 0, 0, k);
    GridAt(deleted, inserted, l, r);
  }

  lemma {:induction false} LargeIsCoarse(deleted: seq<Line>, inserted: seq<Line>)
    requires !FitsTable(deleted, inserted) && deleted != [] && inserted != []
    ensures var paired := Min(|deleted|, |inserted|);
            var rest := Repeat(Delete, |deleted| - paired) + Repeat(Insert, |inserted| - paired);
            Alignment(deleted, inserted) == Repeat(Pair, paired) + rest
  {
    hide Walk, GridOf;
    ProductExceedsIsProduct(|deleted| + 1, |inserted| + 1, MAX_HUNK_ALIGNMENT_MATRIX_CELLS);
  }

  /** A hunk too large for the table pairs its lines by position, as many as the shorter side has. */
  lemma {:induction false} LargeHunkPairsByPosition(deleted: seq<Line>, inserted: seq<Line>)
    requires !FitsTable(deleted, inserted) && deleted != [] && inserted != []
    ensures var kinds, paired := Alignment(deleted, inserted), Min(|deleted|, |inserted|);
            && |kinds| >= paired && Count(kinds, Pair) == paired
            && forall k | 0 <= k < paired :: kinds[k].Pair?
  {
    hide FitsTable, Alignment;
    var paired := Min(|deleted|, |inserted|);
    LargeIsCoarse(deleted, inserted);
    var a, b, c := Repeat(Pair, paired), Repeat(Delete, |deleted| - paired), Repeat(Insert, |inserted| - paired);
    CountConcat(a, b + c, Pair);
    CountConcat(b, c, Pair);
    CountRepeat(Pair, paired, Pair);
    CountRepeat(Delete, |deleted| - paired, Pair);
    CountRepeat(Insert, |inserted| - paired, Pair);
  }

  // ----- No pairing does better -----

  /** `kinds` takes each line from `(i, j)` on once, in order, and pairs only similar ones. */
  ghost predicate PairsSimilar(deleted: seq<Line>, inserted: seq<Line>, kinds: seq<Kind>, i: nat, j: nat)
    decreases |kinds|
  {
    if kinds == [] then i == |deleted| && j == |inserted|
    else
      match kinds[0]
      case Pair => i < |deleted| && j < |inserted| && Similarity(deleted[i], inserted[j]) >= 0.35
          && PairsSimilar(deleted, inserted, kinds[1..], i + 1, j + 1)
      case Delete => i < |deleted| && PairsSimilar(deleted, inserted, kinds[1..], i + 1, j)
      case Insert => j < |inserted| && PairsSimilar(deleted, inserted, kinds[1..], i, j + 1)
  }

  /** One for every pair, and its similarity. */
  ghost function Gain(deleted: seq<Line>, inserted: seq<Line>, kinds: seq<Kind>, i: nat, j: nat): real
    decreases |kinds|
  {
    if kinds == [] then 0.0
    else
      match kinds[0]
      case Pair => (if i < |deleted| && j < |inserted| then 1.0 + Similarity(deleted[i], inserted[j]) else 0.0)
          + Gain(deleted, inserted, kinds[1..], i + 1, j + 1)
      case Delete => Gain(deleted, inserted, kinds[1..], i + 1, j)
      case Insert => Gain(deleted, inserted, kinds[1..], i, j + 1)
  }

  lemma {:induction false} CostFromGain(deleted: seq<Line>, inserted: seq<Line>, kinds: seq<Kind>, i: nat, j: nat)
    requires |deleted| > 1 && |inserted| > 1 && PairsSimilar(deleted, inserted, kinds, i, j)
    ensures i <= |deleted| && j <= |inserted|
    ensures Aligns(GridOf(deleted, inserted), kinds, i, j)
    ensures Cost(GridOf(deleted, inserted), kinds, i, j)
         == (|deleted| - i + |inserted| - j) as real - 0.85 * Gain(deleted, inserted, kinds, i, j)
    decreases |kinds|
  {
    if kinds != [] {
      match kinds[0]
      case Pair =>
        CostFromGain(deleted, inserted, kinds[1..], i + 1, j + 1);
        GridAt(deleted, inserted, i, j);
        SimilarityIsShare(deleted[i], inserted[j]);
      case Delete => CostFromGain(deleted, inserted, kinds[1..], i + 1, j);
      case Insert => CostFromGain(deleted, inserted, kinds[1..], i, j + 1);
    }
  }

  lemma {:induction false} AlignedPairsSimilar(deleted: seq<Line>, inserted: seq<Line>, kinds: seq<Kind>, i: nat,
                                               j: nat)
    requires |deleted| > 1 && |inserted| > 1 && Aligns(GridOf(deleted, inserted), kinds, i, j)
    ensures PairsSimilar(deleted, inserted, kinds, i, j)
    decreases |kinds|
  {
    if kinds != [] {
      match kinds[0]
      case Pair =>
        GridAt(deleted, inserted, i, j);
        AlignedPairsSimilar(deleted, inserted, kinds[1..], i + 1, j + 1);
      case Delete => AlignedPairsSimilar(deleted, inserted, kinds[1..], i + 1, j);
      case Insert => AlignedPairsSimilar(deleted, inserted, kinds[1..], i, j + 1);
    }
  }

  /** The number of pairs and their total similarity, taken together, are as large as any way to pair similar
      lines in order makes them, up to a millionth of a pair for each line. */
  lemma {:induction false} AlignmentGainsMost(deleted: seq<Line>, inserted: seq<Line>, other: seq<Kind>)
    requires |deleted| > 1 && |inserted| > 1 && FitsTable(deleted, inserted)
    requires PairsSimilar(deleted, inserted, other, 0, 0)
    ensures PairsSimilar(deleted, inserted, Alignment(deleted, inserted), 0, 0)
    ensures 0.85 * Gain(deleted, inserted, other, 0, 0)
         <= 0.85 * Gain(deleted, inserted, Alignment(deleted, inserted), 0, 0)
            + (|deleted| + |inserted|) as real * 0.000001
  {
    hide Alignment, Gain, Cost, Aligns, PairsSimilar;
    CostFromGain(deleted, inserted, other, 0, 0);
    AlignmentIsNearMinimal(deleted, inserted, other);
    AlignedPairsSimilar(deleted, inserted, Alignment(deleted, inserted), 0, 0);
    CostFromGain(deleted, inserted, Alignment(deleted, inserted), 0, 0);
  }
}
