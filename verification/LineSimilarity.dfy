/** How alike two lines are: the weight of their common significant tokens. */
module LineSimilarity {
  import opened Basics
  import opened Text
  import opened CommonSubsequence

  const PAIRING_GATE: real := 0.35

  // ----- Significant tokens as texts -----

  function SignificantText(line: TokenizedLine, k: nat): Line {
    if k < |line.significantTokenIndices| && line.significantTokenIndices[k] < |line.tokens| then
      var token := line.tokens[line.significantTokenIndices[k]];
      if token.start <= token.end <= |line.text| then line.text[token.start..token.end] else ""
    else ""
  }

  function SignificantTexts(line: TokenizedLine, count: nat): (texts: seq<Line>)
    ensures |texts| == count && forall k | 0 <= k < count :: texts[k] == SignificantText(line, k)
  {
    if count == 0 then [] else SignificantTexts(line, count - 1) + [SignificantText(line, count - 1)]
  }

  function Texts(line: TokenizedLine): (texts: seq<Line>)
    ensures |texts| == |line.significantTokenIndices|
    ensures forall k | 0 <= k < |texts| :: texts[k] == SignificantText(line, k)
  {
    SignificantTexts(line, |line.significantTokenIndices|)
  }

  function Lengths(texts: seq<Line>): (w: seq<nat>)
    ensures |w| == |texts| && forall k | 0 <= k < |w| :: w[k] == |texts[k]|
  {
    if texts == [] then [] else Lengths(texts[..|texts| - 1]) + [|texts[|texts| - 1]|]
  }

  function TotalFrom(texts: seq<Line>, k: nat): nat
    requires k <= |texts|
    decreases |texts| - k
  {
    if k == |texts| then 0 else |texts[k]| + TotalFrom(texts, k + 1)
  }

  // ----- The common bytes -----

  /** The heaviest common subsequence of the significant tokens, in bytes; 0 above the cell cap. */
  function CommonBytes(left: seq<Line>, right: seq<Line>): nat {
    if left == [] || right == [] then 0
    else if ProductExceeds(|left| + 1, |right| + 1, MAX_INTRALINE_LCS_MATRIX_CELLS) then 0
    else Greedy(left, right, Lengths(left), 0, 0)
  }

  /** Within the cap it is the true maximum over all order-preserving pairings of equal tokens. */
  lemma {:induction false} CommonBytesIsMaximum(left: seq<Line>, right: seq<Line>, p: seq<Pair>)
    requires (|left| + 1) * (|right| + 1) <= MAX_INTRALINE_LCS_MATRIX_CELLS
    ensures Pairing(left, right, p, 0, 0) ==> Weight(Lengths(left), p) <= CommonBytes(left, right)
    ensures exists q :: Pairing(left, right, q, 0, 0) && Weight(Lengths(left), q) == CommonBytes(left, right)
  {
    var w := Lengths(left);
    ProductExceedsIsProduct(|left| + 1, |right| + 1, MAX_INTRALINE_LCS_MATRIX_CELLS);
    GreedyIsBest(left, right, w, 0, 0);
    GreedyTraceAttains(left, right, w, 0, 0);
    if Pairing(left, right, p, 0, 0) {
      BestIsUpperBound(left, right, w, p, 0, 0);
    }
  }

  lemma {:induction false} GreedyWithinBoth(left: seq<Line>, right: seq<Line>, i: nat, j: nat)
    requires i <= |left| && j <= |right|
    ensures Greedy(left, right, Lengths(left), i, j) <= TotalFrom(left, i)
    ensures Greedy(left, right, Lengths(left), i, j) <= TotalFrom(right, j)
    decreases |left| - i + |right| - j
  {
    if i < |left| && j < |right| {
      if left[i] == right[j] {
        GreedyWithinBoth(left, right, i + 1, j + 1);
      } else {
        GreedyWithinBoth(left, right, i + 1, j);
        GreedyWithinBoth(left, right, i, j + 1);
      }
    }
  }

  lemma {:induction false} TotalSnoc(texts: seq<Line>, text: Line, k: nat)
    requires k <= |texts|
    ensures TotalFrom(texts + [text], k) == TotalFrom(texts, k) + |text|
    decreases |texts| - k
  {
    if k < |texts| {
      TotalSnoc(texts, text, k + 1);
    }
  }

  /** A line with the tokens it starts with. */
  function Prefix(text: Line, tokens: seq<LineToken>): TokenizedLine {
    TokenizedLine(text, tokens, SignificantIndices(tokens), SignificantBytes(tokens))
  }

  lemma {:induction false} NothingTotalled(text: Line)
    ensures TotalFrom(Texts(Prefix(text, [])), 0) == 0
  {
  }

  lemma {:induction false} OneMoreText(text: Line, tokens: seq<LineToken>)
    requires tokens != [] && forall k | 0 <= k < |tokens| :: tokens[k].start <= tokens[k].end <= |text|
    ensures var before, last := Texts(Prefix(text, tokens[..|tokens| - 1])), tokens[|tokens| - 1];
            Texts(Prefix(text, tokens)) == if last.kind == Whitespace then before
                else before + [text[last.start..last.end]]
  {
    hide Texts;
  }

  lemma {:induction false} BytesOfTokens(text: Line, tokens: seq<LineToken>)
    requires forall k | 0 <= k < |tokens| :: tokens[k].start <= tokens[k].end <= |text|
    ensures TotalFrom(Texts(Prefix(text, tokens)), 0) == SignificantBytes(tokens)
  {
    hide Texts, TotalFrom;
    if tokens == [] {
      NothingTotalled(text);
    } else {
      var n := |tokens| - 1;
      var before, token := Texts(Prefix(text, tokens[..n])), tokens[n];
      BytesOfTokens(text, tokens[..n]);
      OneMoreText(text, tokens);
      TotalSnoc(before, text[token.start..token.end], 0);
    }
  }

  /** The byte counts kept with a tokenized line are those of its significant tokens. */
  lemma {:induction false} BytesOfLine(text: Line)
    ensures TotalFrom(Texts(Tokenized(text)), 0) == Tokenized(text).significantTokenBytes
  {
    TokensTile(text, 0);
    BytesOfTokens(text, Tokenize(text, 0));
  }

  /** Common bytes never exceed either side's bytes. */
  lemma {:induction false} CommonWithinBoth(left: Line, right: Line)
    ensures CommonBytes(Texts(Tokenized(left)), Texts(Tokenized(right))) <= Tokenized(left).significantTokenBytes
    ensures CommonBytes(Texts(Tokenized(left)), Texts(Tokenized(right))) <= Tokenized(right).significantTokenBytes
  {
    BytesOfLine(left);
    BytesOfLine(right);
    GreedyWithinBoth(Texts(Tokenized(left)), Texts(Tokenized(right)), 0, 0);
  }

  lemma {:induction false} GreedyEdge<T>(a: seq<T>, b: seq<T>, w: seq<nat>, i: nat)
    requires |w| == |a| && i < |a|
    ensures Greedy(a, b, w, i, |b|) == Greedy(a, b, w, i + 1, |b|) == 0
  {
  }

  lemma {:induction false} GreedyStep<T>(a: seq<T>, b: seq<T>, w: seq<nat>, i: nat, j: nat)
    requires |w| == |a| && i < |a| && j < |b|
    ensures Greedy(a, b, w, i, j)
         == if a[i] == b[j] then w[i] + Greedy(a, b, w, i + 1, j + 1)
            else Max(Greedy(a, b, w, i + 1, j), Greedy(a, b, w, i, j + 1))
  {
  }

  /** One row of the rolling table, right to left; the cell below and to the right is carried along. */
  method RollRow(left: TokenizedLine, right: TokenizedLine, i: nat, below: seq<nat>) returns (row: seq<nat>)
    requires i < |Texts(left)| && RowIsGreedy(Texts(left), Texts(right), Lengths(Texts(left)), below, i + 1, 0,
                                              |Texts(right)| + 1)
    ensures RowIsGreedy(Texts(left), Texts(right), Lengths(Texts(left)), row, i, 0, |Texts(right)| + 1)
  {
    hide Lengths, SignificantText, Texts;
    ghost var a, b := Texts(left), Texts(right);
    GreedyEdge(a, b, Lengths(a), i);
    hide Greedy;
    var leftText := SignificantText(left, i);
    row := below;
    var diagonal := 0;
    var j := |right.significantTokenIndices|;
    while j > 0
      invariant 0 <= j <= |b|
      invariant RowIsGreedy(a, b, Lengths(a), row, i + 1, 0, j) && RowIsGreedy(a, b, Lengths(a), row, i, j + 1, |b| + 1)
      invariant row[j] == Greedy(a, b, Lengths(a), if j == |b| then i + 1 else i, j)
      invariant diagonal == Greedy(a, b, Lengths(a), i + 1, j)
    {
      j := j - 1;
      GreedyStep(a, b, Lengths(a), i, j);
      var rightText := SignificantText(right, j);
      var under := row[j];
      var value := if rightText == leftText then |leftText| + diagonal else Max(under, row[j + 1]);
      diagonal := under;
      row := row[j := value];
    }
  }

  method CommonSignificantTokenBytes(left: TokenizedLine, right: TokenizedLine) returns (common: nat)
    ensures common == CommonBytes(Texts(left), Texts(right))
  {
    var leftCount, rightCount := |left.significantTokenIndices|, |right.significantTokenIndices|;
    if leftCount == 0 || rightCount == 0 {
      return 0;
    }
    if ProductExceeds(leftCount + 1, rightCount + 1, MAX_INTRALINE_LCS_MATRIX_CELLS) {
      return 0;
    }
    var dp := seq(rightCount + 1, _ => 0);
    var i := leftCount;
    while i > 0
      invariant 0 <= i <= leftCount
      invariant RowIsGreedy(Texts(left), Texts(right), Lengths(Texts(left)), dp, i, 0, rightCount + 1)
    {
      i := i - 1;
      dp := RollRow(left, right, i, dp);
    }
    common := dp[0];
  }

  // ----- Similarity -----

  function Clamp(x: real): real {
    if x < 0.0 then 0.0 else if 1.0 < x then 1.0 else x
  }

  /** The similarity of two lines, from 0 to 1. */
  function Similarity(left: Line, right: Line): real {
    var l, r := Tokenized(left), Tokenized(right);
    if left == right then 1.0
    else if l.significantTokenIndices == [] && r.significantTokenIndices == [] then 1.0
    else if l.significantTokenBytes == 0 || r.significantTokenBytes == 0 then 0.0
    else Share(CommonBytes(Texts(l), Texts(r)), l.significantTokenBytes, r.significantTokenBytes)
  }

  function Share(common: nat, leftBytes: nat, rightBytes: nat): real
    requires leftBytes + rightBytes > 0
  {
    if common == 0 then 0.0 else Clamp((2.0 * common as real) / (leftBytes + rightBytes) as real)
  }

  /** What the similarity of lines with these byte counts cannot exceed. */
  function Ceiling(leftBytes: nat, rightBytes: nat): real
    requires leftBytes + rightBytes > 0
  {
    (2.0 * (if leftBytes < rightBytes then leftBytes else rightBytes) as real) / (leftBytes + rightBytes) as real
  }

  lemma {:induction false} QuotientOrder(x: real, y: real, total: real)
    requires x <= y && total > 0.0
    ensures x / total <= y / total
  {
  }

  lemma {:induction false} ShareOrder(common: real, most: real, total: real)
    requires 0.0 <= common <= most && 2.0 * most <= total && total > 0.0
    ensures 0.0 <= (2.0 * common) / total <= (2.0 * most) / total <= 1.0
  {
    QuotientOrder(0.0, 2.0 * common, total);
    QuotientOrder(2.0 * common, 2.0 * most, total);
    QuotientOrder(2.0 * most, total, total);
  }

  lemma {:induction false} ShareWithinCeiling(common: nat, leftBytes: nat, rightBytes: nat)
    requires leftBytes + rightBytes > 0 && common <= leftBytes && common <= rightBytes
    ensures 0.0 <= Share(common, leftBytes, rightBytes) <= Ceiling(leftBytes, rightBytes) <= 1.0
  {
    var most := if leftBytes < rightBytes then leftBytes else rightBytes;
    var total := (leftBytes + rightBytes) as real;
    ShareOrder(common as real, most as real, total);
  }

  /** No similarity is above the ceiling of its lines' byte counts. */
  lemma {:induction false} CeilingHolds(left: Line, right: Line)
    requires Tokenized(left).significantTokenBytes + Tokenized(right).significantTokenBytes > 0
    ensures 0.0 <= Similarity(left, right) <= Ceiling(Tokenized(left).significantTokenBytes,
                                                      Tokenized(right).significantTokenBytes)
  {
    var lb, rb := Tokenized(left).significantTokenBytes, Tokenized(right).significantTokenBytes;
    CommonWithinBoth(left, right);
    ShareWithinCeiling(CommonBytes(Texts(Tokenized(left)), Texts(Tokenized(right))), lb, rb);
    if left == right {
      HalfAndHalf(lb);
    } else if Tokenized(left).significantTokenIndices == [] && Tokenized(right).significantTokenIndices == [] {
      BytesOfLine(left);
      BytesOfLine(right);
      assert false;
    } else if lb == 0 || rb == 0 {
      ShareWithinCeiling(0, lb, rb);
    }
  }

  lemma {:induction false} HalfAndHalf(bytes: nat)
    requires bytes > 0
    ensures Ceiling(bytes, bytes) == 1.0
  {
  }

  method MeasureSimilarity(left: TokenizedLine, right: TokenizedLine) returns (similarity: real)
    requires left == Tokenized(left.text) && right == Tokenized(right.text)
    ensures similarity == Similarity(left.text, right.text)
  {
    if left.text == right.text {
      return 1.0;
    }
    if left.significantTokenIndices == [] && right.significantTokenIndices == [] {
      return 1.0;
    }
    if left.significantTokenBytes == 0 || right.significantTokenBytes == 0 {
      return 0.0;
    }
    var common := CommonSignificantTokenBytes(left, right);
    similarity := ShareOf(common, left.significantTokenBytes, right.significantTokenBytes);
  }

  method ShareOf(common: nat, leftBytes: nat, rightBytes: nat) returns (share: real)
    requires leftBytes + rightBytes > 0
    ensures share == Share(common, leftBytes, rightBytes)
  {
    if common == 0 {
      return 0.0;
    }
    share := Clamp((2.0 * common as real) / (leftBytes + rightBytes) as real);
  }
}
