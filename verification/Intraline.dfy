/** The changed spans within a modified row: by token where the lines have several and few enough of
    them, else by codepoint, and trimmed to the part of the lines between their equal ends. */
module Intraline {
  import opened Basics
  import opened Text
  import opened CommonSubsequence
  import opened ChangedUnits

  const MAX_HUNK_INTRALINE_TOTAL_CELLS := 8388608
  const MAX_INTRALINE_TEXT_BYTES := 64 * 1024

  datatype Span = Span(start: nat, end: nat)

  /** The changed spans of the two sides. */
  datatype Marks = Marks(left: seq<Span>, right: seq<Span>)

  datatype RowKind = Unchanged | Added | Deleted | Modified

  // ----- Units of a line -----

  datatype Unit = Unit(kind: LineTokenKind, text: Line)

  /** `units` are the pieces of the text between the cuts. */
  ghost predicate CutsInto(text: Line, cuts: seq<nat>, units: seq<Unit>) {
    && |cuts| == |units| + 1
    && cuts[0] == 0 && cuts[|units|] == |text|
    && forall k | 0 <= k < |units| :: Piece(text, cuts, units, k)
  }

  ghost predicate Piece(text: Line, cuts: seq<nat>, units: seq<Unit>, k: nat) {
    && k < |units| && k + 1 < |cuts|
    && cuts[k] < cuts[k + 1] <= |text|
    && units[k].text == text[cuts[k]..cuts[k + 1]]
  }

  function TokenUnits(text: Line, tokens: seq<LineToken>, count: nat): (units: seq<Unit>)
    requires count <= |tokens|
    ensures |units| == count
    ensures forall k | 0 <= k < count :: units[k] == Unit(tokens[k].kind, Slice(text, tokens[k].start, tokens[k].end))
  {
    if count == 0 then []
    else
      var token := tokens[count - 1];
      TokenUnits(text, tokens, count - 1) + [Unit(token.kind, Slice(text, token.start, token.end))]
  }

  function TokenCuts(text: Line, tokens: seq<LineToken>, count: nat): (cuts: seq<nat>)
    requires count <= |tokens|
    ensures |cuts| == count + 1 && cuts[0] == 0
    ensures forall k | 0 < k <= count :: cuts[k] == tokens[k - 1].end
  {
    if count == 0 then [0] else TokenCuts(text, tokens, count - 1) + [tokens[count - 1].end]
  }

  function CodepointUnits(text: Line, cuts: seq<nat>, count: nat): (units: seq<Unit>)
    requires count < |cuts|
    ensures |units| == count
    ensures forall k | 0 <= k < count :: units[k] == Unit(Symbol, Slice(text, cuts[k], cuts[k + 1]))
  {
    if count == 0 then []
    else CodepointUnits(text, cuts, count - 1) + [Unit(Symbol, Slice(text, cuts[count - 1], cuts[count]))]
  }

  /** A line with its cuts and units. */
  datatype Cut = Cut(text: Line, cuts: seq<nat>, units: seq<Unit>)

  ghost predicate WellCut(c: Cut) {
    CutsInto(c.text, c.cuts, c.units)
  }

  function ByToken(text: Line): (c: Cut)
    ensures c.text == text && |c.cuts| == |c.units| + 1
  {
    var tokens := Tokenize(text, 0);
    Cut(text, TokenCuts(text, tokens, |tokens|), TokenUnits(text, tokens, |tokens|))
  }

  function ByCodepoint(text: Line): (c: Cut)
    ensures c.text == text && |c.cuts| == |c.units| + 1
  {
    var cuts := Utf8Offsets(text, 0);
    Cut(text, cuts, CodepointUnits(text, cuts, |cuts| - 1))
  }

  lemma {:induction false} TokensCut(text: Line)
    ensures WellCut(ByToken(text))
  {
    var tokens := Tokenize(text, 0);
    TokensTile(text, 0);
    var c := ByToken(text);
    forall k | 0 <= k < |c.units| ensures Piece(text, c.cuts, c.units, k) {
      assert tokens[k].start < tokens[k].end <= |text|;
      assert k > 0 ==> tokens[k - 1].end == tokens[k].start;
    }
  }

  lemma {:induction false} CodepointsCut(text: Line)
    ensures WellCut(ByCodepoint(text))
  {
    var c := ByCodepoint(text);
    forall k | 0 <= k < |c.units| ensures Piece(text, c.cuts, c.units, k) {
      assert c.cuts[k] < c.cuts[k + 1];
      assert k + 1 < |c.cuts| - 1 ==> c.cuts[k + 1] < c.cuts[|c.cuts| - 1];
    }
  }

  /** Every unit has at least one byte. */
  lemma {:induction false} UnitsWithinBytes(c: Cut, k: nat)
    requires WellCut(c) && k <= |c.units|
    ensures k <= c.cuts[k] <= |c.text|
  {
    if k > 0 {
      UnitsWithinBytes(c, k - 1);
      assert Piece(c.text, c.cuts, c.units, k - 1);
    }
  }

  // ----- Spans of flagged runs -----

  function FlagRunEnd(changed: seq<bool>, k: nat): (end: nat)
    requires k <= |changed|
    ensures k <= end <= |changed| && (forall i | k <= i < end :: changed[i])
    ensures end < |changed| ==> !changed[end]
    decreases |changed| - k
  {
    if k < |changed| && changed[k] then FlagRunEnd(changed, k + 1) else k
  }

  /** One span for each maximal run of flags, from unit `k` on. */
  function SpansFrom(cuts: seq<nat>, changed: seq<bool>, k: nat): seq<Span>
    requires |cuts| == |changed| + 1 && k <= |changed|
    decreases |changed| - k
  {
    if k == |changed| then []
    else if !changed[k] then SpansFrom(cuts, changed, k + 1)
    else
      var end := FlagRunEnd(changed, k);
      [Span(cuts[k], cuts[end])] + SpansFrom(cuts, changed, end)
  }

  method BuildSpansFromChanged(cuts: seq<nat>, changed: seq<bool>) returns (spans: seq<Span>)
    requires |cuts| == |changed| + 1
    ensures spans == SpansFrom(cuts, changed, 0)
  {
    spans := [];
    var index := 0;
    while index < |changed|
      invariant index <= |changed| && spans + SpansFrom(cuts, changed, index) == SpansFrom(cuts, changed, 0)
    {
      if !changed[index] {
        index := index + 1;
        continue;
      }
      var first := index;
      while index < |changed| && changed[index]
        invariant first <= index <= |changed| && FlagRunEnd(changed, first) == FlagRunEnd(changed, index)
        decreases |changed| - index
      {
        index := index + 1;
      }
      spans := spans + [Span(cuts[first], cuts[index])];
    }
  }

  // ----- What deleting the spans leaves -----

  /** The text from `from` on without the spans. */
  ghost function Without(text: Line, spans: seq<Span>, from: nat): Line
    decreases |spans|
  {
    if spans == [] then Slice(text, from, |text|)
    else Slice(text, from, spans[0].start) + Without(text, spans[1..], spans[0].end)
  }

  ghost function Join(units: seq<Unit>): Line {
    if units == [] then "" else units[0].text + Join(units[1..])
  }

  /** `spans` are in order, apart and inside `[lo, hi]`. */
  ghost predicate Ordered(spans: seq<Span>, lo: nat, hi: nat)
    decreases |spans|
  {
    spans == [] || (lo <= spans[0].start < spans[0].end <= hi && Ordered(spans[1..], spans[0].end, hi))
  }

  lemma {:induction false} CutsAscend(c: Cut, i: nat, k: nat)
    requires WellCut(c) && i <= k <= |c.units|
    ensures c.cuts[i] <= c.cuts[k] <= |c.text|
    ensures i < k ==> c.cuts[i] < c.cuts[k]
    decreases k
  {
    if i < k {
      CutsAscend(c, i, k - 1);
      assert Piece(c.text, c.cuts, c.units, k - 1);
    } else if 0 < k {
      assert Piece(c.text, c.cuts, c.units, k - 1);
    }
  }

  lemma {:induction false} SpansOrdered(c: Cut, changed: seq<bool>, k: nat)
    requires WellCut(c) && |changed| == |c.units| && k <= |changed|
    ensures Ordered(SpansFrom(c.cuts, changed, k), c.cuts[k], |c.text|)
    decreases |changed| - k
  {
    if k < |changed| {
      if !changed[k] {
        SpansOrdered(c, changed, k + 1);
        CutsAscend(c, k, k + 1);
      } else {
        var end := FlagRunEnd(changed, k);
        SpansOrdered(c, changed, end);
        CutsAscend(c, k, end);
      }
    }
  }

  lemma {:induction false} WithoutSkips(text: Line, spans: seq<Span>, from: nat, to: nat)
    requires from <= to <= |text| && Ordered(spans, to, |text|)
    ensures Without(text, spans, from) == text[from..to] + Without(text, spans, to)
  {
    var stop := if spans == [] then |text| else spans[0].start;
    assert text[from..stop] == text[from..to] + text[to..stop];
  }

  lemma {:induction false} KeptSkipsRun(units: seq<Unit>, changed: seq<bool>, k: nat, end: nat)
    requires |units| == |changed| && k <= end <= |changed| && forall i | k <= i < end :: changed[i]
    ensures Kept(units[k..], changed[k..]) == Kept(units[end..], changed[end..])
    decreases end - k
  {
    if k < end {
      KeptSkipsRun(units, changed, k + 1, end);
      assert units[k..][1..] == units[k + 1..] && changed[k..][1..] == changed[k + 1..];
    }
  }

  lemma {:induction false} KeptTakesUnit(units: seq<Unit>, changed: seq<bool>, k: nat)
    requires |units| == |changed| && k < |changed| && !changed[k]
    ensures Kept(units[k..], changed[k..]) == [units[k]] + Kept(units[k + 1..], changed[k + 1..])
  {
    assert units[k..][1..] == units[k + 1..] && changed[k..][1..] == changed[k + 1..];
  }

  /** Deleting the spans leaves the units that are not flagged. */
  lemma {:induction false} WithoutIsKept(c: Cut, changed: seq<bool>, k: nat)
    requires WellCut(c) && |changed| == |c.units| && k <= |changed|
    ensures Without(c.text, SpansFrom(c.cuts, changed, k), c.cuts[k]) == Join(Kept(c.units[k..], changed[k..]))
    decreases |changed| - k
  {
    if k < |changed| {
      if !changed[k] {
        WithoutIsKept(c, changed, k + 1);
        SpansOrdered(c, changed, k + 1);
        CutsAscend(c, k, k + 1);
        WithoutSkips(c.text, SpansFrom(c.cuts, changed, k + 1), c.cuts[k], c.cuts[k + 1]);
        KeptTakesUnit(c.units, changed, k);
        assert Piece(c.text, c.cuts, c.units, k);
      } else {
        var end := FlagRunEnd(changed, k);
        WithoutIsKept(c, changed, end);
        KeptSkipsRun(c.units, changed, k, end);
        CutsAscend(c, k, end);
        assert SpansFrom(c.cuts, changed, k)[1..] == SpansFrom(c.cuts, changed, end);
      }
    }
  }

  function MarksOf(left: Cut, right: Cut, pairs: seq<Pair>): Marks
    requires |left.cuts| == |left.units| + 1 && |right.cuts| == |right.units| + 1
  {
    Marks(SpansFrom(left.cuts, LeftChanged(left.units, right.units, pairs), 0),
          SpansFrom(right.cuts, RightChanged(left.units, right.units, pairs), 0))
  }

  /** The same text is left on both sides. */
  ghost predicate SameRemainder(left: Line, right: Line, marks: Marks) {
    Without(left, marks.left, 0) == Without(right, marks.right, 0)
  }

  lemma {:induction false} MarksLeaveTheSame(left: Cut, right: Cut, pairs: seq<Pair>)
    requires WellCut(left) && WellCut(right) && MiddlePairing(left.units, right.units, pairs)
    ensures SameRemainder(left.text, right.text, MarksOf(left, right, pairs))
  {
    WithoutIsKept(left, LeftChanged(left.units, right.units, pairs), 0);
    WithoutIsKept(right, RightChanged(left.units, right.units, pairs), 0);
    var f, g := LeftChanged(left.units, right.units, pairs), RightChanged(left.units, right.units, pairs);
    assert left.units[0..] == left.units && right.units[0..] == right.units && f[0..] == f && g[0..] == g;
    SidesKeepTheSame(left.units, right.units, pairs);
  }

  // ----- The token path -----

  function TokenWeight(unit: Unit): nat {
    if unit.kind.Word? then |unit.text| + 4 else if |unit.text| > 0 then 1 else 0
  }

  function TokenWeights(units: seq<Unit>, count: nat): (w: seq<nat>)
    requires count <= |units|
    ensures |w| == count && forall k | 0 <= k < count :: w[k] == TokenWeight(units[k])
  {
    if count == 0 then [] else TokenWeights(units, count - 1) + [TokenWeight(units[count - 1])]
  }

  function MiddleOf(left: seq<Unit>, right: seq<Unit>): (m: (seq<Unit>, seq<Unit>)) {
    var p, s := Prefix(left, right), Suffix(left, right);
    (Between(left, p, s), Between(right, p, s))
  }

  function TokenPairs(left: seq<Unit>, right: seq<Unit>): seq<Pair> {
    var (l, r) := MiddleOf(left, right);
    Trace(l, r, TokenWeights(l, |l|), 0, 0)
  }

  function TokenMarks(left: Line, right: Line): Marks {
    MarksOf(ByToken(left), ByToken(right), TokenPairs(ByToken(left).units, ByToken(right).units))
  }

  /** The gate of the token path, decided before any table is built. */
  predicate TokenPathApplies(left: Line, right: Line) {
    var l, r := |ByToken(left).units|, |ByToken(right).units|;
    2 <= l && 2 <= r && !ProductExceeds(l + 1, r + 1, MAX_INTRALINE_LCS_MATRIX_CELLS)
  }

  lemma {:induction false} TokenPairsPair(left: seq<Unit>, right: seq<Unit>)
    ensures MiddlePairing(left, right, TokenPairs(left, right))
  {
    var (l, r) := MiddleOf(left, right);
    TraceAttainsBest(l, r, TokenWeights(l, |l|), 0, 0);
  }

  lemma {:induction false} TokenMarksLeaveTheSame(left: Line, right: Line)
    ensures SameRemainder(left, right, TokenMarks(left, right))
  {
    TokensCut(left);
    TokensCut(right);
    TokenPairsPair(ByToken(left).units, ByToken(right).units);
    MarksLeaveTheSame(ByToken(left), ByToken(right), TokenPairs(ByToken(left).units, ByToken(right).units));
  }

  /** What the token path keeps outweighs every pairing of equal tokens. */
  lemma {:induction false} TokenPathKeepsHeaviest(left: seq<Unit>, right: seq<Unit>, q: seq<Pair>)
    requires Pairing(left, right, q, 0, 0)
    ensures Weight(TokenWeights(left, |left|), q)
         <= Sum(Kept(TokenWeights(left, |left|), LeftChanged(left, right, TokenPairs(left, right))))
  {
    var (l, r) := MiddleOf(left, right);
    var w := TokenWeights(left, |left|);
    TokenPairsPair(left, right);
    TraceAttainsBest(l, r, TokenWeights(l, |l|), 0, 0);
    assert TokenWeights(l, |l|) == Between(w, Prefix(left, right), Suffix(left, right));
    EndsLoseNothing(left, right, w, TokenPairs(left, right));
    BestIsUpperBound(left, right, w, q, 0, 0);
  }

  lemma {:induction false} SpansOfFlag(cuts: seq<nat>, changed: seq<bool>, k: nat, i: nat)
    requires |cuts| == |changed| + 1 && k <= i < |changed| && changed[i]
    ensures SpansFrom(cuts, changed, k) != []
    decreases i - k
  {
    if !changed[k] {
      SpansOfFlag(cuts, changed, k + 1, i);
    }
  }

  lemma {:induction false} FlagGivesSpan(cuts: seq<nat>, changed: seq<bool>)
    requires |cuts| == |changed| + 1 && true in changed
    ensures SpansFrom(cuts, changed, 0) != []
  {
    var i :| 0 <= i < |changed| && changed[i];
    SpansOfFlag(cuts, changed, 0, i);
  }

  /** Once its table is built the token path never comes back empty-handed. */
  lemma {:induction false} TokenTableFindsSpans(a: Cut, b: Cut)
    requires WellCut(a) && WellCut(b) && MiddleOf(a.units, b.units).0 != [] && MiddleOf(a.units, b.units).1 != []
    ensures var marks := MarksOf(a, b, TokenPairs(a.units, b.units)); marks.left != [] || marks.right != []
  {
    var pairs := TokenPairs(a.units, b.units);
    TokenPairsPair(a.units, b.units);
    SomethingChanged(a.units, b.units, pairs);
    if true in LeftChanged(a.units, b.units, pairs) {
      FlagGivesSpan(a.cuts, LeftChanged(a.units, b.units, pairs));
    } else {
      FlagGivesSpan(b.cuts, RightChanged(a.units, b.units, pairs));
    }
  }

  // ----- The codepoint path -----

  function Ones(count: nat): (w: seq<nat>)
    ensures |w| == count && forall k | 0 <= k < count :: w[k] == 1
  {
    if count == 0 then [] else Ones(count - 1) + [1]
  }

  /** Above the cell cap nothing between the equal ends is paired. */
  function CodepointPairs(left: seq<Unit>, right: seq<Unit>): seq<Pair> {
    var (l, r) := MiddleOf(left, right);
    if l != [] && r != [] && !ProductExceeds(|l| + 1, |r| + 1, MAX_INTRALINE_LCS_MATRIX_CELLS)
    then GreedyTrace(l, r, Ones(|l|), 0, 0) else []
  }

  function CodepointMarks(left: Line, right: Line): Marks {
    MarksOf(ByCodepoint(left), ByCodepoint(right), CodepointPairs(ByCodepoint(left).units, ByCodepoint(right).units))
  }

  lemma {:induction false} CodepointPairsPair(left: seq<Unit>, right: seq<Unit>)
    ensures MiddlePairing(left, right, CodepointPairs(left, right))
  {
    var (l, r) := MiddleOf(left, right);
    GreedyTraceAttains(l, r, Ones(|l|), 0, 0);
  }

  lemma {:induction false} CodepointMarksLeaveTheSame(left: Line, right: Line)
    ensures SameRemainder(left, right, CodepointMarks(left, right))
  {
    CodepointsCut(left);
    CodepointsCut(right);
    CodepointPairsPair(ByCodepoint(left).units, ByCodepoint(right).units);
    MarksLeaveTheSame(ByCodepoint(left), ByCodepoint(right),
                      CodepointPairs(ByCodepoint(left).units, ByCodepoint(right).units));
  }

  lemma {:induction false} WeightOfOnes(w: seq<nat>, left: seq<Unit>, right: seq<Unit>, q: seq<Pair>, i: nat, j: nat)
    requires Pairing(left, right, q, i, j) && |w| == |left| && forall k | 0 <= k < |w| :: w[k] == 1
    ensures Weight(w, q) == |q|
  {
    if q != [] {
      WeightOfOnes(w, left, right, q[1..], q[0].0 + 1, q[0].1 + 1);
    }
  }

  lemma {:induction false} SumOfOnes(w: seq<nat>, units: seq<Unit>, changed: seq<bool>)
    requires |w| == |units| == |changed| && forall k | 0 <= k < |w| :: w[k] == 1
    ensures Sum(Kept(w, changed)) == |Kept(units, changed)|
  {
    if w != [] {
      SumOfOnes(w[1..], units[1..], changed[1..]);
      var rest := Kept(w[1..], changed[1..]);
      assert Sum([w[0]] + rest) == w[0] + Sum(rest) by {
        assert ([w[0]] + rest)[1..] == rest;
      }
      assert [] + rest == rest;
    }
  }

  /** Within the cell cap the codepoint path keeps a longest common subsequence of the whole lines, equal
      ends included: no pairing of equal codepoints is longer. */
  lemma {:induction false} CodepointPathKeepsLongest(left: seq<Unit>, right: seq<Unit>, q: seq<Pair>)
    requires var (l, r) := MiddleOf(left, right); (|l| + 1) * (|r| + 1) <= MAX_INTRALINE_LCS_MATRIX_CELLS
    requires Pairing(left, right, q, 0, 0)
    ensures var pairs := CodepointPairs(left, right);
            && Kept(left, LeftChanged(left, right, pairs)) == Kept(right, RightChanged(left, right, pairs))
            && |q| <= |Kept(left, LeftChanged(left, right, pairs))|
  {
    var (l, r) := MiddleOf(left, right);
    var w, pairs := Ones(|left|), CodepointPairs(left, right);
    CodepointPairsPair(left, right);
    SidesKeepTheSame(left, right, pairs);
    ProductExceedsIsProduct(|l| + 1, |r| + 1, MAX_INTRALINE_LCS_MATRIX_CELLS);
    CodepointMiddleIsBest(l, r);
    assert Ones(|l|) == Between(w, Prefix(left, right), Suffix(left, right));
    EndsLoseNothing(left, right, w, pairs);
    BestIsUpperBound(left, right, w, q, 0, 0);
    WeightOfOnes(w, left, right, q, 0, 0);
    SumOfOnes(w, left, LeftChanged(left, right, pairs));
  }

  lemma {:induction false} CodepointMiddleIsBest(l: seq<Unit>, r: seq<Unit>)
    ensures var w := Ones(|l|);
            Weight(w, if l != [] && r != [] then GreedyTrace(l, r, w, 0, 0) else []) == Best(l, r, w, 0, 0)
  {
    var w := Ones(|l|);
    GreedyIsBest(l, r, w, 0, 0);
    GreedyTraceAttains(l, r, w, 0, 0);
  }

  // ----- Trimming -----

  /** Spans cut to the window `[lo, hi)`; those outside are dropped. */
  function Clip(spans: seq<Span>, lo: nat, hi: nat): seq<Span> {
    if spans == [] then []
    else ClipLast(Clip(spans[..|spans| - 1], lo, hi), spans[|spans| - 1], lo, hi)
  }

  function ClipLast(clipped: seq<Span>, span: Span, lo: nat, hi: nat): seq<Span> {
    if span.end <= lo || hi <= span.start then clipped
    else
      var cut := Span(Max(span.start, lo), Min(span.end, hi));
      if cut.start < cut.end then clipped + [cut] else clipped
  }

  /** Clipping in place: what survives moves to the front, then the rest is dropped. */
  method TrimSpansToByteWindow(spans: seq<Span>, lo: nat, hi: nat) returns (trimmed: seq<Span>)
    ensures trimmed == Clip(spans, lo, hi)
  {
    trimmed := spans;
    var out, k := 0, 0;
    while k < |spans|
      invariant out <= k <= |spans| == |trimmed|
      invariant trimmed[..out] == Clip(spans[..k], lo, hi)
      invariant forall i | k <= i < |spans| :: trimmed[i] == spans[i]
    {
      var span := trimmed[k];
      assert spans[..k + 1][..k] == spans[..k];
      k := k + 1;
      if span.end <= lo || span.start >= hi {
        continue;
      }
      var start, end := Max(span.start, lo), Min(span.end, hi);
      if end > start {
        ghost var before := trimmed;
        trimmed := trimmed[out := Span(start, end)];
        assert trimmed[..out + 1] == before[..out] + [Span(start, end)];
        out := out + 1;
      }
    }
    assert spans[..k] == spans;
    trimmed := trimmed[..out];
  }

  lemma {:induction false} OrderedConcat(a: seq<Span>, b: Span, lo: nat, mid: nat, hi: nat)
    requires Ordered(a, lo, mid) && lo <= mid <= b.start < b.end <= hi
    ensures Ordered(a + [b], lo, hi)
  {
    if a != [] {
      OrderedConcat(a[1..], b, a[0].end, mid, hi);
      assert (a + [b])[1..] == a[1..] + [b];
    } else {
      assert a + [b] == [b];
    }
  }

  lemma {:induction false} OrderedWeaken(a: seq<Span>, lo: nat, hi: nat, lo1: nat, hi1: nat)
    requires Ordered(a, lo, hi) && lo1 <= lo && hi <= hi1
    ensures Ordered(a, lo1, hi1)
  {
    if a != [] {
      OrderedWeaken(a[1..], a[0].end, hi, a[0].end, hi1);
    }
  }

  lemma {:induction false} OrderedSplit(a: seq<Span>, lo: nat, hi: nat)
    requires Ordered(a, lo, hi) && a != []
    ensures var last := a[|a| - 1];
            lo <= last.start < last.end <= hi && Ordered(a[..|a| - 1], lo, last.start)
  {
    if |a| > 1 {
      OrderedSplit(a[1..], a[0].end, hi);
      assert a[1..][..|a| - 2] == a[..|a| - 1][1..];
    }
  }

  /** Clipping leaves ordered, disjoint spans inside the window. */
  lemma {:induction false} ClipKeepsOrder(spans: seq<Span>, a: nat, b: nat, lo: nat, hi: nat)
    requires Ordered(spans, a, b) && lo <= hi
    ensures Ordered(Clip(spans, lo, hi), lo, Max(lo, Min(b, hi)))
  {
    if spans != [] {
      var n := |spans| - 1;
      OrderedSplit(spans, a, b);
      ClipKeepsOrder(spans[..n], a, spans[n].start, lo, hi);
      var before := Clip(spans[..n], lo, hi);
      var mid := Max(lo, Min(spans[n].start, hi));
      var top := Max(lo, Min(b, hi));
      if ClipLast(before, spans[n], lo, hi) == before {
        OrderedWeaken(before, lo, mid, lo, top);
      } else {
        OrderedConcat(before, Span(Max(spans[n].start, lo), Min(spans[n].end, hi)), lo, mid, top);
      }
    }
  }

  /** What is between `p` leading and `s` trailing units of a line, as a byte window. */
  function Window(c: Cut, p: nat, s: nat): (w: (nat, nat))
    requires |c.cuts| == |c.units| + 1 && p + s <= |c.units|
  {
    (c.cuts[p], c.cuts[|c.units| - s])
  }

  /** The differing parts of the two lines of a row: between the equal codepoints at their ends. */
  function Windows(left: Line, right: Line): (w: ((nat, nat), (nat, nat))) {
    var l, r := ByCodepoint(left), ByCodepoint(right);
    var p, s := Prefix(l.units, r.units), Suffix(l.units, r.units);
    (Window(l, p, s), Window(r, p, s))
  }

  function Trimmed(left: Line, right: Line, marks: Marks): Marks {
    var (l, r) := Windows(left, right);
    Marks(Clip(marks.left, l.0, l.1), Clip(marks.right, r.0, r.1))
  }

  lemma {:induction false} WindowsAscend(left: Line, right: Line)
    ensures var (l, r) := Windows(left, right);
            l.0 <= l.1 <= |left| && r.0 <= r.1 <= |right|
  {
    var l, r := ByCodepoint(left), ByCodepoint(right);
    CodepointsCut(left);
    CodepointsCut(right);
    hide ByCodepoint, Prefix, Suffix, WellCut;
    CutsAscend(l, Prefix(l.units, r.units), |l.units| - Suffix(l.units, r.units));
    CutsAscend(r, Prefix(l.units, r.units), |r.units| - Suffix(l.units, r.units));
  }

  /** The marks of a modified row before they are trimmed. */
  function Untrimmed(left: Line, right: Line): Marks {
    if TokenPathApplies(left, right) then TokenMarks(left, right) else CodepointMarks(left, right)
  }

  /** Before trimming, deleting the changed spans leaves the same text on both sides. */
  lemma {:induction false} UntrimmedLeavesTheSame(left: Line, right: Line)
    ensures SameRemainder(left, right, Untrimmed(left, right))
  {
    TokenMarksLeaveTheSame(left, right);
    CodepointMarksLeaveTheSame(left, right);
  }

  lemma {:induction false} MarksOrdered(left: Cut, right: Cut, pairs: seq<Pair>)
    requires WellCut(left) && WellCut(right)
    ensures Ordered(MarksOf(left, right, pairs).left, 0, |left.text|)
    ensures Ordered(MarksOf(left, right, pairs).right, 0, |right.text|)
  {
    SpansOrdered(left, LeftChanged(left.units, right.units, pairs), 0);
    SpansOrdered(right, RightChanged(left.units, right.units, pairs), 0);
  }

  lemma {:induction false} UntrimmedOrdered(left: Line, right: Line)
    ensures Ordered(Untrimmed(left, right).left, 0, |left|)
    ensures Ordered(Untrimmed(left, right).right, 0, |right|)
  {
    TokensCut(left);
    TokensCut(right);
    CodepointsCut(left);
    CodepointsCut(right);
    MarksOrdered(ByToken(left), ByToken(right), TokenPairs(ByToken(left).units, ByToken(right).units));
    MarksOrdered(ByCodepoint(left), ByCodepoint(right),
                 CodepointPairs(ByCodepoint(left).units, ByCodepoint(right).units));
  }

  /** After trimming, the spans of each side are ordered, disjoint and inside the part of the line
      between the equal ends. */
  lemma {:induction false} TrimmedInsideWindow(left: Line, right: Line)
    ensures var marks := Trimmed(left, right, Untrimmed(left, right));
            var (l, r) := Windows(left, right);
            Ordered(marks.left, l.0, l.1) && Ordered(marks.right, r.0, r.1)
  {
    var (l, r) := Windows(left, right);
    var marks := Untrimmed(left, right);
    WindowsAscend(left, right);
    UntrimmedOrdered(left, right);
    hide Windows, Untrimmed, Clip, Ordered;
    ClipKeepsOrder(marks.left, 0, |left|, l.0, l.1);
    ClipKeepsOrder(marks.right, 0, |right|, r.0, r.1);
  }

  // ----- The cells spent -----

  /** Cells of the table the token path builds; none where one side has nothing between the equal ends. */
  function TokenCells(left: seq<Unit>, right: seq<Unit>): nat {
    var (l, r) := MiddleOf(left, right);
    if l == [] || r == [] then 0 else (|l| + 1) * (|r| + 1)
  }

  function CodepointCells(left: seq<Unit>, right: seq<Unit>): nat {
    var (l, r) := MiddleOf(left, right);
    if l == [] || r == [] || ProductExceeds(|l| + 1, |r| + 1, MAX_INTRALINE_LCS_MATRIX_CELLS) then 0
    else (|l| + 1) * (|r| + 1)
  }

  /** Cells allocated to refine one modified row: never two tables, since a token path that built one
      does not fall through to the codepoint path. */
  function PairCells(left: Line, right: Line): nat {
    if TokenPathApplies(left, right) then TokenCells(ByToken(left).units, ByToken(right).units)
    else CodepointCells(ByCodepoint(left).units, ByCodepoint(right).units)
  }

  /** What a row is charged before it is refined. */
  function PairCharge(left: Line, right: Line): nat {
    if ProductExceeds(|left| + 1, |right| + 1, MAX_INTRALINE_LCS_MATRIX_CELLS) then MAX_INTRALINE_LCS_MATRIX_CELLS
    else (|left| + 1) * (|right| + 1)
  }

  lemma {:induction false} ProductMonotone(a: nat, b: nat, c: nat, d: nat)
    requires a <= c && b <= d
    ensures a * b <= c * d
  {
    assert a * b <= c * b;
    assert c * b <= c * d;
  }

  lemma {:induction false} MiddleWithinBytes(left: Cut, right: Cut)
    requires WellCut(left) && WellCut(right)
    ensures |MiddleOf(left.units, right.units).0| <= |left.units| <= |left.text|
    ensures |MiddleOf(left.units, right.units).1| <= |right.units| <= |right.text|
  {
    UnitsWithinBytes(left, |left.units|);
    UnitsWithinBytes(right, |right.units|);
  }

  lemma {:induction false} WithinCharge(l: nat, r: nat, left: Line, right: Line)
    requires l <= |left| && r <= |right| && (l + 1) * (r + 1) <= MAX_INTRALINE_LCS_MATRIX_CELLS
    ensures (l + 1) * (r + 1) <= PairCharge(left, right)
  {
    ProductMonotone(l + 1, r + 1, |left| + 1, |right| + 1);
  }

  lemma {:induction false} TokenCellsWithinCharge(a: Cut, b: Cut)
    requires WellCut(a) && WellCut(b)
    requires !ProductExceeds(|a.units| + 1, |b.units| + 1, MAX_INTRALINE_LCS_MATRIX_CELLS)
    ensures TokenCells(a.units, b.units) <= PairCharge(a.text, b.text)
  {
    var (l, r) := MiddleOf(a.units, b.units);
    MiddleWithinBytes(a, b);
    ProductExceedsIsProduct(|a.units| + 1, |b.units| + 1, MAX_INTRALINE_LCS_MATRIX_CELLS);
    ProductMonotone(|l| + 1, |r| + 1, |a.units| + 1, |b.units| + 1);
    WithinCharge(|l|, |r|, a.text, b.text);
  }

  lemma {:induction false} CodepointCellsWithinCharge(a: Cut, b: Cut)
    requires WellCut(a) && WellCut(b)
    ensures CodepointCells(a.units, b.units) <= PairCharge(a.text, b.text)
  {
    var (l, r) := MiddleOf(a.units, b.units);
    MiddleWithinBytes(a, b);
    ProductExceedsIsProduct(|l| + 1, |r| + 1, MAX_INTRALINE_LCS_MATRIX_CELLS);
    if !ProductExceeds(|l| + 1, |r| + 1, MAX_INTRALINE_LCS_MATRIX_CELLS) {
      WithinCharge(|l|, |r|, a.text, b.text);
    }
  }

  /** A row allocates no more than it was charged. */
  lemma {:induction false} CellsWithinCharge(left: Line, right: Line)
    ensures PairCells(left, right) <= PairCharge(left, right) <= MAX_INTRALINE_LCS_MATRIX_CELLS
  {
    ProductExceedsIsProduct(|left| + 1, |right| + 1, MAX_INTRALINE_LCS_MATRIX_CELLS);
    if TokenPathApplies(left, right) {
      TokensCut(left);
      TokensCut(right);
      TokenCellsWithinCharge(ByToken(left), ByToken(right));
    } else {
      CodepointsCut(left);
      CodepointsCut(right);
      CodepointCellsWithinCharge(ByCodepoint(left), ByCodepoint(right));
    }
  }

  /** The part of a compare row that refinement reads. */
  datatype RowText = RowText(kind: RowKind, left: Line, right: Line)

  predicate Refines(row: RowText, budget: nat) {
    row.kind.Modified? && |row.left| <= MAX_INTRALINE_TEXT_BYTES && |row.right| <= MAX_INTRALINE_TEXT_BYTES
        && budget > 0
  }

  function BudgetAfter(row: RowText, budget: nat): nat {
    if !Refines(row, budget) then budget
    else
      var charge := PairCharge(row.left, row.right);
      if budget > charge then budget - charge else 0
  }

  /** Cells allocated for one row. */
  function RowCells(row: RowText, budget: nat): nat {
    if Refines(row, budget) then PairCells(row.left, row.right) else 0
  }

  /** Cells allocated for the rows of a hunk, and the budget they leave. */
  function HunkCells(rows: seq<RowText>, budget: nat): (nat, nat) {
    if rows == [] then (0, budget)
    else
      var (cells, left) := HunkCells(rows[..|rows| - 1], budget);
      var row := rows[|rows| - 1];
      (cells + RowCells(row, left), BudgetAfter(row, left))
  }

  lemma {:induction false} HunkCellsMore(rows: seq<RowText>, row: RowText, budget: nat)
    ensures var (cells, left) := HunkCells(rows, budget);
            HunkCells(rows + [row], budget) == (cells + RowCells(row, left), BudgetAfter(row, left))
  {
    hide RowCells, BudgetAfter;
    assert (rows + [row])[..|rows + [row]| - 1] == rows;
  }

  lemma {:induction false} HunkCellsBound(rows: seq<RowText>, budget: nat)
    ensures var (cells, left) := HunkCells(rows, budget);
            left <= budget
            && (if left > 0 then cells + left <= budget else cells <= budget + MAX_INTRALINE_LCS_MATRIX_CELLS)
  {
    if rows != [] {
      HunkCellsBound(rows[..|rows| - 1], budget);
      CellsWithinCharge(rows[|rows| - 1].left, rows[|rows| - 1].right);
    }
  }

  /** Over any number of rows one hunk never allocates more than its budget and one row's cap. */
  lemma {:induction false} HunkCellsWithinBudget(rows: seq<RowText>)
    ensures HunkCells(rows, MAX_HUNK_INTRALINE_TOTAL_CELLS).0 <= MAX_HUNK_INTRALINE_TOTAL_CELLS
            + MAX_INTRALINE_LCS_MATRIX_CELLS
  {
    HunkCellsBound(rows, MAX_HUNK_INTRALINE_TOTAL_CELLS);
  }

  // ----- The marks of a row -----

  function Whole(text: Line): seq<Span> {
    if text == "" then [] else [Span(0, |text|)]
  }

  function ChangedSpans(row: RowText, budget: nat): Marks {
    match row.kind
    case Unchanged => Marks([], [])
    case Deleted => Marks(Whole(row.left), [])
    case Added => Marks([], Whole(row.right))
    case Modified =>
      if Refines(row, budget) then Trimmed(row.left, row.right, Untrimmed(row.left, row.right))
      else Marks(Whole(row.left), Whole(row.right))
  }

  /** Every span of every row lies inside its text, in order. */
  lemma {:induction false} ChangedSpansOrdered(row: RowText, budget: nat)
    ensures Ordered(ChangedSpans(row, budget).left, 0, |row.left|)
    ensures Ordered(ChangedSpans(row, budget).right, 0, |row.right|)
  {
    hide Untrimmed, Trimmed, Windows;
    if Refines(row, budget) {
      var (l, r) := Windows(row.left, row.right);
      TrimmedInsideWindow(row.left, row.right);
      WindowsAscend(row.left, row.right);
      OrderedWeaken(ChangedSpans(row, budget).left, l.0, l.1, 0, |row.left|);
      OrderedWeaken(ChangedSpans(row, budget).right, r.0, r.1, 0, |row.right|);
    }
  }

  // ----- The methods -----

  /** Flags for the tokens between the equal ends, through the table where there is something to pair. */
  method FlagTokens(l: seq<Unit>, r: seq<Unit>) returns (left: seq<bool>, right: seq<bool>, cells: nat)
    ensures var pairs := Trace(l, r, TokenWeights(l, |l|), 0, 0);
            left == LeftFlags(pairs, 0, |l|) && right == RightFlags(pairs, 0, |r|)
    ensures cells == if l == [] || r == [] then 0 else (|l| + 1) * (|r| + 1)
  {
    if |l| == 0 || |r| == 0 {
      FlagsOfNothing(0, |l|);
      FlagsOfNothing(0, |r|);
      return Repeat(true, |l|), Repeat(true, |r|), 0;
    }
    cells := (|l| + 1) * (|r| + 1);
    var weights := TokenWeights(l, |l|);
    var dp := FillBest(l, r, weights);
    left, right := WalkBest(l, r, weights, dp);
  }

  method FlagCodepoints(l: seq<Unit>, r: seq<Unit>) returns (left: seq<bool>, right: seq<bool>, cells: nat)
    ensures var pairs := if l != [] && r != [] && !ProductExceeds(|l| + 1, |r| + 1, MAX_INTRALINE_LCS_MATRIX_CELLS)
                         then GreedyTrace(l, r, Ones(|l|), 0, 0) else [];
            left == LeftFlags(pairs, 0, |l|) && right == RightFlags(pairs, 0, |r|)
    ensures cells == if l == [] || r == [] || ProductExceeds(|l| + 1, |r| + 1, MAX_INTRALINE_LCS_MATRIX_CELLS) then 0
                     else (|l| + 1) * (|r| + 1)
  {
    if |l| > 0 && |r| > 0 && !ProductExceeds(|l| + 1, |r| + 1, MAX_INTRALINE_LCS_MATRIX_CELLS) {
      cells := (|l| + 1) * (|r| + 1);
      var dp := FillGreedy(l, r, Ones(|l|));
      left, right := WalkGreedy(l, r, Ones(|l|), dp);
    } else {
      FlagsOfNothing(0, |l|);
      FlagsOfNothing(0, |r|);
      left, right, cells := Repeat(true, |l|), Repeat(true, |r|), 0;
    }
  }

  method SpansOfFlags(l: Cut, r: Cut, prefix: nat, suffix: nat, left: seq<bool>, right: seq<bool>,
                      ghost pairs: seq<Pair>)
    returns (marks: Marks)
    requires |l.cuts| == |l.units| + 1 && |r.cuts| == |r.units| + 1
    requires prefix == Prefix(l.units, r.units) && suffix == Suffix(l.units, r.units)
    requires left == LeftFlags(pairs, 0, |l.units| - prefix - suffix)
             && right == RightFlags(pairs, 0, |r.units| - prefix - suffix)
    ensures marks == MarksOf(l, r, pairs)
  {
    var leftSpans := BuildSpansFromChanged(l.cuts, Framed(prefix, left, suffix));
    var rightSpans := BuildSpansFromChanged(r.cuts, Framed(prefix, right, suffix));
    marks := Marks(leftSpans, rightSpans);
  }

  method MarkTokens(l: Cut, r: Cut) returns (found: bool, marks: Marks, cells: nat)
    requires WellCut(l) && WellCut(r)
    ensures found && marks == MarksOf(l, r, TokenPairs(l.units, r.units)) && cells == TokenCells(l.units, r.units)
  {
    hide Trace, LeftFlags, RightFlags, TokenWeights;
    var prefix, leftSuffix, rightSuffix := FindEnds(l.units, r.units);
    var lm, rm := l.units[prefix..leftSuffix], r.units[prefix..rightSuffix];
    var leftFlags, rightFlags;
    leftFlags, rightFlags, cells := FlagTokens(lm, rm);
    marks := SpansOfFlags(l, r, prefix, |l.units| - leftSuffix, leftFlags, rightFlags, TokenPairs(l.units, r.units));
    found := true;
    if lm != [] && rm != [] {
      TokenTableFindsSpans(l, r);
      found := !(marks.left == [] && marks.right == []);
    }
  }

  /** Falls back to the codepoints only where its gate says so: once its table is built it reports spans.
      `cells` counts the table it allocates. */
  method PopulateTokenChangedSpans(left: Line, right: Line) returns (found: bool, marks: Marks, cells: nat)
    ensures found == TokenPathApplies(left, right)
    ensures found ==> marks == TokenMarks(left, right) && cells == TokenCells(ByToken(left).units, ByToken(right).units)
    ensures !found ==> cells == 0
  {
    var l, r := ByToken(left), ByToken(right);
    if |l.units| < 2 || |r.units| < 2 || ProductExceeds(|l.units| + 1, |r.units| + 1, MAX_INTRALINE_LCS_MATRIX_CELLS) {
      return false, Marks([], []), 0;
    }
    TokensCut(left);
    TokensCut(right);
    found, marks, cells := MarkTokens(l, r);
  }

  method PopulateCodepointChangedSpans(left: Line, right: Line) returns (marks: Marks, cells: nat)
    ensures marks == CodepointMarks(left, right)
            && cells == CodepointCells(ByCodepoint(left).units, ByCodepoint(right).units)
  {
    hide LeftChanged, CodepointUnits, Utf8Offsets, ByCodepoint, Suffix;
    var l, r := ByCodepoint(left), ByCodepoint(right);
    var prefix, leftSuffix, rightSuffix := FindEnds(l.units, r.units);
    var leftFlags, rightFlags;
    leftFlags, rightFlags, cells := FlagCodepoints(l.units[prefix..leftSuffix], r.units[prefix..rightSuffix]);
    marks := SpansOfFlags(l, r, prefix, |l.units| - leftSuffix, leftFlags, rightFlags,
                          CodepointPairs(l.units, r.units));
  }

  method TrimChangedSpansToSharedEdges(left: Line, right: Line, marks: Marks) returns (trimmed: Marks)
    ensures trimmed == Trimmed(left, right, marks)
  {
    hide Slice, Utf8SequenceLength, Clip, CodepointUnits;
    var leftOffsets := BuildUtf8Offsets(left);
    var rightOffsets := BuildUtf8Offsets(right);
    var prefix, leftSuffix, rightSuffix := FindEnds(ByCodepoint(left).units, ByCodepoint(right).units);
    var l := TrimSpansToByteWindow(marks.left, leftOffsets[prefix], leftOffsets[leftSuffix]);
    var r := TrimSpansToByteWindow(marks.right, rightOffsets[prefix], rightOffsets[rightSuffix]);
    trimmed := Marks(l, r);
  }

  method PopulateChangedSpans(row: RowText, budget: nat) returns (marks: Marks, budgetLeft: nat, cells: nat)
    ensures marks == ChangedSpans(row, budget) && budgetLeft == BudgetAfter(row, budget)
    ensures cells == RowCells(row, budget)
  {
    hide Trimmed, TokenMarks, CodepointMarks, ByToken, ByCodepoint;
    budgetLeft, cells := budget, 0;
    match row.kind
    case Unchanged => return Marks([], []), budget, 0;
    case Deleted => return Marks(Whole(row.left), []), budget, 0;
    case Added => return Marks([], Whole(row.right)), budget, 0;
    case Modified =>
      if |row.left| > MAX_INTRALINE_TEXT_BYTES || |row.right| > MAX_INTRALINE_TEXT_BYTES || budget == 0 {
        return Marks(Whole(row.left), Whole(row.right)), budget, 0;
      }
      var charge := PairCharge(row.left, row.right);
      budgetLeft := if budget > charge then budget - charge else 0;
      var found;
      found, marks, cells := PopulateTokenChangedSpans(row.left, row.right);
      if !found {
        marks, cells := PopulateCodepointChangedSpans(row.left, row.right);
      }
      marks := TrimChangedSpansToSharedEdges(row.left, row.right, marks);
  }
}
