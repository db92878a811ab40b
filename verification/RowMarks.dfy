/** What the changed spans of a row mean: which bytes they cover, and what deleting them leaves on each side,
    for every kind of row. */
module RowMarks {
  import opened Basics
  import opened Text
  import opened CommonSubsequence
  import opened ChangedUnits
  import opened Intraline
  import opened TrimmedSpans

  // ----- Which bytes flagged units cover -----

  /** Byte `k` belongs to a flagged unit. */
  ghost predicate Flagged(c: Cut, changed: seq<bool>, k: nat) {
    exists i | 0 <= i < |changed| && i + 1 < |c.cuts| :: changed[i] && c.cuts[i] <= k < c.cuts[i + 1]
  }

  ghost predicate FlaggedFrom(c: Cut, changed: seq<bool>, from: nat, k: nat) {
    exists i | from <= i < |changed| && i + 1 < |c.cuts| :: changed[i] && c.cuts[i] <= k < c.cuts[i + 1]
  }

  lemma {:induction false} UnitOfByte(c: Cut, from: nat, end: nat, k: nat) returns (i: nat)
    requires WellCut(c) && from < end <= |c.units| && c.cuts[from] <= k < c.cuts[end]
    ensures from <= i < end && c.cuts[i] <= k < c.cuts[i + 1]
    decreases end
  {
    if c.cuts[end - 1] <= k {
      i := end - 1;
    } else {
      assert from < end - 1;
      i := UnitOfByte(c, from, end - 1, k);
    }
  }

  /** The span of a run of flagged units covers the bytes of these units. */
  lemma {:induction false} RunCovers(c: Cut, changed: seq<bool>, from: nat, end: nat, k: nat)
    requires WellCut(c) && |changed| == |c.units| && from < end <= |changed|
    requires forall i | from <= i < end :: changed[i]
    ensures FlaggedFrom(c, changed, from, k) <==> c.cuts[from] <= k < c.cuts[end] || FlaggedFrom(c, changed, end, k)
  {
    if c.cuts[from] <= k < c.cuts[end] {
      var i := UnitOfByte(c, from, end, k);
    }
    if FlaggedFrom(c, changed, from, k) {
      var i :| from <= i < |changed| && i + 1 < |c.cuts| && changed[i] && c.cuts[i] <= k < c.cuts[i + 1];
      if i < end {
        CutsAscend(c, from, i);
        CutsAscend(c, i + 1, end);
      }
    }
  }

  lemma {:induction false} CoveredByHead(first: Span, rest: seq<Span>, k: nat)
    ensures Covered([first] + rest, k) <==> first.start <= k < first.end || Covered(rest, k)
  {
    var all := [first] + rest;
    assert all[0] == first;
    if Covered(rest, k) {
      var x :| 0 <= x < |rest| && rest[x].start <= k < rest[x].end;
      assert all[x + 1] == rest[x];
    }
    if Covered(all, k) {
      var x :| 0 <= x < |all| && all[x].start <= k < all[x].end;
      assert x > 0 ==> rest[x - 1] == all[x];
    }
  }

  lemma {:induction false} NoneFlaggedAtEnd(c: Cut, changed: seq<bool>, k: nat)
    ensures !FlaggedFrom(c, changed, |changed|, k) && !Covered([], k)
  {
  }

  lemma {:induction false} UnflaggedSkips(c: Cut, changed: seq<bool>, from: nat, k: nat)
    requires from < |changed| && !changed[from]
    ensures FlaggedFrom(c, changed, from, k) <==> FlaggedFrom(c, changed, from + 1, k)
  {
  }

  /** Spans of flagged runs cover the bytes of the flagged units. */
  lemma {:induction false} SpansCover(c: Cut, changed: seq<bool>, from: nat, k: nat)
    requires WellCut(c) && |changed| == |c.units| && from <= |changed|
    ensures Covered(SpansFrom(c.cuts, changed, from), k) <==> FlaggedFrom(c, changed, from, k)
    decreases |changed| - from
  {
    assert |c.cuts| == |c.units| + 1;
    hide Covered, FlaggedFrom, WellCut;
    if from == |changed| {
      NoneFlaggedAtEnd(c, changed, k);
    } else if !changed[from] {
      UnflaggedSkips(c, changed, from, k);
      SpansCover(c, changed, from + 1, k);
    } else {
      var end := FlagRunEnd(changed, from);
      RunCovers(c, changed, from, end, k);
      SpansCover(c, changed, end, k);
      CoveredByHead(Span(c.cuts[from], c.cuts[end]), SpansFrom(c.cuts, changed, end), k);
    }
  }

  /** `marks` cover the bytes of the flagged units that lie between the equal ends, and no others. */
  ghost predicate MarksFlagged(marks: Marks, a: Cut, b: Cut, f: seq<bool>, g: seq<bool>, l: (nat, nat), r: (nat, nat)) {
    && (forall k: nat :: Covered(marks.left, k) <==> Flagged(a, f, k) && InWindow(k, l.0, l.1))
    && (forall k: nat :: Covered(marks.right, k) <==> Flagged(b, g, k) && InWindow(k, r.0, r.1))
  }

  lemma {:induction false} ClippedCovers(c: Cut, changed: seq<bool>, lo: nat, hi: nat, k: nat)
    requires WellCut(c) && |changed| == |c.units|
    ensures Covered(Clip(SpansFrom(c.cuts, changed, 0), lo, hi), k) <==> Flagged(c, changed, k) && InWindow(k, lo, hi)
  {
    ClipCovers(SpansFrom(c.cuts, changed, 0), lo, hi, k);
    SpansCover(c, changed, 0, k);
    hide Covered, Clip, SpansFrom;
  }

  lemma {:induction false} ClippedMarksFlagged(a: Cut, b: Cut, pairs: seq<Pair>, l: (nat, nat), r: (nat, nat))
    requires WellCut(a) && WellCut(b)
    ensures var marks := MarksOf(a, b, pairs);
            MarksFlagged(Marks(Clip(marks.left, l.0, l.1), Clip(marks.right, r.0, r.1)), a, b,
                         LeftChanged(a.units, b.units, pairs), RightChanged(a.units, b.units, pairs), l, r)
  {
    assert |a.cuts| == |a.units| + 1 && |b.cuts| == |b.units| + 1;
    hide WellCut, Covered, Flagged, Clip, SpansFrom, LeftChanged, RightChanged, InWindow;
    forall k: nat
      ensures Covered(Clip(MarksOf(a, b, pairs).left, l.0, l.1), k)
         <==> Flagged(a, LeftChanged(a.units, b.units, pairs), k) && InWindow(k, l.0, l.1)
    {
      ClippedCovers(a, LeftChanged(a.units, b.units, pairs), l.0, l.1, k);
    }
    forall k: nat
      ensures Covered(Clip(MarksOf(a, b, pairs).right, r.0, r.1), k)
         <==> Flagged(b, RightChanged(a.units, b.units, pairs), k) && InWindow(k, r.0, r.1)
    {
      ClippedCovers(b, RightChanged(a.units, b.units, pairs), r.0, r.1, k);
    }
  }

  // ----- Rows that are refined -----

  /** A modified row with two texts of at most 64 KiB, reached with cells left to spend. */
  ghost predicate IsRefined(row: RowText, budget: nat) {
    row.kind.Modified? && |row.left| <= 65536 && |row.right| <= 65536 && budget > 0
  }

  /** Both lines have several tokens, and few enough for a table of 64 Ki cells. */
  ghost predicate HasTokens(left: Line, right: Line) {
    var l, r := |Tokenize(left, 0)|, |Tokenize(right, 0)|;
    2 <= l && 2 <= r && (l + 1) * (r + 1) <= 65536
  }

  /** Unflagged, the two sides are the same units, and no pairing of equal units weighs more. */
  ghost predicate KeepsHeaviest(a: seq<Unit>, b: seq<Unit>, w: seq<nat>, f: seq<bool>, g: seq<bool>) {
    && |f| == |a| == |w| && |g| == |b| && Kept(a, f) == Kept(b, g)
    && forall q | Pairing(a, b, q, 0, 0) :: Weight(w, q) <= Sum(Kept(w, f))
  }

  /** A word weighs its bytes and four more, any other token one. */
  ghost predicate WeighsTokens(units: seq<Unit>, w: seq<nat>) {
    |w| == |units| && forall k | 0 <= k < |units| :: w[k] == if units[k].kind.Word? then |units[k].text| + 4 else 1
  }

  lemma {:induction false} TokensWeigh(c: Cut)
    requires WellCut(c)
    ensures WeighsTokens(c.units, TokenWeights(c.units, |c.units|))
  {
    forall k | 0 <= k < |c.units| ensures |c.units[k].text| > 0 {
      assert Piece(c.text, c.cuts, c.units, k);
    }
  }

  ghost predicate KeepsLongest(a: seq<Unit>, b: seq<Unit>, f: seq<bool>, g: seq<bool>) {
    && |f| == |a| && |g| == |b| && Kept(a, f) == Kept(b, g)
    && forall q | Pairing(a, b, q, 0, 0) :: |q| <= |Kept(a, f)|
  }

  lemma {:induction false} TokenGate(left: Line, right: Line)
    ensures TokenPathApplies(left, right) <==> HasTokens(left, right)
  {
    hide Tokenize, TokenCuts;
    ProductExceedsIsProduct(|Tokenize(left, 0)| + 1, |Tokenize(right, 0)| + 1, MAX_INTRALINE_LCS_MATRIX_CELLS);
  }

  lemma {:induction false} RefinedMarks(row: RowText, budget: nat)
    requires IsRefined(row, budget)
    ensures ChangedSpans(row, budget) == Trimmed(row.left, row.right, Untrimmed(row.left, row.right))
  {
    hide Trimmed, Untrimmed;
  }

  lemma {:induction false} TrimmedTokenMarks(left: Line, right: Line)
    requires HasTokens(left, right)
    ensures var a, b := ByToken(left), ByToken(right);
            var marks := MarksOf(a, b, TokenPairs(a.units, b.units));
            var (l, r) := Windows(left, right);
            var clipped := Marks(Clip(marks.left, l.0, l.1), Clip(marks.right, r.0, r.1));
            Trimmed(left, right, Untrimmed(left, right)) == clipped
  {
    TokenGate(left, right);
    hide HasTokens, ByToken, Windows, TokenPathApplies, TokenPairs, MarksOf, Clip, CodepointMarks;
  }

  /** The spans of a row with several tokens on both sides are made of tokens: those outside a heaviest common
      subsequence, as far as they lie between the equal ends of the lines. */
  lemma {:induction false} TokensAreMarked(row: RowText, budget: nat)
    requires IsRefined(row, budget) && HasTokens(row.left, row.right)
    ensures var a, b := ByToken(row.left), ByToken(row.right);
            var w := TokenWeights(a.units, |a.units|);
            var (l, r) := Windows(row.left, row.right);
            && WeighsTokens(a.units, w)
            && exists f, g ::
                KeepsHeaviest(a.units, b.units, w, f, g) && MarksFlagged(ChangedSpans(row, budget), a, b, f, g, l, r)
  {
    var a, b := ByToken(row.left), ByToken(row.right);
    RefinedMarks(row, budget);
    TrimmedTokenMarks(row.left, row.right);
    TokensCut(row.left);
    TokensCut(row.right);
    TokensWeigh(a);
    hide WeighsTokens, ByToken, Windows, IsRefined, HasTokens, ChangedSpans, Trimmed, Untrimmed, TokenPairs,
        LeftChanged, MarksFlagged,
         RightChanged, KeepsHeaviest, WellCut, MarksOf, Clip;
    var pairs := TokenPairs(a.units, b.units);
    var (l, r) := Windows(row.left, row.right);
    ClippedMarksFlagged(a, b, pairs, l, r);
    TokenFlagsKeep(a.units, b.units);
  }

  lemma {:induction false} TokenFlagsKeep(a: seq<Unit>, b: seq<Unit>)
    ensures var pairs := TokenPairs(a, b);
            KeepsHeaviest(a, b, TokenWeights(a, |a|), LeftChanged(a, b, pairs), RightChanged(a, b, pairs))
  {
    hide LeftChanged, RightChanged, Kept, Weight, Sum, TokenPairs, TokenWeights, Pairing;
    TokenPairsPair(a, b);
    SidesKeepTheSame(a, b, TokenPairs(a, b));
    forall q | Pairing(a, b, q, 0, 0)
      ensures Weight(TokenWeights(a, |a|), q) <= Sum(Kept(TokenWeights(a, |a|), LeftChanged(a, b, TokenPairs(a, b)))) {
      TokenPathKeepsHeaviest(a, b, q);
    }
  }

  lemma {:induction false} TrimmedCodepointMarks(left: Line, right: Line)
    requires !HasTokens(left, right)
    ensures var a, b := ByCodepoint(left), ByCodepoint(right);
            var marks := MarksOf(a, b, CodepointPairs(a.units, b.units));
            var (l, r) := Windows(left, right);
            var clipped := Marks(Clip(marks.left, l.0, l.1), Clip(marks.right, r.0, r.1));
            Trimmed(left, right, Untrimmed(left, right)) == clipped
  {
    TokenGate(left, right);
    hide HasTokens, ByCodepoint, Windows, TokenPathApplies, CodepointPairs, MarksOf, Clip, TokenMarks;
  }

  /** What is between the equal ends fits a table of 64 Ki cells. */
  ghost predicate FitsCells(a: seq<Unit>, b: seq<Unit>) {
    var (l, r) := MiddleOf(a, b);
    (|l| + 1) * (|r| + 1) <= 65536
  }

  /** The spans of any other row are made of codepoints: within the cell cap, those outside a longest common
      subsequence; above it, everything between the equal ends. */
  lemma {:induction false} CodepointsAreMarked(row: RowText, budget: nat)
    requires IsRefined(row, budget) && !HasTokens(row.left, row.right)
    ensures var a, b := ByCodepoint(row.left), ByCodepoint(row.right);
            var (l, r) := Windows(row.left, row.right);
            && (FitsCells(a.units, b.units) ==>
                  exists f, g :: KeepsLongest(a.units, b.units, f, g)
                                 && MarksFlagged(ChangedSpans(row, budget), a, b, f, g, l, r))
            && (!FitsCells(a.units, b.units) ==>
                  forall k: nat ::
                    && (Covered(ChangedSpans(row, budget).left, k) <==> InWindow(k, l.0, l.1))
                    && (Covered(ChangedSpans(row, budget).right, k) <==> InWindow(k, r.0, r.1)))
  {
    var a, b := ByCodepoint(row.left), ByCodepoint(row.right);
    RefinedMarks(row, budget);
    TrimmedCodepointMarks(row.left, row.right);
    CodepointsCut(row.left);
    CodepointsCut(row.right);
    WindowsOfCodepoints(row.left, row.right);
    hide ByCodepoint, Windows, IsRefined, HasTokens, ChangedSpans, Trimmed, Untrimmed, CodepointPairs, LeftChanged,
         RightChanged, KeepsLongest, MarksFlagged, WellCut, MarksOf, Clip, FitsCells, Covered, Window;
    var pairs := CodepointPairs(a.units, b.units);
    var (l, r) := Windows(row.left, row.right);
    ClippedMarksFlagged(a, b, pairs, l, r);
    if FitsCells(a.units, b.units) {
      CodepointFlagsKeep(a.units, b.units);
    } else {
      NothingPaired(a.units, b.units);
      EverythingMarked(a, b, ChangedSpans(row, budget));
    }
  }

  lemma {:induction false} WindowsOfCodepoints(left: Line, right: Line)
    ensures var a, b := ByCodepoint(left), ByCodepoint(right);
            Windows(left, right) == (Window(a, Prefix(a.units, b.units), Suffix(a.units, b.units)),
                                     Window(b, Prefix(a.units, b.units), Suffix(a.units, b.units)))
  {
    hide ByCodepoint, Prefix, Suffix, Window;
  }

  /** The windows are what is left between the longest equal ends of whole codepoints. */
  lemma {:induction false} WindowsLeaveLongestEnds(left: Line, right: Line)
    ensures var a, b := ByCodepoint(left), ByCodepoint(right);
            exists p: nat, s: nat ::
              && p + s <= |a.units| && p + s <= |b.units| && Windows(left, right) == (Window(a, p, s), Window(b, p, s))
              && a.units[..p] == b.units[..p] && a.units[|a.units| - s..] == b.units[|b.units| - s..]
              && (p + s < |a.units| && p + s < |b.units| ==>
                    && a.units[p] != b.units[p]
                    && a.units[|a.units| - 1 - s] != b.units[|b.units| - 1 - s])
  {
    var a, b := ByCodepoint(left), ByCodepoint(right);
    WindowsOfCodepoints(left, right);
    EndsAreLongest(a.units, b.units);
    hide ByCodepoint, Prefix, Suffix, Windows;
    var p, s := Prefix(a.units, b.units), Suffix(a.units, b.units);
    assert Windows(left, right) == (Window(a, p, s), Window(b, p, s));
  }

  lemma {:induction false} CodepointFlagsKeep(a: seq<Unit>, b: seq<Unit>)
    requires FitsCells(a, b)
    ensures var pairs := CodepointPairs(a, b);
            KeepsLongest(a, b, LeftChanged(a, b, pairs), RightChanged(a, b, pairs))
  {
    hide LeftChanged, RightChanged, Kept, CodepointPairs, Pairing, MiddleOf;
    CodepointPairsPair(a, b);
    SidesKeepTheSame(a, b, CodepointPairs(a, b));
    forall q | Pairing(a, b, q, 0, 0)
      ensures |q| <= |Kept(a, LeftChanged(a, b, CodepointPairs(a, b)))| {
      CodepointPathKeepsLongest(a, b, q);
    }
  }

  lemma {:induction false} NothingPaired(a: seq<Unit>, b: seq<Unit>)
    requires !FitsCells(a, b)
    ensures CodepointPairs(a, b) == []
  {
    var (l, r) := MiddleOf(a, b);
    hide MiddleOf, GreedyTrace;
    ProductExceedsIsProduct(|l| + 1, |r| + 1, MAX_INTRALINE_LCS_MATRIX_CELLS);
  }

  lemma {:induction false} AllFlagged(n: nat, k: nat)
    requires k <= n
    ensures forall i | 0 <= i < n - k :: LeftFlags([], k, n)[i] && RightFlags([], k, n)[i]
    decreases n - k
  {
    if k < n {
      AllFlagged(n, k + 1);
    }
  }

  lemma {:induction false} MiddleFlagged(c: Cut, f: seq<bool>, p: nat, s: nat, k: nat)
    requires WellCut(c) && p + s <= |c.units| && |f| == |c.units| - p - s && forall i | 0 <= i < |f| :: f[i]
    ensures InWindow(k, Window(c, p, s).0, Window(c, p, s).1) ==> Flagged(c, Framed(p, f, s), k)
  {
    if InWindow(k, Window(c, p, s).0, Window(c, p, s).1) {
      CutsAscend(c, p, |c.units| - s);
      var i := UnitOfByte(c, p, |c.units| - s, k);
      assert Framed(p, f, s)[i] == f[i - p];
    }
  }

  lemma {:induction false} EverythingMarked(a: Cut, b: Cut, marks: Marks)
    requires WellCut(a) && WellCut(b)
    requires var p, s := Prefix(a.units, b.units), Suffix(a.units, b.units);
             MarksFlagged(marks, a, b, LeftChanged(a.units, b.units, []), RightChanged(a.units, b.units, []),
                          Window(a, p, s), Window(b, p, s))
    ensures var p, s := Prefix(a.units, b.units), Suffix(a.units, b.units);
            forall k: nat ::
              && (Covered(marks.left, k) <==> InWindow(k, Window(a, p, s).0, Window(a, p, s).1))
              && (Covered(marks.right, k) <==> InWindow(k, Window(b, p, s).0, Window(b, p, s).1))
  {
    var p, s := Prefix(a.units, b.units), Suffix(a.units, b.units);
    assert |a.cuts| == |a.units| + 1 && |b.cuts| == |b.units| + 1;
    hide WellCut, Prefix, Suffix, Covered, Flagged, Framed, InWindow, Window;
    var n, m := |a.units| - p - s, |b.units| - p - s;
    AllFlagged(n, 0);
    AllFlagged(m, 0);
    forall k: nat
      ensures Covered(marks.left, k) <==> InWindow(k, Window(a, p, s).0, Window(a, p, s).1)
      ensures Covered(marks.right, k) <==> InWindow(k, Window(b, p, s).0, Window(b, p, s).1)
    {
      MiddleFlagged(a, LeftFlags([], 0, n), p, s, k);
      MiddleFlagged(b, RightFlags([], 0, m), p, s, k);
    }
  }

  // ----- What the spans leave -----

  /** Deleting the changed spans of a refined row leaves the same text on both sides exactly when, before they
      were trimmed, the spans left the same text between the equal ends. */
  lemma {:induction false} RefinedLeavesTheSameIff(row: RowText, budget: nat)
    requires IsRefined(row, budget)
    ensures var marks := Untrimmed(row.left, row.right);
            var (l, r) := Windows(row.left, row.right);
            && l.1 <= |row.left| && r.1 <= |row.right|
            && (SameRemainder(row.left, row.right, ChangedSpans(row, budget))
                <==> Inside(row.left, marks.left, l.0, l.1) == Inside(row.right, marks.right, r.0, r.1))
  {
    RefinedMarks(row, budget);
    TrimmedLeavesTheSameIff(row.left, row.right);
    hide Inside, Windows, Untrimmed, Trimmed, SameRemainder, ChangedSpans;
  }

  /** Where not both sides have several tokens, or they have too many, it always does. */
  lemma {:induction false} CodepointRowLeavesTheSame(row: RowText, budget: nat)
    requires IsRefined(row, budget) && !HasTokens(row.left, row.right)
    ensures SameRemainder(row.left, row.right, ChangedSpans(row, budget))
  {
    RefinedMarks(row, budget);
    TokenGate(row.left, row.right);
    hide ChangedSpans, HasTokens, TokenPathApplies, SameRemainder, Trimmed, Untrimmed;
    CodepointRowsLeaveTheSame(row.left, row.right);
  }

  /** What a refined row keeps of either side: the equal ends, and between them what the spans did not cover
      before they were trimmed. */
  lemma {:induction false} RefinedKeeps(row: RowText, budget: nat)
    requires IsRefined(row, budget)
    ensures var marks, cut := ChangedSpans(row, budget), Untrimmed(row.left, row.right);
            var (l, r) := Windows(row.left, row.right);
            && l.0 <= l.1 <= |row.left| && r.0 <= r.1 <= |row.right|
            && Without(row.left, marks.left, 0)
               == row.left[..l.0] + Inside(row.left, cut.left, l.0, l.1) + row.left[l.1..]
            && Without(row.right, marks.right, 0)
               == row.right[..r.0] + Inside(row.right, cut.right, r.0, r.1) + row.right[r.1..]
  {
    var (l, r) := Windows(row.left, row.right);
    RefinedMarks(row, budget);
    WindowsBetweenEqualTexts(row.left, row.right);
    UntrimmedOrdered(row.left, row.right);
    hide Inside, Windows, Untrimmed, Without, ChangedSpans, Clip, Ordered;
    ClippedRemainder(row.left, Untrimmed(row.left, row.right).left, l.0, l.1);
    ClippedRemainder(row.right, Untrimmed(row.left, row.right).right, r.0, r.1);
  }

  lemma {:induction false} WholeLeavesNothing(text: Line)
    ensures Without(text, Whole(text), 0) == ""
  {
    if text != "" {
      var spans := Whole(text);
      assert Without(text, spans, 0) == Slice(text, 0, 0) + Without(text, spans[1..], |text|);
    }
  }

  /** A deleted or added line, and both lines of a modified row that is not refined, are changed throughout;
      nothing is marked on a side without a line, nor on an unchanged row. */
  lemma {:induction false} OtherRowsAreWhole(row: RowText, budget: nat)
    requires !IsRefined(row, budget)
    ensures var marks := ChangedSpans(row, budget);
            && (row.kind.Deleted? || row.kind.Modified? ==> Without(row.left, marks.left, 0) == "")
            && (row.kind.Added? || row.kind.Modified? ==> Without(row.right, marks.right, 0) == "")
            && (row.kind.Added? || row.kind.Unchanged? ==> marks.left == [])
            && (row.kind.Deleted? || row.kind.Unchanged? ==> marks.right == [])
  {
    hide Without, Whole, Trimmed, Untrimmed;
    WholeLeavesNothing(row.left);
    WholeLeavesNothing(row.right);
  }

  // ----- Which rows of a hunk are refined -----

  /** What the rows ask of the budget: for each modified row of two texts of at most 64 KiB the cells of a table
      over its bytes, at most 64 Ki. */
  ghost function Asked(rows: seq<RowText>): nat {
    if rows == [] then 0
    else
      var row := rows[|rows| - 1];
      Asked(rows[..|rows| - 1])
      + if IsRefined(row, 1) then Min((|row.left| + 1) * (|row.right| + 1), 65536) else 0
  }

  lemma {:induction false} ChargeIsAsked(left: Line, right: Line)
    ensures PairCharge(left, right) == Min((|left| + 1) * (|right| + 1), 65536)
  {
    ProductExceedsIsProduct(|left| + 1, |right| + 1, MAX_INTRALINE_LCS_MATRIX_CELLS);
  }

  lemma {:induction false} HunkBudgetLeft(rows: seq<RowText>, budget: nat)
    ensures HunkCells(rows, budget).1 == if Asked(rows) < budget then budget - Asked(rows) else 0
  {
    if rows != [] {
      var before, row := rows[..|rows| - 1], rows[|rows| - 1];
      HunkBudgetLeft(before, budget);
      ChargeIsAsked(row.left, row.right);
      hide PairCharge, PairCells;
      assert HunkCells(rows, budget).1 == BudgetAfter(row, HunkCells(before, budget).1);
    }
  }

  /** A row is refined exactly when the rows before it asked for less than 8 Mi cells. */
  lemma {:induction false} RefinedWhileBudgetLasts(rows: seq<RowText>, row: RowText)
    ensures var budget := HunkCells(rows, MAX_HUNK_INTRALINE_TOTAL_CELLS).1;
            IsRefined(row, budget) <==> IsRefined(row, 1) && Asked(rows) < 8388608
  {
    HunkBudgetLeft(rows, MAX_HUNK_INTRALINE_TOTAL_CELLS);
    hide HunkCells, Asked;
  }
}
